# Tun/tap-to-UDP tunnel: Dafny model

The system is a small C++ tunnel with two variants. Each opens a tun/tap
device and a UDP socket, then forwards traffic in an endless `select` loop:

- **gzip_try** runs as a client or a server.
- **project** runs as a server only.

A datagram that arrives on the socket is written to the device. The sender
becomes the peer (`remote`), and the sender's port becomes the gate
(`port_cl`). A frame read from the device is sent to the peer, but only
while the gate is non-zero. A server therefore stays silent until someone
has sent it a datagram. A gzip_try client starts its gate at PORT, so it can
send first. The two variants differ in BUFSIZE (2000 / 1500 bytes) and
PORT (55555 / 5555).

The model has these modules:

- `Wire`: bytes, frames, socket addresses, datagrams.
- `SysIo`: the wrappers `cread` and `cwrite`, which exit with status 1 on
  failure, and `read_n`. `read_n` is an imperative loop over an array,
  proved against a recursive function.
- `IpText`: `print_ip`. The function returns its text. The partner is a
  parser of that text, and a round-trip lemma ties the two together.
- `HexDump`: `hexdump`. It returns the lines it prints, and lemmas fix each
  line's layout.
- `Options`: the gzip_try configuration checks that run after `getopt`.
- `Forwarding`: one pass of the loop (`Step`) and the loop itself (`Run`),
  as pure functions over a `Session`:
  - the loop's locals;
  - four logs of the outside world: datagrams received, frames written to
    the device, frames read from it, datagrams sent.
  - The lemmas cover counters, payload identity, peer learning, gating and
    the order of the two branches.
- `TunnelLoop`: the same loop as a class whose fields are the loop's
  locals, with the shared `buffer` as an array. Each method is proved to
  move the state exactly as `Forwarding` says.

The environment becomes parameters:

- What `select` reports, how the kernel answers each read, what write(2)
  returns: a `Wakeup`, a `ReadReply` or a `ReadLimit`.
- Who sent each datagram: an `Inbound`.
- The server address a client was given: a `SockAddr`.

## Model

| member | source | states |
|---|---|---|
| SysIo.CRead | gzip_try/src/main.cpp:114-123 | returns the byte count exactly when read(2) delivered bytes, that count within 0..n; a failed read exits with status 1 |
| SysIo.CWrite | project/src/main.cpp:92-101 | returns write(2)'s count exactly when it is non-negative; a negative return exits with status 1 |
| SysIo.Reply | gzip_try/src/main.cpp:150 | one read(2) inside `read_n`: a failure, or a prefix of what remains, at most `left` bytes; it is empty exactly when the kernel gives 0 or nothing remains |
| SysIo.ReadLoop | gzip_try/src/main.cpp:146-157 | the `while(left > 0)` loop of `read_n` as a recursive function (its results are stated by SysIo.ReadNWithoutFailure and SysIo.ReadNExitsOnFailure) |
| SysIo.ReadNResult | gzip_try/src/main.cpp:144-157 | what `read_n` returns: n, or 0 when a read returned 0, or the exit of a failed `cread` |
| SysIo.ReadN | gzip_try/src/main.cpp:144-157 | the loop's result is that of the read sequence it performs; on result n the first n bytes of the stream are in `buf[0..n)`; on result 0 the stream ended before n and all of it is in place; cells from n on are untouched |
| SysIo.ReadNWithoutFailure | gzip_try/src/main.cpp:144-157 | when no read fails, `read_n` returns n if at least n bytes arrive before end of file and 0 otherwise, however the kernel chunks the reads |
| SysIo.ReadNExitsOnFailure | gzip_try/src/main.cpp:144-157 | `read_n` ends the process only with status 1, and only if one of its first n reads failed |
| IpText.OctetsRecombine | gzip_try/src/main.cpp:61-69 | the four octets extracted by shift-and-mask, taken from `bytes[3]` down to `bytes[0]`, recombine to the address |
| IpText.OctetAt | gzip_try/src/main.cpp:64-67 | `(ip >> shift) & 0xFF` for shifts 0, 8, 16, 24: a byte (its properties are stated by IpText.OctetsRecombine) |
| IpText.Octets | gzip_try/src/main.cpp:63-68 | four bytes, in the order `print_ip` prints them: `bytes[3]` first |
| IpText.PrintIp | project/src/main.cpp:33-41 | the line `print_ip` prints: the octets in `%d`, dot-separated, then a newline (its meaning is stated by IpText.PrintIpFieldsAre and IpText.PrintIpRoundTrip) |
| IpText.ParseIp | gzip_try/src/main.cpp:61-69 | not code of the source: the inverse of `print_ip`, stated beside it as its partner; it accepts a text only if the text ends in a newline and has four dot-separated fields |
| IpText.PrintIpFieldsAre | gzip_try/src/main.cpp:61-69 | the printed line is newline-terminated, and its dot-separated fields are the four octets in decimal, most significant first |
| IpText.PrintIpRoundTrip | gzip_try/src/main.cpp:61-69 | parsing the text `print_ip` prints gives back the address |
| IpText.Decimal | gzip_try/src/main.cpp:68 | the `%d` rendering of a number is non-empty decimal digits, with no leading zero unless it is the single digit 0 |
| IpText.DecimalRoundTrip | gzip_try/src/main.cpp:68 | the `%d` digits of n read back as n |
| HexDump.Hex | gzip_try/src/main.cpp:205 | `%x`: at least one digit, all lower-case hex digits |
| HexDump.HexPadded | project/src/main.cpp:133-136 | `%06x` / `%02x`: only hex digits (their value and width are stated by HexDump.HexPaddedMeans) |
| HexDump.HexCell | project/src/main.cpp:135-138 | hex column j of the line at offset i: `%02x ` of the byte while `i+j < buflen`, three spaces otherwise (layout in HexDump.HexCellLayout) |
| HexDump.AsciiCells | gzip_try/src/main.cpp:212-214 | the ASCII column of the line at offset i (layout in HexDump.AsciiCellsLayout) |
| HexDump.Line | gzip_try/src/main.cpp:205-215 | one pass of the outer loop (layout in HexDump.LineLayout) |
| HexDump.Hexdump | project/src/main.cpp:129-145 | the whole output, one line per offset the outer loop visits (count and order in HexDump.HexdumpLines) |
| HexDump.HexRoundTrip | gzip_try/src/main.cpp:205 | the `%x` digits of n read back as n |
| HexDump.HexPaddedMeans | gzip_try/src/main.cpp:205-208 | `%06x` and `%02x` print at least the width in digits and denote the number; exactly the width in digits when the number fits |
| HexDump.HexdumpLines | gzip_try/src/main.cpp:202-218 | `hexdump` prints ceil(buflen/16) lines (none when buflen <= 0), and line k is the line for offset 16k |
| HexDump.HexCellLayout | project/src/main.cpp:133-137 | each hex column is three characters: two hex digits denoting the byte and a space while `i+j < buflen`, three spaces after |
| HexDump.HexCellsLayout | gzip_try/src/main.cpp:206-210 | the hex part of a line is 48 characters, and column c occupies characters 3c..3c+3 |
| HexDump.AsciiCellsLayout | gzip_try/src/main.cpp:212-214 | the ASCII part has one character per remaining byte of the line (at most 16): the byte if printable, '.' otherwise |
| HexDump.Shown | project/src/main.cpp:141 | a printable byte (0x20..0x7e) is shown as itself, any other as '.' |
| HexDump.LineLayout | project/src/main.cpp:131-144 | a line is: its offset (at least six hex digits denoting it), ": ", 48 hex characters, a space, the ASCII part (clamp(buflen-i, 16) characters) and a newline |
| Options.CheckConfig | gzip_try/src/main.cpp:275-289 | when the tunnel starts, it runs as client exactly when CLIENT was chosen |
| Options.AcceptedExactly | gzip_try/src/main.cpp:275-289 | the tunnel starts exactly when no positional argument is left, an interface is named, a mode is chosen, and a client has a server address |
| Options.ErrorPrecedence | gzip_try/src/main.cpp:275-289 | which refusal wins: extra arguments, then a missing interface, then a missing mode, then a missing server address |
| Forwarding.InboundFits | gzip_try/src/main.cpp:410-414 | the bounds of a receive: recvfrom delivers at most BUFSIZE bytes, and write(2) reports at most what it was given |
| Forwarding.ReplyFits | project/src/main.cpp:275 | the bound of a device read: at most BUFSIZE bytes |
| Forwarding.Initial | gzip_try/src/main.cpp:357-382 | the loop starts running with zero counters and empty logs; the gate is open exactly for a client, whose peer is the configured server |
| Forwarding.NetStep | gzip_try/src/main.cpp:404-436 | the network branch: the sender becomes the peer and its port the gate, the datagram is logged and its payload written to the device; the process keeps running exactly when the write succeeds (else status 1); nothing on the sending side changes |
| Forwarding.TapStep | project/src/main.cpp:273-305 | the interface branch: with the gate closed nothing changes; with it open a delivered frame is counted and sent to the current peer, and a failed read ends the process with status 1, sending nothing; nothing on the receiving side changes |
| Forwarding.Step | gzip_try/src/main.cpp:384-472 | one pass of the loop; its own contract only keeps BUFSIZE, and what a pass does is stated by Forwarding.StepConsistent, Forwarding.StepTracked, Forwarding.NetBeforeTap, Forwarding.WaitOutcomes and Forwarding.IoFailureExits |
| Forwarding.Run | project/src/main.cpp:228-306 | the loop over a sequence of wakeups, stopping at the first exit; its own contract only keeps BUFSIZE, and what the loop does is stated by Forwarding.RunConsistent, Forwarding.RunTracked, Forwarding.RunMonotone and Forwarding.RunReceives |
| Forwarding.ForwardedUnchanged | gzip_try/src/main.cpp:404-471 | from the loop's start, in either role and variant: `net2tap` counts the datagrams received and `tap2net` the frames read; each device write carries exactly its datagram's payload, each datagram sent carries exactly the frame read, and none exceeds BUFSIZE |
| Forwarding.StepConsistent | project/src/main.cpp:249-305 | one pass keeps counters and logs consistent |
| Forwarding.RunConsistent | gzip_try/src/main.cpp:384-472 | from any consistent state, the loop keeps counters and logs consistent (by induction over the wakeups) |
| Forwarding.RunMonotone | project/src/main.cpp:253-276 | counters never decrease, and the logs only grow at their ends |
| Forwarding.StepReceives | project/src/main.cpp:249-253 | a pass that keeps running appends the datagrams of its wakeup to the received log, and counts them |
| Forwarding.RunReceives | gzip_try/src/main.cpp:404-418 | while the process runs, the datagrams received are exactly those of the network-ready events, in order, and `net2tap` rises by one per event |
| Forwarding.SendersAppend | gzip_try/src/main.cpp:411-416 | a new datagram adds its sender to the gateable peers exactly when its port is non-zero |
| Forwarding.NetStepTracked | gzip_try/src/main.cpp:404-436 | the network branch preserves peer tracking |
| Forwarding.TapStepTracked | gzip_try/src/main.cpp:439-471 | the interface branch preserves peer tracking |
| Forwarding.StepTracked | project/src/main.cpp:249-305 | a pass preserves peer tracking |
| Forwarding.RunTracked | project/src/main.cpp:228-306 | the loop preserves peer tracking |
| Forwarding.ServerPeerLearning | project/src/main.cpp:219-253 | a server reads and sends nothing before its first datagram. Afterwards its peer is the last sender and its gate that sender's port, and every datagram it sends goes to a sender with a non-zero port; which sender, at each send, is stated by Forwarding.SendGoesToLastSender |
| Forwarding.ClientPeerLearning | gzip_try/src/main.cpp:377-416 | a gzip_try client's gate starts open at PORT and its peer is the configured server. After a datagram arrives, the last sender is the peer. Every datagram sent goes to the server or to a sender; which one, at each send, is stated by Forwarding.SendGoesToLastSender |
| Forwarding.SendGoesToLastSender | gzip_try/src/main.cpp:410-468 | in every state the loop reaches with the gate open, the next frame read from the device is sent to the most recent sender, or before any receive (a client only) to the configured server; the same holds for the project variant (project/src/main.cpp lines 250-302), where only a server runs |
| Forwarding.SilentWithoutDatagrams | gzip_try/src/main.cpp:439 | with the gate closed and no datagram arriving, nothing is read from the device or sent, and `tap2net` stays put |
| Forwarding.ServerSilentUntilDatagram | project/src/main.cpp:226-274 | a server whose socket stays silent never reads the device and never sends |
| Forwarding.NetBeforeTap | gzip_try/src/main.cpp:404-471 | in one pass a datagram is handled first. A non-zero sender port opens the gate, so the same pass's frame goes to that sender. A zero port leaves the frame unread |
| Forwarding.ClosedGateIgnoresDevice | project/src/main.cpp:274 | a readable device with the gate closed changes nothing |
| Forwarding.WaitOutcomes | gzip_try/src/main.cpp:393-402 | EINTR changes nothing; any other `select` failure ends the process with status 1 and nothing else |
| Forwarding.IoFailureExits | gzip_try/src/main.cpp:428-441 | a failed device write ends the process with status 1. A failed device read also ends it with status 1, and sends and counts nothing |
| Forwarding.ClientSendsFirst | gzip_try/src/main.cpp:379-382 | a gzip_try client's first frame read goes to the configured server before anything has been received |
| Forwarding.ServerScenario | project/src/main.cpp:249-302 | a project server that gets 20 bytes from 198.51.100.7:40000 writes them unchanged to the device, then sends its next frame back unchanged to that peer |
| TunnelLoop.Tunnel.constructor | gzip_try/src/main.cpp:377-382 | a fresh BUFSIZE buffer and the loop's initial locals: a zeroed `remote` and a closed gate for a server; the server address and PORT for a client |
| TunnelLoop.Tunnel.NetReady | project/src/main.cpp:249-271 | the network branch moves the state as `NetStep`, leaves the payload at the start of `buffer`, and leaves the rest of `buffer` untouched |
| TunnelLoop.Tunnel.TapReady | gzip_try/src/main.cpp:439-471 | the interface branch moves the state as `TapStep`; with the gate open the frame sits at the start of `buffer`; with it closed `buffer` is untouched |
| TunnelLoop.Tunnel.Iteration | project/src/main.cpp:228-306 | one pass of `while(1)` moves the state as `Step` |
| TunnelLoop.Tunnel.Serve | gzip_try/src/main.cpp:384-472 | the loop over a sequence of wakeups moves the state as `Run` |
| TunnelLoop.Launch | gzip_try/src/main.cpp:275-289 | no tunnel exists exactly when the configuration is refused; otherwise a fresh tunnel starts in the chosen role |

## Left out

- Opening the device (`tun_alloc`), creating, binding and configuring the socket, and the `system()` commands: these are calls into the operating system. The model starts with both descriptors open.
- `select` itself: which descriptors are ready comes in as a `Wakeup`.
- `getopt` parsing: only the checks after it are modelled. The server address text is kept, and the parsed address comes in as a parameter. Likewise `inet_addr`.
- `usage()` only appears as the `Usage` verdict. Its text is not modelled.
- The project variant's configuration check: when positional arguments are left (project/src/main.cpp:184-186) it prints a message and carries on. It is modelled only as a server that always starts.
- Printing: `do_debug`, `my_err`, `cout`, `perror`. `print_ip` and `hexdump` are modelled by the text they produce, not by the writing of it.
- The gzip compression code is inside comments in both variants, so it is not modelled.
- `recvfrom` and `sendto` return values:
  - `recvfrom` never delivers more than BUFSIZE bytes. This is a precondition (`InboundFits`).
  - A failed `recvfrom` is not modelled. The source does not check its return, a known defect: `nread` is a `uint16_t` (gzip_try/src/main.cpp:226, project/src/main.cpp:153), so -1 becomes 65535, and the following `cwrite(tap_fd, buffer, nread)` reads past the BUFSIZE-byte buffer. An `Inbound` cannot represent a failed receive, so the model does not capture this path.
  - The return of `sendto` is ignored, as in the source.
- The `MSG_WAITALL` flag and the different `recvfrom` calls before and after the gate opens: these make no difference to what the model records.
- Forwarding.Run: the infinite `while(1)` is modelled by its finite prefixes, one per sequence of wakeups.
- Forwarding.RunReceives: it speaks only about runs where the process is still running at the end. Runs that end in an exit are covered by Forwarding.RunMonotone and Forwarding.ForwardedUnchanged.
- `net2tap` and `tap2net` are `unsigned long` in the source but `nat` here, so their 64-bit wrap-around is not modelled.
- `read_n` is defined in gzip_try but never called by its `main`. It is modelled on its own.
- Forwarding.Step: `nread` and `nwrite` are `uint16_t` in `main`. The values of `cread` and `cwrite` that reach them are at most BUFSIZE, so they fit, and the model keeps them as `int`.
