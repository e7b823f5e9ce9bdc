/** The forwarding step of `main`'s `while(1)` loop, as a function of the
    session state and of what the readiness wait reported. A network-ready
    event receives one datagram, records its sender as the peer (`remote`)
    and its port as the gate (`port_cl`), counts it and writes the payload to
    the tun/tap device; an interface-ready event, only while the gate is
    non-zero, reads one frame, counts it and sends it to the recorded peer.
    The network branch runs first. The outside world is recorded in four
    logs. */
module Forwarding {
  import opened Wire
  import opened SysIo
  import opened Options

  /** The two variants of the program: gzip_try (client or server) and
      project (server only). They differ in BUFSIZE and PORT. */
  datatype Build = GzipTry | Project

  /** BUFSIZE, the size of `buffer` and the most one read or receive delivers. */
  function BufSize(b: Build): nat
  {
    if b == GzipTry then 2000 else 1500
  }

  /** PORT, the default UDP port and the client's initial gate value. */
  function Port(b: Build): uint16
  {
    if b == GzipTry then 55555 else 5555
  }

  datatype Status = Running | Terminated(code: int)

  /** The loop's locals and the outside world as seen through the two
      descriptors: `received` holds what recvfrom delivered (payload and
      sender), `tapWrites` the frames passed to write(2) on the tun/tap
      device, `tapReads` the frames read(2) delivered from it, `sent` the
      datagrams passed to sendto (payload and destination). */
  datatype Session = Session(
    bufSize: nat,
    remote: SockAddr,
    portCl: int,
    net2tap: nat,
    tap2net: nat,
    status: Status,
    received: seq<Datagram>,
    tapWrites: seq<Frame>,
    tapReads: seq<Frame>,
    sent: seq<Datagram>)

  /** A datagram recvfrom delivers, with its sender, and what the following
      write(2) of it to the tun/tap device returns. */
  datatype Inbound = Inbound(payload: Frame, sender: SockAddr, tapWrite: int)

  /** recvfrom never delivers more than BUFSIZE bytes, and write(2) never
      reports more bytes written than it was given. */
  predicate InboundFits(d: Inbound, bufSize: nat)
  {
    |d.payload| <= bufSize && d.tapWrite <= |d.payload|
  }

  predicate ReplyFits(r: ReadReply, bufSize: nat)
  {
    r.Bytes? ==> |r.data| <= bufSize
  }

  /** What one call of select reports: interrupted by a signal (EINTR),
      failed otherwise, or which descriptors are readable, together with
      what reading them yields. */
  datatype Wakeup =
    | Interrupted
    | WaitFailed
    | Ready(net: Option<Inbound>, tap: Option<ReadReply>)

  predicate WakeupFits(w: Wakeup, bufSize: nat)
  {
    w.Ready? ==>
      (w.net.Some? ==> InboundFits(w.net.value, bufSize)) &&
      (w.tap.Some? ==> ReplyFits(w.tap.value, bufSize))
  }

  predicate AllFit(ws: seq<Wakeup>, bufSize: nat)
  {
    forall k :: 0 <= k < |ws| ==> WakeupFits(ws[k], bufSize)
  }

  /** The state on entry to the loop. A server's `remote` is zeroed and its
      gate closed; a client's `remote` is the server's address and its gate
      is preset to PORT. The project variant runs only as a server. */
  function Initial(b: Build, role: Role, server: SockAddr): (s: Session)
    requires b == Project ==> role == Server
    ensures s.status == Running && s.bufSize == BufSize(b)
    ensures s.portCl != 0 <==> role == Client
    ensures role == Client ==> s.remote == server
    ensures s.net2tap == 0 && s.tap2net == 0
    ensures s.received == [] && s.tapWrites == [] && s.tapReads == [] && s.sent == []
  {
    Session(BufSize(b),
            if role == Client then server else SockAddr(0, 0),
            if role == Client then Port(b) as int else 0,
            0, 0, Running, [], [], [], [])
  }

  /** The network branch: recvfrom fills the buffer and `remote`, `port_cl`
      takes the sender's port, `net2tap` is counted, and the payload is
      written to the tun/tap device by `cwrite`, whose failure ends the
      process. */
  function NetStep(s: Session, d: Inbound): (t: Session)
    requires s.status == Running && InboundFits(d, s.bufSize)
    ensures t.remote == d.sender && t.portCl == d.sender.port as int
    ensures t.received == s.received + [Datagram(d.payload, d.sender)] && t.tapWrites == s.tapWrites + [d.payload]
    ensures t.status == Running <==> d.tapWrite >= 0
    ensures t.status != Running ==> t.status == Terminated(1)
    ensures t.bufSize == s.bufSize && t.tap2net == s.tap2net && t.tapReads == s.tapReads && t.sent == s.sent
  {
    var t := s.(remote := d.sender,
                portCl := d.sender.port as int,
                net2tap := s.net2tap + 1,
                received := s.received + [Datagram(d.payload, d.sender)],
                tapWrites := s.tapWrites + [d.payload]);
    match CWrite(d.tapWrite, |d.payload|)
    case Returned(_) => t
    case Exited(code) => t.(status := Terminated(code))
  }

  /** The interface branch, when the device is readable: only while
      `port_cl != 0`, `cread` takes one frame into the buffer (its failure
      ends the process), `tap2net` is counted and the frame is sent to
      `remote`. */
  function TapStep(s: Session, r: ReadReply): (t: Session)
    requires s.status == Running && ReplyFits(r, s.bufSize)
    ensures s.portCl == 0 ==> t == s
    ensures s.portCl != 0 && r.Bytes? ==>
      t.sent == s.sent + [Datagram(r.data, s.remote)] && t.tapReads == s.tapReads + [r.data] && t.tap2net == s.tap2net + 1
    ensures t.status == Running <==> s.portCl == 0 || r.Bytes?
    ensures t.status != Running ==> t.status == Terminated(1) && t.sent == s.sent && t.tap2net == s.tap2net
    ensures t.bufSize == s.bufSize && t.remote == s.remote && t.portCl == s.portCl
    ensures t.net2tap == s.net2tap && t.received == s.received && t.tapWrites == s.tapWrites
  {
    if s.portCl == 0 then s
    else
      match CRead(r, s.bufSize)
      case Exited(code) => s.(status := Terminated(code))
      case Returned(_) =>
        s.(tap2net := s.tap2net + 1,
           tapReads := s.tapReads + [r.data],
           sent := s.sent + [Datagram(r.data, s.remote)])
  }

  /** One pass of the loop: EINTR restarts it with nothing changed, any other
      select failure ends the process, otherwise the network branch runs
      before the interface branch. */
  function Step(s: Session, w: Wakeup): (t: Session)
    requires s.status == Running && WakeupFits(w, s.bufSize)
    ensures t.bufSize == s.bufSize
  {
    match w
    case Interrupted => s
    case WaitFailed => s.(status := Terminated(1))
    case Ready(net, tap) =>
      var s1 := if net.Some? then NetStep(s, net.value) else s;
      if s1.status == Running && tap.Some? then TapStep(s1, tap.value) else s1
  }

  /** The loop over successive wakeups, until they run out or the process
      has exited. */
  function Run(s: Session, ws: seq<Wakeup>): (t: Session)
    requires AllFit(ws, s.bufSize)
    ensures t.bufSize == s.bufSize
    decreases |ws|
  {
    if ws == [] || s.status != Running then s
    else Run(Step(s, ws[0]), ws[1..])
  }

  /** The datagram a wakeup delivers, if it reports the socket readable. */
  function InboundOf(w: Wakeup): seq<Datagram>
  {
    if w.Ready? && w.net.Some? then [Datagram(w.net.value.payload, w.net.value.sender)] else []
  }

  /** The datagrams of the network-ready events among `ws`, in order. */
  function Inbounds(ws: seq<Wakeup>): seq<Datagram>
  {
    if ws == [] then [] else InboundOf(ws[0]) + Inbounds(ws[1..])
  }

  // ---------------------------------------------------------------------
  // Counters and payload identity

  /** What the counters and logs agree on: `net2tap` counts the datagrams
      received and each was written to the device unchanged; `tap2net`
      counts the frames read from the device and each was sent unchanged;
      nothing exceeds BUFSIZE. */
  ghost predicate Consistent(s: Session)
  {
    && s.net2tap == |s.received| == |s.tapWrites|
    && (forall k :: 0 <= k < |s.received| ==>
          s.tapWrites[k] == s.received[k].payload && |s.tapWrites[k]| <= s.bufSize)
    && s.tap2net == |s.tapReads| == |s.sent|
    && (forall k :: 0 <= k < |s.sent| ==>
          s.sent[k].payload == s.tapReads[k] && |s.tapReads[k]| <= s.bufSize)
  }

  lemma StepConsistent(s: Session, w: Wakeup)
    requires s.status == Running && WakeupFits(w, s.bufSize) && Consistent(s)
    ensures Consistent(Step(s, w))
  {
    if w.Ready? {
      var s1 := if w.net.Some? then NetStep(s, w.net.value) else s;
      assert Consistent(s1);
    }
  }

  lemma {:induction false} RunConsistent(s: Session, ws: seq<Wakeup>)
    requires AllFit(ws, s.bufSize) && Consistent(s)
    ensures Consistent(Run(s, ws))
    decreases |ws|
  {
    if ws != [] && s.status == Running {
      StepConsistent(s, ws[0]);
      RunConsistent(Step(s, ws[0]), ws[1..]);
    }
  }

  /** From the start of the loop, in either role and variant: the counters
      count exactly the frames forwarded in each direction, every frame
      written to the device is the payload of the datagram received with
      it, every datagram sent carries exactly the frame read, and none
      exceeds BUFSIZE. */
  lemma ForwardedUnchanged(b: Build, role: Role, server: SockAddr, ws: seq<Wakeup>)
    requires b == Project ==> role == Server
    requires AllFit(ws, BufSize(b))
    ensures var t := Run(Initial(b, role, server), ws);
      && t.net2tap == |t.received| == |t.tapWrites| && t.tap2net == |t.tapReads| == |t.sent|
      && (forall k :: 0 <= k < |t.received| ==> t.tapWrites[k] == t.received[k].payload && |t.tapWrites[k]| <= BufSize(b))
      && (forall k :: 0 <= k < |t.sent| ==> t.sent[k].payload == t.tapReads[k] && |t.tapReads[k]| <= BufSize(b))
  {
    RunConsistent(Initial(b, role, server), ws);
  }

  /** Nothing is ever taken back: the counters never decrease and every log
      only grows at its end. */
  lemma {:induction false} RunMonotone(s: Session, ws: seq<Wakeup>)
    requires AllFit(ws, s.bufSize)
    ensures var t := Run(s, ws);
      && t.net2tap >= s.net2tap && t.tap2net >= s.tap2net
      && s.received <= t.received && s.tapWrites <= t.tapWrites
      && s.tapReads <= t.tapReads && s.sent <= t.sent
    decreases |ws|
  {
    if ws != [] && s.status == Running {
      RunMonotone(Step(s, ws[0]), ws[1..]);
    }
  }

  lemma StepReceives(s: Session, w: Wakeup)
    requires s.status == Running && WakeupFits(w, s.bufSize)
    requires Step(s, w).status == Running
    ensures Step(s, w).received == s.received + InboundOf(w)
    ensures Step(s, w).net2tap == s.net2tap + |InboundOf(w)|
  {
  }

  /** While the process keeps running, `net2tap` rises by exactly one per
      network-ready event and the datagrams received are exactly those of
      the events, in order. */
  lemma {:induction false} RunReceives(s: Session, ws: seq<Wakeup>)
    requires AllFit(ws, s.bufSize) && s.status == Running
    requires Run(s, ws).status == Running
    ensures Run(s, ws).received == s.received + Inbounds(ws)
    ensures Run(s, ws).net2tap == s.net2tap + |Inbounds(ws)|
    decreases |ws|
  {
    if ws != [] {
      var s1 := Step(s, ws[0]);
      assert Run(s, ws) == Run(s1, ws[1..]);
      assert Inbounds(ws) == InboundOf(ws[0]) + Inbounds(ws[1..]);
      if s1.status == Running {
        StepReceives(s, ws[0]);
        RunReceives(s1, ws[1..]);
        assert s1.received + Inbounds(ws[1..]) == s.received + (InboundOf(ws[0]) + Inbounds(ws[1..]));
      }
    }
  }

  // ---------------------------------------------------------------------
  // Peer learning and gating

  /** The peers a gated send can be addressed to: senders with a non-zero
      port, in the order received. */
  function Senders(rs: seq<Datagram>): set<SockAddr>
  {
    if rs == [] then {}
    else Senders(rs[..|rs| - 1]) + (if rs[|rs| - 1].peer.port != 0 then {rs[|rs| - 1].peer} else {})
  }

  lemma SendersAppend(rs: seq<Datagram>, d: Datagram)
    ensures Senders(rs + [d]) == Senders(rs) + (if d.peer.port != 0 then {d.peer} else {})
  {
    assert (rs + [d])[..|rs|] == rs;
  }

  /** The peer and gate are the initial ones until a datagram arrives and
      the last sender's afterwards; every datagram sent went to the initial
      peer while its gate was open, or to a sender with a non-zero port. */
  ghost predicate PeerTracked(s: Session, seed: SockAddr, gate0: int)
  {
    && (|s.received| == 0 ==> s.remote == seed && s.portCl == gate0)
    && (|s.received| == 0 && gate0 == 0 ==> s.sent == [] && s.tapReads == [] && s.tap2net == 0)
    && (|s.received| > 0 ==>
          s.remote == s.received[|s.received| - 1].peer && s.portCl == s.remote.port as int)
    && (forall k :: 0 <= k < |s.sent| ==>
          s.sent[k].peer in Senders(s.received) || (gate0 != 0 && s.sent[k].peer == seed))
  }

  lemma NetStepTracked(s: Session, d: Inbound, seed: SockAddr, gate0: int)
    requires s.status == Running && InboundFits(d, s.bufSize) && PeerTracked(s, seed, gate0)
    ensures PeerTracked(NetStep(s, d), seed, gate0)
  {
    SendersAppend(s.received, Datagram(d.payload, d.sender));
  }

  lemma TapStepTracked(s: Session, r: ReadReply, seed: SockAddr, gate0: int)
    requires s.status == Running && ReplyFits(r, s.bufSize) && PeerTracked(s, seed, gate0)
    ensures PeerTracked(TapStep(s, r), seed, gate0)
  {
    if s.portCl != 0 && r.Bytes? && |s.received| > 0 {
      var rs := s.received;
      assert rs == rs[..|rs| - 1] + [rs[|rs| - 1]];
      SendersAppend(rs[..|rs| - 1], rs[|rs| - 1]);
    }
  }

  lemma StepTracked(s: Session, w: Wakeup, seed: SockAddr, gate0: int)
    requires s.status == Running && WakeupFits(w, s.bufSize) && PeerTracked(s, seed, gate0)
    ensures PeerTracked(Step(s, w), seed, gate0)
  {
    if w.Ready? {
      var s1 := if w.net.Some? then NetStep(s, w.net.value) else s;
      if w.net.Some? {
        NetStepTracked(s, w.net.value, seed, gate0);
      }
      if s1.status == Running && w.tap.Some? {
        TapStepTracked(s1, w.tap.value, seed, gate0);
      }
    }
  }

  lemma {:induction false} RunTracked(s: Session, ws: seq<Wakeup>, seed: SockAddr, gate0: int)
    requires AllFit(ws, s.bufSize) && PeerTracked(s, seed, gate0)
    ensures PeerTracked(Run(s, ws), seed, gate0)
    decreases |ws|
  {
    if ws != [] && s.status == Running {
      StepTracked(s, ws[0], seed, gate0);
      RunTracked(Step(s, ws[0]), ws[1..], seed, gate0);
    }
  }

  /** A server (either variant) reads and sends nothing until a datagram has
      arrived; afterwards its peer is the last sender (last writer wins, so a
      new source takes over the session) and its gate that sender's port
      (a port of 0 closes it again); and it only ever sends to senders. */
  lemma ServerPeerLearning(b: Build, ws: seq<Wakeup>)
    requires AllFit(ws, BufSize(b))
    ensures var t := Run(Initial(b, Server, SockAddr(0, 0)), ws);
      && (|t.received| == 0 ==> t.portCl == 0 && t.sent == [] && t.tapReads == [] && t.tap2net == 0)
      && (|t.received| > 0 ==>
            t.remote == t.received[|t.received| - 1].peer && t.portCl == t.remote.port as int)
      && (forall k :: 0 <= k < |t.sent| ==> t.sent[k].peer in Senders(t.received))
  {
    RunTracked(Initial(b, Server, SockAddr(0, 0)), ws, SockAddr(0, 0), 0);
  }

  /** A gzip_try client's gate is open from the start, so it sends to the
      configured server until a datagram names another peer; afterwards,
      as for the server, the last sender is the peer. */
  lemma ClientPeerLearning(server: SockAddr, ws: seq<Wakeup>)
    requires AllFit(ws, BufSize(GzipTry))
    ensures var t := Run(Initial(GzipTry, Client, server), ws);
      && (|t.received| == 0 ==> t.remote == server && t.portCl == Port(GzipTry) as int && t.portCl != 0)
      && (|t.received| > 0 ==>
            t.remote == t.received[|t.received| - 1].peer && t.portCl == t.remote.port as int)
      && (forall k :: 0 <= k < |t.sent| ==> t.sent[k].peer in Senders(t.received) || t.sent[k].peer == server)
  {
    RunTracked(Initial(GzipTry, Client, server), ws, server, Port(GzipTry) as int);
  }

  /** In any state the loop reaches with its gate open, the next frame read
      from the device is sent to the most recent sender, or, before anything
      has been received, to the configured server (only a client's gate is
      open then). */
  lemma SendGoesToLastSender(b: Build, role: Role, server: SockAddr, ws: seq<Wakeup>, f: Frame)
    requires b == Project ==> role == Server
    requires AllFit(ws, BufSize(b)) && |f| <= BufSize(b)
    requires var s := Run(Initial(b, role, server), ws); s.status == Running && s.portCl != 0
    ensures var s := Run(Initial(b, role, server), ws);
      var peer := if |s.received| > 0 then s.received[|s.received| - 1].peer else server;
      && (|s.received| == 0 ==> role == Client)
      && Step(s, Ready(None, Some(Bytes(f)))).sent == s.sent + [Datagram(f, peer)]
  {
    var s0 := Initial(b, role, server);
    RunTracked(s0, ws, s0.remote, s0.portCl);
  }

  /** With the gate closed and no datagram arriving, no frame is read from
      the device, nothing is sent and `tap2net` stays where it is. */
  lemma {:induction false} SilentWithoutDatagrams(s: Session, ws: seq<Wakeup>)
    requires AllFit(ws, s.bufSize) && s.portCl == 0
    requires forall k :: 0 <= k < |ws| ==> !(ws[k].Ready? && ws[k].net.Some?)
    ensures var t := Run(s, ws);
      t.portCl == 0 && t.sent == s.sent && t.tapReads == s.tapReads && t.tap2net == s.tap2net
    decreases |ws|
  {
    if ws != [] && s.status == Running {
      SilentWithoutDatagrams(Step(s, ws[0]), ws[1..]);
    }
  }

  /** A server whose socket stays silent never reads the device and never
      sends. */
  lemma ServerSilentUntilDatagram(b: Build, ws: seq<Wakeup>)
    requires AllFit(ws, BufSize(b))
    requires forall k :: 0 <= k < |ws| ==> !(ws[k].Ready? && ws[k].net.Some?)
    ensures var t := Run(Initial(b, Server, SockAddr(0, 0)), ws);
      t.sent == [] && t.tapReads == [] && t.tap2net == 0
  {
    SilentWithoutDatagrams(Initial(b, Server, SockAddr(0, 0)), ws);
  }

  // ---------------------------------------------------------------------
  // One pass of the loop

  /** The network branch runs first: a datagram from a non-zero port opens
      the gate for the same pass, whose frame then goes to that sender. A
      sender port of 0 leaves the gate closed and the frame unread. */
  lemma NetBeforeTap(s: Session, d: Inbound, f: Frame)
    requires s.status == Running && InboundFits(d, s.bufSize) && |f| <= s.bufSize && d.tapWrite >= 0
    ensures var t := Step(s, Ready(Some(d), Some(Bytes(f))));
      && t.tapWrites == s.tapWrites + [d.payload]
      && t.remote == d.sender
      && (d.sender.port != 0 ==> t.sent == s.sent + [Datagram(f, d.sender)] && t.tap2net == s.tap2net + 1)
      && (d.sender.port == 0 ==> t.sent == s.sent && t.tapReads == s.tapReads && t.tap2net == s.tap2net)
  {
  }

  /** Interface-ready with the gate closed reads nothing and changes
      nothing. */
  lemma ClosedGateIgnoresDevice(s: Session, r: ReadReply)
    requires s.status == Running && ReplyFits(r, s.bufSize) && s.portCl == 0
    ensures Step(s, Ready(None, Some(r))) == s
  {
  }

  /** EINTR changes nothing; any other failure of select ends the process
      with status 1 and changes nothing else. */
  lemma WaitOutcomes(s: Session)
    requires s.status == Running
    ensures Step(s, Interrupted) == s
    ensures Step(s, WaitFailed) == s.(status := Terminated(1))
  {
  }

  /** A failing read of the device or write to it ends the process with
      status 1; a failing read sends nothing and counts nothing. */
  lemma IoFailureExits(s: Session, d: Inbound, r: ReadReply)
    requires s.status == Running && InboundFits(d, s.bufSize) && ReplyFits(r, s.bufSize)
    ensures d.tapWrite < 0 ==> Step(s, Ready(Some(d), Some(r))).status == Terminated(1)
    ensures s.portCl != 0 && r == ReadFailed ==>
      Step(s, Ready(None, Some(r))) == s.(status := Terminated(1))
  {
  }

  /** A gzip_try client may send before it has heard from anyone: the first
      frame read goes to the configured server. */
  lemma ClientSendsFirst(server: SockAddr, f: Frame)
    requires |f| <= BufSize(GzipTry)
    ensures Step(Initial(GzipTry, Client, server), Ready(None, Some(Bytes(f)))).sent == [Datagram(f, server)]
  {
  }

  /** A server of the project variant: the peer 198.51.100.7:40000 sends 20
      bytes, which reach the device unchanged; the next frame read from the
      device goes back to that peer unchanged. */
  lemma ServerScenario(d1: Frame, f1: Frame)
    requires |d1| == 20 && |f1| <= 1500
    ensures var peer := SockAddr(198 * 0x100_0000 + 51 * 0x1_0000 + 100 * 0x100 + 7, 40000);
      var t := Run(Initial(Project, Server, SockAddr(0, 0)),
                   [Ready(Some(Inbound(d1, peer, 20)), None), Ready(None, Some(Bytes(f1)))]);
      t.tapWrites == [d1] && t.remote == peer && t.sent == [Datagram(f1, peer)] && t.net2tap == 1 && t.tap2net == 1
  {
    var peer := SockAddr(198 * 0x100_0000 + 51 * 0x1_0000 + 100 * 0x100 + 7, 40000);
    var ws := [Ready(Some(Inbound(d1, peer, 20)), None), Ready(None, Some(Bytes(f1)))];
    var s0 := Initial(Project, Server, SockAddr(0, 0));
    var s1 := Step(s0, ws[0]);
    assert s1.remote == peer && s1.portCl == 40000 && s1.status == Running;
    var s2 := Step(s1, ws[1]);
    assert ws[1..][1..] == [];
    assert Run(s0, ws) == Run(s1, ws[1..]) == Run(s2, []) == s2;
  }
}
