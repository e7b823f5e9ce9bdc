/** The loop of `main` as an object: the locals it updates in place
    become fields, the frame buffer is an array of BUFSIZE bytes, and the
    outside world is kept in ghost logs. Each method is proved to move the
    state exactly as the step functions of module Forwarding say. */
module TunnelLoop {
  import opened Wire
  import opened SysIo
  import opened Options
  import opened Forwarding

  class Tunnel {
    const bufSize: nat
    /** `char buffer[BUFSIZE]`, shared by both directions. */
    const buffer: array<byte>
    var remote: SockAddr
    var portCl: int
    var net2tap: nat
    var tap2net: nat
    var status: Status
    ghost var received: seq<Datagram>
    ghost var tapWrites: seq<Frame>
    ghost var tapReads: seq<Frame>
    ghost var sent: seq<Datagram>

    ghost predicate Valid()
      reads this
    {
      buffer.Length == bufSize
    }

    /** The abstract state the step functions speak about. */
    ghost function State(): Session
      reads this
    {
      Session(bufSize, remote, portCl, net2tap, tap2net, status, received, tapWrites, tapReads, sent)
    }

    /** The locals on entry to the loop; `server` is the address a client
        was given, a server zeroes `remote`. */
    constructor (b: Build, role: Role, server: SockAddr)
      requires b == Project ==> role == Server
      ensures Valid() && fresh(buffer)
      ensures State() == Initial(b, role, server)
    {
      bufSize := BufSize(b);
      buffer := new byte[BufSize(b)];
      remote := if role == Client then server else SockAddr(0, 0);
      portCl := if role == Client then Port(b) as int else 0;
      net2tap, tap2net := 0, 0;
      status := Running;
      received, tapWrites, tapReads, sent := [], [], [], [];
    }

    /** The network branch: recvfrom places the datagram in `buffer` and its
        sender in `remote`; the gate takes the sender's port; the payload is
        written to the device. */
    method NetReady(d: Inbound)
      requires Valid() && status == Running && InboundFits(d, bufSize)
      modifies this, buffer
      ensures Valid()
      ensures State() == NetStep(old(State()), d)
      ensures buffer[..|d.payload|] == d.payload
      ensures buffer[|d.payload|..] == old(buffer[|d.payload|..])
    {
      forall i | 0 <= i < |d.payload| {
        buffer[i] := d.payload[i];
      }
      var nread := |d.payload|;
      assert buffer[..nread] == d.payload;
      remote := d.sender;
      received := received + [Datagram(buffer[..nread], remote)];
      portCl := remote.port as int;
      net2tap := net2tap + 1;
      tapWrites := tapWrites + [buffer[..nread]];
      var nwrite := CWrite(d.tapWrite, nread);
      if nwrite.Exited? {
        status := Terminated(nwrite.code);
      }
    }

    /** The interface branch: while the gate is open, cread places one frame
        in `buffer`, which is counted and sent to `remote`. */
    method TapReady(r: ReadReply)
      requires Valid() && status == Running && ReplyFits(r, bufSize)
      modifies this, buffer
      ensures Valid()
      ensures State() == TapStep(old(State()), r)
      ensures old(portCl) != 0 && r.Bytes? ==> buffer[..|r.data|] == r.data
      ensures old(portCl) != 0 && r.Bytes? ==> buffer[|r.data|..] == old(buffer[|r.data|..])
      ensures old(portCl) == 0 || r.ReadFailed? ==> buffer[..] == old(buffer[..])
    {
      if portCl != 0 {
        var nread := CRead(r, bufSize);
        if nread.Exited? {
          status := Terminated(nread.code);
          return;
        }
        forall i | 0 <= i < nread.value {
          buffer[i] := r.data[i];
        }
        assert buffer[..nread.value] == r.data;
        tap2net := tap2net + 1;
        tapReads := tapReads + [buffer[..nread.value]];
        sent := sent + [Datagram(buffer[..nread.value], remote)];
      }
    }

    /** One pass of `while(1)`: what select reported decides which branches
        run, the network one first. */
    method Iteration(w: Wakeup)
      requires Valid() && status == Running && WakeupFits(w, bufSize)
      modifies this, buffer
      ensures Valid()
      ensures State() == Step(old(State()), w)
    {
      match w
      case Interrupted =>
      case WaitFailed =>
        status := Terminated(1);
      case Ready(net, tap) =>
        if net.Some? {
          NetReady(net.value);
        }
        if status == Running && tap.Some? {
          TapReady(tap.value);
        }
    }

    /** `while(1)` over the wakeups `ws`, until they run out or the process
        exits. */
    method Serve(ws: seq<Wakeup>)
      requires Valid() && AllFit(ws, bufSize)
      modifies this, buffer
      ensures Valid()
      ensures State() == Run(old(State()), ws)
    {
      var i := 0;
      while i < |ws| && status == Running
        invariant 0 <= i <= |ws|
        invariant Valid()
        invariant Run(old(State()), ws) == Run(State(), ws[i..])
        decreases |ws| - i
      {
        assert ws[i..][1..] == ws[i + 1..];
        Iteration(ws[i]);
        i := i + 1;
      }
    }
  }

  /** `main` of gzip_try up to the loop: a refused configuration ends in
      `usage()`; otherwise the session starts in the chosen role, `server`
      being the address a client was given. */
  method Launch(extra: int, ifName: string, cliserv: int, remoteIp: string, server: SockAddr)
      returns (t: Tunnel?)
    ensures t == null <==> CheckConfig(extra, ifName, cliserv, remoteIp).Usage?
    ensures t != null ==>
      fresh(t) && fresh(t.buffer) && t.Valid() &&
      t.State() == Initial(GzipTry, CheckConfig(extra, ifName, cliserv, remoteIp).role, server)
  {
    var v := CheckConfig(extra, ifName, cliserv, remoteIp);
    if v.Usage? {
      return null;
    }
    t := new Tunnel(GzipTry, v.role, server);
  }
}
