/** The error-checking wrappers around read(2) and write(2) (`cread`,
    `cwrite`) and `read_n`, which repeats reads until it has n bytes. A
    system call is represented by what it hands back; a negative return ends
    the process with exit status 1. */
module SysIo {
  import opened Wire

  /** What a wrapped call leads to: a value for the caller, or the end of
      the process with the given exit status. */
  datatype Outcome<T> = Returned(value: T) | Exited(code: int)

  /** What one read(2) hands back: the bytes it delivered (none at end of
      file), or failure (a return of -1). */
  datatype ReadReply = Bytes(data: Frame) | ReadFailed

  /** `cread(fd, buf, n)`: the number of bytes read, or exit(1) when read(2)
      fails. The kernel never delivers more than the n bytes asked for. */
  function CRead(reply: ReadReply, n: int): (r: Outcome<int>)
    requires reply.Bytes? ==> |reply.data| <= n
    ensures r.Returned? <==> reply.Bytes?
    ensures r.Returned? ==> r.value == |reply.data| && 0 <= r.value <= n
    ensures r.Exited? ==> r.code == 1
  {
    match reply
    case Bytes(data) => Returned(|data|)
    case ReadFailed => Exited(1)
  }

  /** `cwrite(fd, buf, n)`: write(2)'s return `ret` when it is non-negative
      (a short count included), exit(1) otherwise. */
  function CWrite(ret: int, n: int): (r: Outcome<int>)
    requires ret <= n
    ensures r.Returned? <==> ret >= 0
    ensures r.Returned? ==> r.value == ret && r.value <= n
    ensures r.Exited? ==> r.code == 1
  {
    if ret < 0 then Exited(1) else Returned(ret)
  }

  /** How the kernel answers one read(2) of `read_n`: hand over at most
      `limit` bytes of what is still available, or fail. */
  datatype ReadLimit = Give(limit: nat) | Refuse

  /** The descriptor's answers may be chunked arbitrarily but a read never
      returns 0 while data remains, so every `Give` is positive. */
  predicate Chunking(limits: seq<ReadLimit>)
  {
    forall k :: 0 <= k < |limits| ==> limits[k] != Give(0)
  }

  function Min(a: int, b: int): int { if a <= b then a else b }

  /** The reply the kernel gives to `read(fd, buf, left)` when `avail` bytes
      remain before end of file. */
  function Reply(lim: ReadLimit, left: int, avail: seq<byte>): (r: ReadReply)
    requires left > 0
    ensures r.Bytes? ==> |r.data| <= left && |r.data| <= |avail| && r.data == avail[..|r.data|]
    ensures r == Bytes([]) <==> lim.Give? && (lim.limit == 0 || |avail| == 0)
  {
    match lim
    case Refuse => ReadFailed
    case Give(k) => Bytes(avail[..Min(k, Min(left, |avail|))])
  }

  /** The loop of `read_n` from a state where `left` bytes are still wanted,
      `pos` bytes of `stream` have been consumed and `call` reads made:
      Returned(true) when it has them all, Returned(false) when a read
      returned 0 (end of file), Exited(1) when a read failed. */
  function ReadLoop(left: int, stream: seq<byte>, pos: nat, limits: seq<ReadLimit>, call: nat): Outcome<bool>
    requires pos <= |stream| && call <= |limits| && left <= |limits| - call
    decreases left
  {
    if left <= 0 then Returned(true)
    else
      var reply := Reply(limits[call], left, stream[pos..]);
      match CRead(reply, left)
      case Exited(code) => Exited(code)
      case Returned(nread) =>
        if nread == 0 then Returned(false)
        else ReadLoop(left - nread, stream, pos + nread, limits, call + 1)
  }

  /** What `read_n(fd, buf, n)` returns on a descriptor holding `stream`
      before end of file. */
  function ReadNResult(n: int, stream: seq<byte>, limits: seq<ReadLimit>): (r: Outcome<int>)
    requires n <= |limits|
    ensures r.Returned? ==> r.value == n || r.value == 0
  {
    match ReadLoop(n, stream, 0, limits, 0)
    case Exited(code) => Exited(code)
    case Returned(complete) => Returned(if complete then n else 0)
  }

  /** `read_n`: reads into `buf` until exactly n bytes have arrived (result n,
      the bytes placed consecutively from the start of `buf`) or a read
      returns 0 (result 0, everything before end of file placed). Nothing
      past the first n cells is touched. */
  method ReadN(buf: array<byte>, n: int, stream: seq<byte>, limits: seq<ReadLimit>)
      returns (r: Outcome<int>)
    requires n <= buf.Length && n <= |limits| && Chunking(limits)
    modifies buf
    ensures r == ReadNResult(n, stream, limits)
    ensures r == Returned(n) && n > 0 ==> |stream| >= n && buf[..n] == stream[..n]
    ensures r == Returned(0) && n > 0 ==> |stream| < n && buf[..|stream|] == stream
    ensures forall i :: 0 <= i < buf.Length && n <= i ==> buf[i] == old(buf[i])
  {
    var left, pos, call := n, 0, 0;
    while left > 0
      invariant 0 <= pos <= |stream| && pos <= buf.Length && 0 <= call <= pos
      invariant left <= |limits| - call
      invariant n > 0 ==> pos + left == n && 0 <= left
      invariant n <= 0 ==> pos == 0 && left == n
      invariant forall i :: 0 <= i < pos ==> buf[i] == stream[i]
      invariant forall i :: pos <= i < buf.Length ==> buf[i] == old(buf[i])
      invariant ReadLoop(left, stream, pos, limits, call) == ReadLoop(n, stream, 0, limits, 0)
      decreases left
    {
      var reply := Reply(limits[call], left, stream[pos..]);
      var nread := CRead(reply, left);
      if nread.Exited? {
        return Exited(nread.code);
      }
      var got := nread.value;
      if got == 0 {
        assert limits[call] != Give(0);
        assert buf[..|stream|] == stream;
        return Returned(0);
      }
      CopyInto(buf, pos, reply.data);
      left, pos, call := left - got, pos + got, call + 1;
    }
    if n > 0 {
      assert buf[..n] == stream[..n];
    }
    return Returned(n);
  }

  /** The kernel's copy of `data` into `buf` at offset `pos`. */
  method CopyInto(buf: array<byte>, pos: nat, data: seq<byte>)
    requires pos + |data| <= buf.Length
    modifies buf
    ensures forall i :: 0 <= i < pos ==> buf[i] == old(buf[i])
    ensures forall i :: 0 <= i < |data| ==> buf[pos + i] == data[i]
    ensures forall i :: pos + |data| <= i < buf.Length ==> buf[i] == old(buf[i])
  {
    forall i | 0 <= i < |data| {
      buf[pos + i] := data[i];
    }
  }

  /** With no failing read among the first n, `read_n` returns n exactly
      when the descriptor holds n bytes before end of file, and 0 otherwise. */
  lemma ReadNWithoutFailure(n: int, stream: seq<byte>, limits: seq<ReadLimit>)
    requires n <= |limits| && Chunking(limits)
    requires forall k :: 0 <= k < |limits| ==> limits[k].Give?
    ensures ReadNResult(n, stream, limits) == Returned(if |stream| >= n then n else 0)
  {
    ReadLoopWithoutFailure(n, stream, 0, limits, 0);
  }

  lemma {:induction false} ReadLoopWithoutFailure(left: int, stream: seq<byte>, pos: nat, limits: seq<ReadLimit>, call: nat)
    requires pos <= |stream| && call <= |limits| && left <= |limits| - call && Chunking(limits)
    requires forall k :: 0 <= k < |limits| ==> limits[k].Give?
    ensures ReadLoop(left, stream, pos, limits, call) == Returned(|stream| - pos >= left)
    decreases left
  {
    if left > 0 {
      var got := |Reply(limits[call], left, stream[pos..]).data|;
      if got > 0 {
        ReadLoopWithoutFailure(left - got, stream, pos + got, limits, call + 1);
      }
    }
  }

  /** `read_n` ends the process only with status 1, and only after a read
      among the first n failed. */
  lemma ReadNExitsOnFailure(n: int, stream: seq<byte>, limits: seq<ReadLimit>)
    requires n <= |limits|
    requires ReadNResult(n, stream, limits).Exited?
    ensures ReadNResult(n, stream, limits).code == 1
    ensures exists k :: 0 <= k < n && limits[k] == Refuse
  {
    ReadLoopExits(n, stream, 0, limits, 0);
  }

  lemma {:induction false} ReadLoopExits(left: int, stream: seq<byte>, pos: nat, limits: seq<ReadLimit>, call: nat)
    requires pos <= |stream| && call <= |limits| && left <= |limits| - call
    requires ReadLoop(left, stream, pos, limits, call).Exited?
    ensures ReadLoop(left, stream, pos, limits, call).code == 1
    ensures exists k :: call <= k < call + left && limits[k] == Refuse
    decreases left
  {
    var reply := Reply(limits[call], left, stream[pos..]);
    if reply.Bytes? {
      ReadLoopExits(left - |reply.data|, stream, pos + |reply.data|, limits, call + 1);
    } else {
      assert limits[call] == Refuse;
    }
  }
}
