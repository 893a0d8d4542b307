/**
 The link1 transport: framing, checksum and segmentation, and the transfer from the device
 (slave) to the host (master) over a byte stream that may be read in any chunks.
 */
module Link1 {
  import opened Common

  const DATA_SIZE: nat := 60
  const HEADER_SIZE: nat := 3
  const START: bv8 := 16

  datatype Error = Ok | PhyError | ProtError | Timeout

  // ---- packets ----

  /** The exclusive or of the size and the data. */
  function Checksum(data: seq<bv8>): bv8
    requires |data| < 256
  {
    XorAll(data, |data| as bv8)
  }

  function XorAll(data: seq<bv8>, seed: bv8): bv8
  {
    if data == [] then seed else XorAll(data[..|data| - 1], seed) ^ data[|data| - 1]
  }

  lemma XorAllSnoc(data: seq<bv8>, i: nat, seed: bv8)
    requires i < |data|
    ensures XorAll(data[..i + 1], seed) == XorAll(data[..i], seed) ^ data[i]
  {
    assert data[..i + 1][..i] == data[..i];
  }

  function Encode(data: seq<bv8>): (p: seq<bv8>)
    requires |data| <= DATA_SIZE
    ensures |p| == |data| + HEADER_SIZE
  {
    [START, |data| as bv8] + data + [Checksum(data)]
  }

  /** A packet is a start byte, the size, the data, and the exclusive or of size and data. */
  lemma EncodeFormat(data: seq<bv8>)
    requires |data| <= DATA_SIZE
    ensures var p := Encode(data);
      && |p| == |data| + 3 && p[0] == 16 && p[1] == |data| as bv8 && p[2..|data| + 2] == data
      && p[|data| + 2] == XorAll(data, p[1])
  {}

  /** `link1_transport_insert_checksum` */
  method InsertChecksum(data: seq<bv8>) returns (checksum: bv8)
    requires |data| < 256
    ensures checksum == Checksum(data)
  {
    var size: bv8 := |data| as bv8;
    checksum := 0;
    checksum := checksum ^ size;
    var i := 0;
    while i < |data|
      invariant 0 <= i <= |data| && checksum == XorAll(data[..i], size)
    {
      XorAllSnoc(data, i, size);
      checksum := checksum ^ data[i];
      i := i + 1;
    }
    assert data[..i] == data;
  }

  // ---- the byte stream ----

  /**
   Bytes on their way to a reader, in order. A read gets any positive number of those asked for that are
   there, or, `stalls` times in all, none; with nothing left to wait for it fails.
   */
  class Phy {
    var input: seq<bv8>
    var stalls: nat

    method Read(n: nat) returns (count: int, data: seq<bv8>)
      requires n > 0
      modifies this
      ensures -1 <= count <= n && |data| == (if count < 0 then 0 else count)
      ensures old(input) == data + input && stalls <= old(stalls)
      ensures count == 0 ==> stalls < old(stalls)
      ensures count < 0 ==> old(input) == [] && stalls == old(stalls) == 0
      ensures count > 0 ==> stalls == old(stalls)
    {
      var choice :| 0 <= choice <= n;
      if stalls > 0 && (choice == 0 || |input| == 0) {
        stalls := stalls - 1;
        return 0, [];
      }
      if |input| == 0 {
        return -1, [];
      }
      count := Min(if choice == 0 then 1 else choice, Min(n, |input|));
      data := input[..count];
      input := input[count..];
    }

    method Flush()
      modifies `input
      ensures input == []
    {
      input := [];
    }
  }

  /** Milliseconds waited in all. */
  function Total(waits: seq<nat>): nat
  {
    if waits == [] then 0 else Total(waits[..|waits| - 1]) + waits[|waits| - 1]
  }

  /** `link1_transport_wait_start`; `waits` are the times of the reads that brought nothing. */
  method WaitStart(phy: Phy, timeout: int) returns (err: Error, ghost waits: seq<nat>)
    modifies phy
    ensures err.Timeout? <==> waits != [] && Total(waits) + |waits| == timeout
    ensures |waits| + phy.stalls <= old(phy.stalls)
    ensures phy.stalls <= old(phy.stalls)
    ensures err.Ok? ==> old(phy.input) == [START] + phy.input
    ensures old(phy.input) != [] && old(phy.input)[0] == START ==>
      err.Ok? || (err.Timeout? && phy.input == old(phy.input))
    ensures old(phy.input) != [] && old(phy.input)[0] != START ==> err.ProtError? || err.Timeout?
    ensures old(phy.input) == [] ==> err.PhyError? || err.Timeout?
    ensures err.Timeout? ==> old(phy.stalls) > 0
  {
    var count := 0;
    waits := [];
    while true
      invariant phy.stalls <= old(phy.stalls) && phy.input == old(phy.input)
      invariant count == Total(waits) + |waits| && |waits| + phy.stalls <= old(phy.stalls)
      invariant waits != [] ==> count != timeout
      decreases phy.stalls
    {
      var elapsed: nat :| true;
      var n, data := phy.Read(1);
      if n < 0 {
        return PhyError, waits;
      }
      if n > 0 {
        if data[0] != START {
          return ProtError, waits;
        }
        return Ok, waits;
      }
      count := count + elapsed + 1;
      waits := waits + [elapsed];
      if count == timeout {
        return Timeout, waits;
      }
    }
  }

  /** The size byte of what has been read of a packet after its start byte. */
  function SizeOf(got: seq<bv8>): nat
  {
    if got == [] then 0 else got[0] as nat
  }

  /** Once the first byte is there, the size stays. */
  lemma SizeKept(got: seq<bv8>, data: seq<bv8>)
    requires data != []
    ensures SizeOf(got + data) == if got == [] then SizeOf(data) else SizeOf(got)
  {
    assert (got + data)[0] == if got == [] then data[0] else got[0];
  }

  /**
   `link1_transport_wait_packet`: size byte, data and checksum, in whatever chunks they come; `waits` are the times of
   the reads that brought nothing since the last byte.
   */
  method WaitPacket(phy: Phy, timeout: int) returns (err: Error, got: seq<bv8>, ghost waits: seq<nat>)
    modifies phy
    ensures err.Timeout? <==> waits != [] && Total(waits) == timeout
    ensures phy.stalls <= old(phy.stalls) && old(phy.input) == got + phy.input
    ensures err.Ok? ==> got != [] && SizeOf(got) <= DATA_SIZE && |got| == SizeOf(got) + 2
    ensures err.ProtError? ==> SizeOf(got) > DATA_SIZE
    ensures err.PhyError? ==> phy.input == []
    ensures err.Timeout? ==> old(phy.stalls) > 0
    ensures err.PhyError? || err.Timeout? ==> |got| < SizeOf(got) + 2
  {
    got, waits := [], [];
    var count, size := 0, 0;
    while true
      invariant phy.stalls <= old(phy.stalls) && old(phy.input) == got + phy.input
      invariant count == Total(waits) && (waits != [] ==> count != timeout)
      invariant size == SizeOf(got) <= DATA_SIZE && |got| < size + 2
      decreases phy.stalls + |phy.input|
    {
      var elapsed: nat :| true;
      var pageSize := if |got| == 0 then 1 else size - |got| + HEADER_SIZE - 1;
      var n, data := phy.Read(pageSize);
      if n < 0 {
        return PhyError, got, waits;
      }
      if n > 0 {
        SizeKept(got, data);
        if |got| == 0 {
          size := SizeOf(data);
        }
        got := got + data;
        if size > DATA_SIZE {
          return ProtError, got, [];
        }
        count, waits := 0, [];
        if |got| >= size + HEADER_SIZE - 1 {
          return Ok, got, waits;
        }
      } else {
        count := count + elapsed;
        waits := waits + [elapsed];
        if count == timeout {
          return Timeout, got, waits;
        }
      }
    }
  }

  /** A size byte, that many data bytes, no more than a packet has, and their checksum. */
  predicate Good(got: seq<bv8>)
  {
    got != [] && |got| == SizeOf(got) + 2 <= DATA_SIZE + 2 && got[|got| - 1] == Checksum(got[1..|got| - 1])
  }

  /** `link1_transport_checksum_isok` on a size byte, that many data bytes and a checksum. */
  method ChecksumIsOk(got: seq<bv8>) returns (ok: bool)
    requires got != [] && |got| == SizeOf(got) + 2
    ensures ok <==> Good(got)
  {
    if SizeOf(got) > DATA_SIZE {
      return false;
    }
    var checksum := InsertChecksum(got[1..|got| - 1]);
    return checksum == got[|got| - 1];
  }

  // ---- one packet ----

  /** What follows the start byte of a packet. */
  function Body(data: seq<bv8>): seq<bv8>
    requires |data| <= DATA_SIZE
  {
    [|data| as bv8] + data + [Checksum(data)]
  }

  lemma SizeFits(n: nat)
    requires n <= DATA_SIZE
    ensures (n as bv8) as nat == n
  {}

  lemma EncodeIsStartAndBody(data: seq<bv8>)
    requires |data| <= DATA_SIZE
    ensures Encode(data) == [START] + Body(data) && |Body(data)| == |data| + 2 && SizeOf(Body(data)) == |data|
  {
    SizeFits(|data|);
  }

  /** Reading a prefix of a stream that starts with a packet body: complete means exactly the body. */
  lemma BodyRead(data: seq<bv8>, rest: seq<bv8>, got: seq<bv8>, left: seq<bv8>)
    requires |data| <= DATA_SIZE && Body(data) + rest == got + left
    ensures got != [] ==> SizeOf(got) == |data|
    ensures got != [] && |got| == SizeOf(got) + 2 ==> got == Body(data) && left == rest
    ensures |got| < SizeOf(got) + 2 ==> left != []
  {
    EncodeIsStartAndBody(data);
    var all := Body(data) + rest;
    if got != [] {
      assert all[0] == got[0] && all[0] == Body(data)[0];
    }
    if |got| == |data| + 2 {
      assert all[..|got|] == got && all[..|got|] == Body(data);
      assert all[|got|..] == left && all[|got|..] == rest;
    }
  }

  datatype PacketResult = Packet(data: seq<bv8>) | Failed(err: Error)

  /** Start byte, packet and checksum, as both ends wait for them. */
  method ReadPacket(phy: Phy, timeout: int, ghost data: seq<bv8>, ghost rest: seq<bv8>) returns (r: PacketResult)
    requires |data| <= DATA_SIZE
    modifies phy
    ensures phy.stalls <= old(phy.stalls)
    ensures r.Packet? ==> |r.data| <= DATA_SIZE && old(phy.input) == Encode(r.data) + phy.input
    ensures old(phy.input) == Encode(data) + rest ==>
      (r == Packet(data) && phy.input == rest) || (r == Failed(Timeout) && old(phy.stalls) > 0)
  {
    ghost var all := phy.input;
    EncodeIsStartAndBody(data);
    if all == Encode(data) + rest {
      assert all == [START] + (Body(data) + rest);
    }
    ghost var waits;
    var err;
    err, waits := WaitStart(phy, timeout);
    if !err.Ok? {
      return Failed(err);
    }
    ghost var body := phy.input;
    var got;
    err, got, waits := WaitPacket(phy, timeout);
    ghost var left := phy.input;
    if all == Encode(data) + rest {
      assert body == all[1..] == Body(data) + rest;
      BodyRead(data, rest, got, left);
    }
    if !err.Ok? {
      return Failed(err);
    }
    var ok := ChecksumIsOk(got);
    r := if ok then Packet(got[1..|got| - 1]) else Failed(ProtError);
    if ok {
      BodyIsPacket(got, r.data);
      assert [START] + (got + left) == ([START] + got) + left;
    }
    if all == Encode(data) + rest {
      assert Body(data)[1..|data| + 1] == data;
    }
  }

  lemma BodyIsPacket(got: seq<bv8>, data: seq<bv8>)
    requires got != [] && |got| == SizeOf(got) + 2 && SizeOf(got) <= DATA_SIZE
    requires data == got[1..|got| - 1] && got[|got| - 1] == Checksum(data)
    ensures Encode(data) == [START] + got
  {
    SizeByte(got[0], |data|);
    assert got == [got[0]] + data + [Checksum(data)];
  }

  lemma SizeByte(b: bv8, n: nat)
    requires b as nat == n <= DATA_SIZE
    ensures b == n as bv8
  {}

  // ---- device to host ----

  /** The answer of the device's callback: an error, or the data it had. */
  datatype Callback = Refuse(code: int) | Data(data: seq<bv8>)

  function Payload(c: Callback): seq<bv8>
  {
    if c.Data? then c.data else []
  }

  /** The callback's return value. */
  function Returned(c: Callback): int
  {
    if c.Refuse? then c.code else |c.data|
  }

  /** The callback never hands back more than it was asked for. */
  ghost predicate Fits(cb: (nat, nat) -> Callback)
  {
    forall i, size :: |Payload(cb(i, size))| <= size && (cb(i, size).Refuse? ==> cb(i, size).code < 0)
  }

  /** The payloads of a transfer of `n` bytes, from byte `sent` and packet `i` on. */
  function Segments(n: nat, sent: nat, i: nat, cb: (nat, nat) -> Callback): seq<seq<bv8>>
    requires sent <= n
    decreases n - sent
  {
    var data := Payload(cb(i, Min(DATA_SIZE, n - sent)));
    if |data| == DATA_SIZE && sent + |data| < n then [data] + Segments(n, sent + |data|, i + 1, cb) else [data]
  }

  /** A reader of `n` bytes that has `done` of them stops after exactly these payloads. */
  ghost predicate WellSegmented(segs: seq<seq<bv8>>, n: nat, done: nat)
    decreases |segs|
  {
    && segs != [] && done <= n && |segs[0]| <= DATA_SIZE && done + |segs[0]| <= n
    && if |segs[0]| == DATA_SIZE && done + |segs[0]| < n then WellSegmented(segs[1..], n, done + |segs[0]|)
       else |segs| == 1
  }

  function Flat(segs: seq<seq<bv8>>): seq<bv8>
  {
    if segs == [] then [] else segs[0] + Flat(segs[1..])
  }

  function Wire(segs: seq<seq<bv8>>): seq<bv8>
    requires forall i :: 0 <= i < |segs| ==> |segs[i]| <= DATA_SIZE
  {
    if segs == [] then [] else Encode(segs[0]) + Wire(segs[1..])
  }

  lemma {:induction false} SegmentsWell(n: nat, sent: nat, i: nat, cb: (nat, nat) -> Callback)
    requires sent <= n && Fits(cb)
    ensures WellSegmented(Segments(n, sent, i, cb), n, sent)
    decreases n - sent
  {
    var data := Payload(cb(i, Min(DATA_SIZE, n - sent)));
    if |data| == DATA_SIZE && sent + |data| < n {
      SegmentsWell(n, sent + |data|, i + 1, cb);
      assert ([data] + Segments(n, sent + |data|, i + 1, cb))[1..] == Segments(n, sent + |data|, i + 1, cb);
    }
  }

  /** The bytes of a transfer: those of the next packet, and of the rest if it is full and more is wanted. */
  lemma FlatSegments(n: nat, sent: nat, i: nat, cb: (nat, nat) -> Callback, data: seq<bv8>)
    requires sent <= n && data == Payload(cb(i, Min(DATA_SIZE, n - sent)))
    ensures Flat(Segments(n, sent, i, cb)) == data +
      if |data| == DATA_SIZE && sent + |data| < n then Flat(Segments(n, sent + |data|, i + 1, cb)) else []
  {
    SegmentsStep(n, sent, i, cb);
  }

  /** Where packet `i` of full packets starts. */
  function Offset(i: nat): nat
  {
    if i == 0 then 0 else Offset(i - 1) + DATA_SIZE
  }

  /** A callback that serves the bytes of `buf`, packet by packet, as a transfer without callback does. */
  function Serves(buf: seq<bv8>): (nat, nat) -> Callback
  {
    (i: nat, size: nat) => Data(if Offset(i) + size <= |buf| then buf[Offset(i)..Offset(i) + size] else [])
  }

  lemma SplitAt(buf: seq<bv8>, from: nat, to: nat)
    requires from <= to <= |buf|
    ensures buf[from..] == buf[from..to] + buf[to..] && buf[|buf|..] == []
  {}

  /** What is left of a buffer: the next packet, and the rest. */
  lemma ServesNext(buf: seq<bv8>, i: nat, sent: nat)
    requires sent == Offset(i) <= |buf|
    ensures var size := Min(DATA_SIZE, |buf| - sent);
      Flat(Segments(|buf|, sent, i, Serves(buf))) == buf[sent..sent + size] +
        if sent + size < |buf| then Flat(Segments(|buf|, sent + size, i + 1, Serves(buf))) else []
  {
    var size := Min(DATA_SIZE, |buf| - sent);
    FlatSegments(|buf|, sent, i, Serves(buf), buf[sent..sent + size]);
  }

  /** Then what is sent is the buffer. */
  lemma {:induction false} SegmentsOfBuffer(buf: seq<bv8>, i: nat, sent: nat)
    requires sent == Offset(i) <= |buf|
    ensures Flat(Segments(|buf|, sent, i, Serves(buf))) == buf[sent..]
    decreases |buf| - sent
  {
    var next := sent + Min(DATA_SIZE, |buf| - sent);
    ServesNext(buf, i, sent);
    SplitAt(buf, sent, next);
    if next == |buf| {
    } else {
      SegmentsOfBuffer(buf, i + 1, next);
    }
  }

  /** The callback always has as many bytes as it is asked for. */
  ghost predicate Fills(cb: (nat, nat) -> Callback)
  {
    forall i, size :: |Payload(cb(i, size))| == size
  }

  /** Then exactly the bytes asked for are sent. */
  lemma {:induction false} SegmentsFull(n: nat, sent: nat, i: nat, cb: (nat, nat) -> Callback)
    requires sent <= n && Fills(cb)
    ensures |Flat(Segments(n, sent, i, cb))| == n - sent
    decreases n - sent
  {
    var data := Payload(cb(i, Min(DATA_SIZE, n - sent)));
    FlatSegments(n, sent, i, cb, data);
    if |data| == DATA_SIZE && sent + |data| < n {
      SegmentsFull(n, sent + |data|, i + 1, cb);
    } else {
    }
  }

  lemma {:induction false} WellSegmentedSizes(segs: seq<seq<bv8>>, n: nat, done: nat)
    requires WellSegmented(segs, n, done)
    ensures forall i :: 0 <= i < |segs| ==> |segs[i]| <= DATA_SIZE
    decreases |segs|
  {
    if |segs| > 1 {
      WellSegmentedSizes(segs[1..], n, done + |segs[0]|);
      forall i | 0 <= i < |segs| ensures |segs[i]| <= DATA_SIZE {
        if i > 0 { assert segs[i] == segs[1..][i - 1]; }
      }
    }
  }

  ghost predicate Sized(segs: seq<seq<bv8>>)
  {
    forall i :: 0 <= i < |segs| ==> |segs[i]| <= DATA_SIZE
  }

  lemma SegmentsStep(n: nat, sent: nat, i: nat, cb: (nat, nat) -> Callback)
    requires sent <= n
    ensures var segs := Segments(n, sent, i, cb);
      && segs != [] && segs[0] == Payload(cb(i, Min(DATA_SIZE, n - sent)))
      && segs[1..] == if |segs[0]| == DATA_SIZE && sent + |segs[0]| < n
                      then Segments(n, sent + |segs[0]|, i + 1, cb) else []
  {}

  lemma WireStep(before: seq<bv8>, segs: seq<seq<bv8>>, after: seq<bv8>)
    requires Sized(segs) && segs != []
    ensures before + Wire(segs) + after == (before + Encode(segs[0])) + (Wire(segs[1..]) + after)
  {
    Regroup(before, Encode(segs[0]), Wire(segs[1..]), after);
  }

  lemma Regroup(a: seq<bv8>, b: seq<bv8>, c: seq<bv8>, d: seq<bv8>)
    ensures a + (b + c) + d == (a + b) + (c + d)
  {}

  lemma FlatStep(before: seq<bv8>, segs: seq<seq<bv8>>)
    requires segs != []
    ensures before + Flat(segs) == (before + segs[0]) + Flat(segs[1..])
    ensures |Flat(segs)| == |segs[0]| + |Flat(segs[1..])|
  {}

  /** One packet put on the wire. */
  method SendPacket(data: seq<bv8>) returns (packet: seq<bv8>)
    requires |data| <= DATA_SIZE
    ensures packet == Encode(data)
  {
    var checksum := InsertChecksum(data);
    packet := [START, |data| as bv8] + data + [checksum];
  }

  /** Part way through a transfer: what is on the wire and what is still to come make the whole. */
  ghost predicate Sending(n: nat, cb: (nat, nat) -> Callback, wire: seq<bv8>, bytes: int, i: nat, all: seq<seq<bv8>>)
  {
    0 <= bytes <= n && Sized(all) && i < |all| &&
    var segs := Segments(n, bytes, i, cb);
    segs == all[i..] && Sized(segs) && wire + Wire(segs) == Wire(all) && bytes + |Flat(segs)| == |Flat(all)|
  }

  lemma SendingStep(n: nat, cb: (nat, nat) -> Callback, wire: seq<bv8>, bytes: nat, i: nat, all: seq<seq<bv8>>,
                    data: seq<bv8>)
    requires Fits(cb) && Sending(n, cb, wire, bytes, i, all) && data == Payload(cb(i, Min(DATA_SIZE, n - bytes)))
    ensures |data| <= DATA_SIZE && bytes + |data| <= n
    ensures if |data| == DATA_SIZE && bytes + |data| < n
      then Sending(n, cb, wire + Encode(data), bytes + |data|, i + 1, all)
      else wire + Encode(data) == Wire(all) && bytes + |data| == |Flat(all)| && i + 1 == |all|
  {
    var segs := Segments(n, bytes, i, cb);
    SegmentsStep(n, bytes, i, cb);
    WireStep(wire, segs, []);
    FlatStep([], segs);
    assert wire + Wire(segs) + [] == wire + Wire(segs);
    assert Wire(segs[1..]) + [] == Wire(segs[1..]);
  }

  /** The next payload, and the callback's return value. */
  method NextPayload(cb: (nat, nat) -> Callback, i: nat, want: nat) returns (data: seq<bv8>, ret: int)
    ensures data == Payload(cb(i, want))
    ensures ret == Returned(cb(i, want))
  {
    var answer := cb(i, want);
    if answer.Refuse? {
      data, ret := [], answer.code;
    } else {
      data, ret := answer.data, |answer.data|;
    }
  }

  lemma SendingStart(n: nat, cb: (nat, nat) -> Callback)
    requires Fits(cb)
    ensures Sized(Segments(n, 0, 0, cb)) && Sending(n, cb, [], 0, 0, Segments(n, 0, 0, cb))
  {
    SegmentsWell(n, 0, 0, cb);
    WellSegmentedSizes(Segments(n, 0, 0, cb), n, 0);
  }

  lemma Associate(x: seq<bv8>, y: seq<bv8>, z: seq<bv8>)
    ensures x + (y + z) == (x + y) + z
  {}

  lemma {:induction false} WireAppend(a: seq<seq<bv8>>, b: seq<seq<bv8>>)
    requires Sized(a) && Sized(b)
    ensures Sized(a + b) && Wire(a + b) == Wire(a) + Wire(b)
    decreases |a|
  {
    if a == [] {
      assert a + b == b && Wire(a) + Wire(b) == Wire(b);
    } else {
      var rest := a[1..];
      assert (a + b)[1..] == rest + b && (a + b)[0] == a[0];
      WireAppend(rest, b);
      Associate(Encode(a[0]), Wire(rest), Wire(b));
    }
  }

  /** What is on the wire before packet `i`. */
  lemma WireBefore(wire: seq<bv8>, all: seq<seq<bv8>>, i: nat)
    requires i <= |all| && Sized(all) && wire + Wire(all[i..]) == Wire(all)
    ensures wire == Wire(all[..i])
  {
    assert all == all[..i] + all[i..];
    WireAppend(all[..i], all[i..]);
    var n := |Wire(all)| - |Wire(all[i..])|;
    assert Wire(all)[..n] == wire && Wire(all)[..n] == Wire(all[..i]);
  }

  /** One packet, and whether there is another after it. */
  method SendNext(nbyte: nat, cb: (nat, nat) -> Callback, wire: seq<bv8>, bytes: nat, i: nat, ghost all: seq<seq<bv8>>)
    returns (ret: int, out: seq<bv8>, done: nat, going: bool)
    requires Fits(cb) && Sending(nbyte, cb, wire, bytes, i, all)
    ensures bytes <= done <= nbyte && (going ==> bytes < done)
    ensures ret == Returned(cb(i, Min(DATA_SIZE, nbyte - bytes)))
    ensures if going then Sending(nbyte, cb, out, done, i + 1, all) else Sent(out, done, i + 1, all)
  {
    var want := if nbyte - bytes > DATA_SIZE then DATA_SIZE else nbyte - bytes;
    var data;
    data, ret := NextPayload(cb, i, want);
    SendingStep(nbyte, cb, wire, bytes, i, all, data);
    var packet := SendPacket(data);
    out, done := wire + packet, bytes + |data|;
    going := done < nbyte && |data| == DATA_SIZE;
  }

  /** All packets are on the wire. */
  ghost predicate Sent(wire: seq<bv8>, bytes: nat, i: nat, all: seq<seq<bv8>>)
  {
    Sized(all) && wire == Wire(all) && bytes == |Flat(all)| && i == |all|
  }

  /** The first `k` writes to the driver succeed, and the next does not, if there is one. */
  predicate Breaks(sends: nat -> bool, k: nat, total: nat)
  {
    k <= total && (forall i :: 0 <= i < k ==> sends(i)) && (k < total ==> !sends(k))
  }

  /** What is known after packet `i` was tried: `ret` is the callback's answer to it. */
  ghost predicate Progress(n: nat, cb: (nat, nat) -> Callback, sends: nat -> bool, going: bool, wire: seq<bv8>,
                           bytes: nat, i: nat, ret: int, all: seq<seq<bv8>>)
  {
    && bytes <= n && i <= |all| && (forall j :: 0 <= j < i ==> sends(j))
    && (if going then Sending(n, cb, wire, bytes, i, all) else Sent(wire, bytes, i, all))
    && (bytes == 0 ==> if going then i == 0 else ret == Returned(cb(0, Min(DATA_SIZE, n))))
  }

  /** What a transfer puts on the wire and returns, `k` packets having gone out. */
  ghost predicate Transferred(n: nat, cb: (nat, nat) -> Callback, sends: nat -> bool, all: seq<seq<bv8>>, k: nat,
                              wire: seq<bv8>, ret: int)
  {
    && Sized(all) && Breaks(sends, k, |all|) && wire == Wire(all[..k])
    && (k < |all| ==> ret == -1)
    && (k == |all| && Flat(all) != [] ==> ret == |Flat(all)|)
    && (k == |all| && Flat(all) == [] ==> ret == Returned(cb(0, Min(DATA_SIZE, n))))
  }

  lemma ProgressDone(n: nat, cb: (nat, nat) -> Callback, sends: nat -> bool, wire: seq<bv8>, bytes: nat, i: nat,
                     ret: int, all: seq<seq<bv8>>)
    requires Progress(n, cb, sends, false, wire, bytes, i, ret, all)
    ensures Transferred(n, cb, sends, all, |all|, wire, if bytes != 0 then bytes else ret)
  {
    assert all[..|all|] == all;
  }

  lemma ProgressBroken(n: nat, cb: (nat, nat) -> Callback, sends: nat -> bool, wire: seq<bv8>, bytes: nat, i: nat,
                       ret: int, all: seq<seq<bv8>>)
    requires Progress(n, cb, sends, true, wire, bytes, i, ret, all) && !sends(i)
    ensures Transferred(n, cb, sends, all, i, wire, -1)
  {
    WireBefore(wire, all, i);
  }

  /** The next packet goes out. */
  method SendOne(nbyte: nat, cb: (nat, nat) -> Callback, ghost sends: nat -> bool, wire: seq<bv8>, bytes: nat, i: nat,
                 ghost before: int, ghost all: seq<seq<bv8>>)
    returns (ret: int, out: seq<bv8>, done: nat, going: bool)
    requires Fits(cb) && Progress(nbyte, cb, sends, true, wire, bytes, i, before, all) && sends(i)
    ensures Progress(nbyte, cb, sends, going, out, done, i + 1, ret, all)
    ensures bytes <= done <= nbyte && (going ==> bytes < done)
  {
    ret, out, done, going := SendNext(nbyte, cb, wire, bytes, i, all);
  }

  /**
   `link1_transport_slavewrite` with a callback; `sends` says which writes to the driver succeed, `k` how many packets
   went out, and `wire` is their bytes.
   */
  method SlaveWrite(nbyte: nat, cb: (nat, nat) -> Callback, sends: nat -> bool)
    returns (ret: int, wire: seq<bv8>, ghost k: nat)
    requires Fits(cb)
    ensures Transferred(nbyte, cb, sends, Segments(nbyte, 0, 0, cb), k, wire, ret)
  {
    ghost var all := Segments(nbyte, 0, 0, cb);
    SendingStart(nbyte, cb);
    wire, ret := [], 0;
    var bytes: nat, i := 0, 0;
    var going := true;
    while going
      invariant Progress(nbyte, cb, sends, going, wire, bytes, i, ret, all)
      decreases going, nbyte - bytes
    {
      if !sends(i) {
        ProgressBroken(nbyte, cb, sends, wire, bytes, i, ret, all);
        return -1, wire, i;
      }
      ret, wire, bytes, going := SendOne(nbyte, cb, sends, wire, bytes, i, ret, all);
      i := i + 1;
    }
    ProgressDone(nbyte, cb, sends, wire, bytes, i, ret, all);
    k := |all|;
    if bytes != 0 {
      ret := bytes;
    }
  }

  datatype ReadResult = Bytes(data: seq<bv8>) | ReadError(err: Error)

  /** The stream holds these payloads for a reader that has `out` already. */
  ghost predicate Ruled(input: seq<bv8>, segs: seq<seq<bv8>>, rest: seq<bv8>, nbyte: nat, out: seq<bv8>,
                        whole: seq<bv8>)
  {
    Sized(segs) && WellSegmented(segs, nbyte, |out|) && input == Wire(segs) + rest && out + Flat(segs) == whole
  }

  /** Taking the next packet: another is due exactly when the reader goes on. */
  lemma RuledStep(input: seq<bv8>, segs: seq<seq<bv8>>, rest: seq<bv8>, nbyte: nat, out: seq<bv8>, whole: seq<bv8>)
    requires Ruled(input, segs, rest, nbyte, out, whole)
    ensures segs != [] && |segs[0]| <= DATA_SIZE && |out| + |segs[0]| <= nbyte
    ensures Sized(segs[1..]) && input == Encode(segs[0]) + (Wire(segs[1..]) + rest)
    ensures if |segs[0]| == DATA_SIZE && |out| + |segs[0]| < nbyte
      then Ruled(Wire(segs[1..]) + rest, segs[1..], rest, nbyte, out + segs[0], whole)
      else out + segs[0] == whole && Wire(segs[1..]) + rest == rest
  {
    WireStep([], segs, rest);
    FlatStep(out, segs);
    assert [] + Wire(segs) + rest == Wire(segs) + rest;
  }

  lemma JustOne(data: seq<bv8>)
    requires |data| <= DATA_SIZE
    ensures Sized([data]) && Wire([data]) == Encode(data) && Flat([data]) == data
  {
    var one := [data];
    assert one[0] == data && one[1..] == [];
    assert Wire(one) == Encode(data) + Wire([]) && Flat(one) == data + Flat([]);
  }

  /** One more packet off the stream. */
  lemma TookOneMore(input: seq<bv8>, took: seq<seq<bv8>>, data: seq<bv8>, left: seq<bv8>)
    requires Sized(took) && |data| <= DATA_SIZE && input == Wire(took) + (Encode(data) + left)
    ensures Sized(took + [data]) && input == Wire(took + [data]) + left
    ensures Flat(took + [data]) == Flat(took) + data
  {
    JustOne(data);
    WireAppend(took, [data]);
    FlatAppend(took, [data]);
    Associate(Wire(took), Encode(data), left);
  }

  lemma {:induction false} FlatAppend(a: seq<seq<bv8>>, b: seq<seq<bv8>>)
    ensures Flat(a + b) == Flat(a) + Flat(b)
    decreases |a|
  {
    if a == [] {
      assert a + b == b;
    } else {
      assert (a + b)[1..] == a[1..] + b;
      FlatAppend(a[1..], b);
      Associate(a[0], Flat(a[1..]), Flat(b));
    }
  }

  /** Part way through a read: the packets `took` are off the stream, and if it holds a transfer, `left` is to come. */
  ghost predicate Reading(start: seq<bv8>, input: seq<bv8>, took: seq<seq<bv8>>, out: seq<bv8>, nbyte: nat, ruled: bool,
                          left: seq<seq<bv8>>, rest: seq<bv8>, whole: seq<bv8>)
  {
    && Sized(took) && start == Wire(took) + input && out == Flat(took) && |out| <= nbyte
    && (ruled ==> Ruled(input, left, rest, nbyte, out, whole))
  }

  /** Another packet, of which `size` bytes are wanted. */
  lemma ReadOnward(start: seq<bv8>, input: seq<bv8>, took: seq<seq<bv8>>, out: seq<bv8>, nbyte: nat, ruled: bool,
                   left: seq<seq<bv8>>, rest: seq<bv8>, whole: seq<bv8>, data: seq<bv8>, input': seq<bv8>, size: nat)
    requires Reading(start, input, took, out, nbyte, ruled, left, rest, whole)
    requires |data| <= DATA_SIZE && input == Encode(data) + input' && size == Min(|data|, nbyte - |out|)
    requires ruled ==> left != [] && data == left[0] && Sized(left[1..]) && input' == Wire(left[1..]) + rest
    ensures var took', out' := took + [data], out + data[..size];
      && Sized(took') && start == Wire(took') + input' && out' == Flat(took')[..Min(nbyte, |Flat(took')|)]
      && if |out'| < nbyte && size == DATA_SIZE
         then Reading(start, input', took', out', nbyte, ruled, if ruled then left[1..] else [], rest, whole)
         else ruled ==> out' == whole && input' == rest
  {
    TookOneMore(start, took, data, input');
    if ruled {
      RuledStep(input, left, rest, nbyte, out, whole);
      assert data[..size] == data;
    }
    assert size == |data| ==> data[..size] == data;
  }

  /**
   `link1_transport_masterread`: whatever comes, the bytes are those of the packets `took` off the stream, cut to what
   was asked for, and an error leaves the stream flushed; exactly what was sent is returned when it was sent by the
   rules.
   */
  method MasterRead(phy: Phy, timeout: int, nbyte: nat, ghost segs: seq<seq<bv8>>, ghost rest: seq<bv8>)
    returns (r: ReadResult, ghost took: seq<seq<bv8>>)
    modifies phy
    ensures r.Bytes? ==> Sized(took) && old(phy.input) == Wire(took) + phy.input
    ensures r.Bytes? ==> r.data == Flat(took)[..Min(nbyte, |Flat(took)|)]
    ensures r.ReadError? ==> phy.input == []
    ensures Ruled(old(phy.input), segs, rest, nbyte, [], Flat(segs)) ==>
      (r == Bytes(Flat(segs)) && phy.input == rest) || (r == ReadError(Timeout) && old(phy.stalls) > 0)
  {
    var out: seq<bv8> := [];
    ghost var start, whole := phy.input, Flat(segs);
    ghost var ruled := Ruled(start, segs, rest, nbyte, [], whole);
    ghost var left := if ruled then segs else [];
    took := [];
    var going := true;
    while going
      invariant phy.stalls <= old(phy.stalls)
      invariant going ==> Reading(start, phy.input, took, out, nbyte, ruled, left, rest, whole)
      invariant !going ==>
        && Sized(took) && start == Wire(took) + phy.input && out == Flat(took)[..Min(nbyte, |Flat(took)|)]
        && (ruled ==> out == whole && phy.input == rest)
      decreases going, nbyte - |out|
    {
      ghost var first, after, input := [], [], phy.input;
      if ruled {
        RuledStep(phy.input, left, rest, nbyte, out, whole);
        first, after := left[0], Wire(left[1..]) + rest;
      }
      var packet := ReadPacket(phy, timeout, first, after);
      if packet.Failed? {
        phy.Flush();
        return ReadError(packet.err), took;
      }
      var size := if |packet.data| + |out| > nbyte then nbyte - |out| else |packet.data|;
      ReadOnward(start, input, took, out, nbyte, ruled, left, rest, whole, packet.data, phy.input, size);
      took, left := took + [packet.data], if ruled then left[1..] else [];
      out := out + packet.data[..size];
      going := |out| < nbyte && size == DATA_SIZE;
    }
    return Bytes(out), took;
  }

  /**
   A whole transfer from device to host: whatever the callback answers and however the bytes are chunked,
   the host gets exactly the bytes the callback gave, and the stream is left empty, unless it gives up waiting.
   */
  method DeviceToHost(phy: Phy, timeout: int, nbyte: nat, cb: (nat, nat) -> Callback) returns (ret: int, r: ReadResult)
    requires Fits(cb) && phy.input == []
    modifies phy
    ensures old(phy.stalls) == 0 ==> r.Bytes?
    ensures r.Bytes? ==> r.data == Flat(Segments(nbyte, 0, 0, cb)) && phy.input == []
    ensures r.Bytes? && r.data != [] ==> ret == |r.data|
    ensures r.ReadError? ==> r.err == Timeout
  {
    var wire;
    ghost var k;
    ret, wire, k := SlaveWrite(nbyte, cb, _ => true);
    ghost var segs := Segments(nbyte, 0, 0, cb);
    assert segs[..k] == segs;
    phy.input := wire;
    SegmentsWell(nbyte, 0, 0, cb);
    assert wire == Wire(segs) + [] && [] + Flat(segs) == Flat(segs);
    ghost var took;
    r, took := MasterRead(phy, timeout, nbyte, segs, []);
  }
}
