/**
 The byte FIFO device as a bounded queue: what its operations mean, without the ring that
 stores it. Every byte accepted is remembered together with how it left the queue.
 */
module FifoQueue {
  import opened Common

  /** How a byte left the queue. */
  datatype Way = Delivered | Dropped | Flushed

  datatype Fate = Fate(b: byte, way: Way)

  /**
   `pendingRead` and `pendingWrite` are the two transfer slots; `accepted` and `fates` are the
   history of the queue, and `cleared` the length of `fates` when the overflow flag was last cleared.
   */
  datatype Queue = Queue(
    size: nat, contents: seq<byte>, writeBlock: bool, overflow: bool,
    pendingRead: Option<nat>, pendingWrite: Option<seq<byte>>,
    accepted: seq<byte>, fates: seq<Fate>, cleared: nat)

  datatype Result = Bytes(n: nat) | Again | Busy | NotSupported | Info(size: nat, ready: nat, overflow: bool)

  /** A pending request completed by the call: `result` is what its owner is told. */
  datatype Completion =
    | Nothing
    | ReadDone(result: nat, data: seq<byte>)
    | WriteDone(result: nat, written: nat)
    | WriteCanceled

  datatype Reply = Reply(result: Result, data: seq<byte>, done: Completion)

  datatype Op =
    | Read(nbyte: nat, nonBlocking: bool)
    | Write(bytes: seq<byte>, nonBlocking: bool)
    | GetInfo
    | Flush
    | Init
    | SetAttr(init: bool, setWriteBlock: bool, allowOverflow: bool)
    | SetAction(cancel: bool, onWrite: bool, onRead: bool)

  function Fates(s: seq<byte>, way: Way): (r: seq<Fate>)
    ensures |r| == |s| && forall i :: 0 <= i < |s| ==> r[i] == Fate(s[i], way)
  {
    seq(|s|, i requires 0 <= i < |s| => Fate(s[i], way))
  }

  /** Bytes of a history, in order. */
  function BytesOf(fates: seq<Fate>): (r: seq<byte>)
    ensures |r| == |fates| && forall i :: 0 <= i < |r| ==> r[i] == fates[i].b
  {
    seq(|fates|, i requires 0 <= i < |fates| => fates[i].b)
  }

  /** The bytes of a history that reached a reader, in order. */
  function DeliveredOf(fates: seq<Fate>): seq<byte>
  {
    if fates == [] then []
    else DeliveredOf(fates[..|fates| - 1]) +
         (if fates[|fates| - 1].way.Delivered? then [fates[|fates| - 1].b] else [])
  }

  // ---- the queue ----

  /** The oldest `k` bytes leave. */
  function Remove(q: Queue, k: nat, way: Way): Queue
    requires k <= |q.contents|
  {
    q.(contents := q.contents[k..], fates := q.fates + Fates(q.contents[..k], way))
  }

  function ReadCount(q: Queue, nbyte: nat): nat
  {
    Min(nbyte, |q.contents|)
  }

  function AfterRead(q: Queue, nbyte: nat): Queue
  {
    Remove(q, ReadCount(q, nbyte), Delivered)
  }

  /** One byte in; a full queue drops its oldest byte and says so. */
  function PushOne(q: Queue, x: byte): Queue
    requires 1 <= q.size && |q.contents| <= q.size
  {
    if |q.contents| < q.size then q.(contents := q.contents + [x], accepted := q.accepted + [x])
    else q.(contents := q.contents[1..] + [x], accepted := q.accepted + [x],
            fates := q.fates + [Fate(q.contents[0], Dropped)], overflow := true)
  }

  /** A blocked write takes what fits; otherwise everything is taken. */
  function WriteCount(q: Queue, data: seq<byte>, blocked: bool): nat
    requires |q.contents| <= q.size
  {
    if blocked then Min(|data|, q.size - |q.contents|) else |data|
  }

  function AfterWrite(q: Queue, data: seq<byte>, blocked: bool): (r: Queue)
    requires 1 <= q.size && |q.contents| <= q.size
    ensures r.size == q.size && |r.contents| <= r.size && r.writeBlock == q.writeBlock
    ensures r.pendingRead == q.pendingRead && r.pendingWrite == q.pendingWrite && r.cleared == q.cleared
    decreases |data|
  {
    if data == [] || (blocked && |q.contents| == q.size) then q
    else AfterWrite(PushOne(q, data[0]), data[1..], blocked)
  }

  function AfterFlush(q: Queue): Queue
  {
    var q1 := Remove(q, |q.contents|, Flushed);
    q1.(overflow := false, cleared := |q1.fates|)
  }

  // ---- the transfer slots ----

  /** A pending reader is given what there is. */
  function DataReceived(q: Queue): (Queue, Completion)
  {
    if q.pendingRead.None? then (q, Nothing)
    else
      var n := q.pendingRead.value;
      var k := ReadCount(q, n);
      (AfterRead(q, n).(pendingRead := None), ReadDone(if k == 0 then n else k, q.contents[..k]))
  }

  /** A pending writer is taken up as far as it fits. */
  function DataTransmitted(q: Queue): (Queue, Completion)
    requires 1 <= q.size && |q.contents| <= q.size
  {
    if q.pendingWrite.None? then (q, Nothing)
    else
      var d := q.pendingWrite.value;
      var k := WriteCount(q, d, q.writeBlock);
      (AfterWrite(q, d, q.writeBlock).(pendingWrite := None), WriteDone(if k == 0 then |d| else k, k))
  }

  function ReadStep(q: Queue, nbyte: nat, nonBlocking: bool): (Queue, Reply)
    requires 1 <= q.size && |q.contents| <= q.size
  {
    if q.pendingRead.Some? then (q, Reply(Busy, [], Nothing))
    else if nbyte == 0 then (q, Reply(Bytes(0), [], Nothing))
    else
      var k := ReadCount(q, nbyte);
      if k == 0 then
        if nonBlocking || |q.contents| == q.size then (q, Reply(Again, [], Nothing))
        else (q.(pendingRead := Some(nbyte)), Reply(Bytes(0), [], Nothing))
      else
        var (q', done) := DataTransmitted(AfterRead(q, nbyte));
        (q', Reply(Bytes(k), q.contents[..k], done))
  }

  function WriteStep(q: Queue, data: seq<byte>, nonBlocking: bool): (Queue, Reply)
    requires 1 <= q.size && |q.contents| <= q.size
  {
    if q.pendingWrite.Some? then (q, Reply(Busy, [], Nothing))
    else if data == [] then (q, Reply(Bytes(0), [], Nothing))
    else
      var blocked := nonBlocking || q.writeBlock;
      var k := WriteCount(q, data, blocked);
      if k == 0 then
        if nonBlocking && q.writeBlock then (q, Reply(Again, [], Nothing))
        else (q.(pendingWrite := Some(data)), Reply(Bytes(0), [], Nothing))
      else
        var (q', done) := DataReceived(AfterWrite(q, data, blocked));
        (q', Reply(Bytes(k), [], done))
  }

  function FlushStep(q: Queue): (Queue, Reply)
    requires 1 <= q.size
  {
    var (q', done) := DataTransmitted(AfterFlush(q));
    (q', Reply(Bytes(0), [], done))
  }

  function InitStep(q: Queue): (Queue, Reply)
    requires 1 <= q.size
  {
    FlushStep(q.(pendingRead := None, pendingWrite := None))
  }

  function SetAttrStep(q: Queue, init: bool, setWriteBlock: bool, allowOverflow: bool): (Queue, Reply)
    requires 1 <= q.size && |q.contents| <= q.size
  {
    var q1 := if init then InitStep(q).0 else q;
    var q2 := if setWriteBlock then q1.(writeBlock := !allowOverflow) else q1;
    var (q3, done) := if q2.writeBlock then DataTransmitted(q2) else (q2, Nothing);
    (q3, Reply(Bytes(0), [], done))
  }

  /** Cancelling either event cancels the pending write. */
  function SetActionStep(q: Queue, cancel: bool, onWrite: bool, onRead: bool): (Queue, Reply)
  {
    if !cancel then (q, Reply(NotSupported, [], Nothing))
    else if (onWrite || onRead) && q.pendingWrite.Some? then
      (q.(pendingWrite := None), Reply(Bytes(0), [], WriteCanceled))
    else (q, Reply(Bytes(0), [], Nothing))
  }

  function Step(q: Queue, op: Op): (Queue, Reply)
    requires 1 <= q.size && |q.contents| <= q.size
  {
    match op
    case Read(nbyte, nonBlocking) => ReadStep(q, nbyte, nonBlocking)
    case Write(bytes, nonBlocking) => WriteStep(q, bytes, nonBlocking)
    case GetInfo =>
      (q.(overflow := false, cleared := |q.fates|), Reply(Info(q.size, |q.contents|, q.overflow), [], Nothing))
    case Flush => FlushStep(q)
    case Init => InitStep(q)
    case SetAttr(init, setWriteBlock, allowOverflow) => SetAttrStep(q, init, setWriteBlock, allowOverflow)
    case SetAction(cancel, onWrite, onRead) => SetActionStep(q, cancel, onWrite, onRead)
  }

  // ---- what every operation keeps ----

  /** No lost wakeup: a reader waits only on an empty queue, a writer only on a full one. */
  ghost predicate Wakeup(q: Queue)
  {
    && (q.pendingRead.Some? ==> q.contents == [] && q.pendingRead.value > 0)
    && (q.pendingWrite.Some? ==> |q.contents| == q.size && q.pendingWrite.value != [])
  }

  /** Every accepted byte has left in order, once, or is still stored, in order, once. */
  ghost predicate Conserved(q: Queue)
  {
    q.accepted == BytesOf(q.fates) + q.contents
  }

  /** The overflow flag says whether a byte was dropped since it was last cleared. */
  ghost predicate OverflowExact(q: Queue)
  {
    && q.cleared <= |q.fates|
    && (q.overflow <==> exists i :: q.cleared <= i < |q.fates| && q.fates[i].way.Dropped?)
  }

  ghost predicate Inv(q: Queue)
  {
    1 <= q.size && |q.contents| <= q.size && Wakeup(q) && Conserved(q) && OverflowExact(q)
  }

  /** The two slots are never both taken. */
  lemma SlotsExclusive(q: Queue)
    requires Inv(q)
    ensures q.pendingRead.None? || q.pendingWrite.None?
  {}

  lemma RemoveKeeps(q: Queue, k: nat, way: Way)
    requires k <= |q.contents| && Conserved(q)
    ensures Conserved(Remove(q, k, way))
    ensures way != Dropped && OverflowExact(q) ==> OverflowExact(Remove(q, k, way))
  {
    var q' := Remove(q, k, way);
    assert BytesOf(q'.fates) == BytesOf(q.fates) + q.contents[..k];
    assert q.contents == q.contents[..k] + q.contents[k..];
    if way != Dropped && OverflowExact(q) {
      assert forall i :: q.cleared <= i < |q.fates| ==> q'.fates[i] == q.fates[i];
    }
  }

  /** Everything but the slots: what reading, writing and flushing keep. */
  ghost predicate Sound(q: Queue)
  {
    1 <= q.size && |q.contents| <= q.size && Conserved(q) && OverflowExact(q)
  }

  lemma ReadKeeps(q: Queue, nbyte: nat)
    requires Sound(q)
    ensures Sound(AfterRead(q, nbyte))
  {
    RemoveKeeps(q, ReadCount(q, nbyte), Delivered);
  }

  lemma PushKeeps(q: Queue, x: byte)
    requires Sound(q)
    ensures Sound(PushOne(q, x))
  {
    var q' := PushOne(q, x);
    if |q.contents| == q.size {
      assert BytesOf(q'.fates) == BytesOf(q.fates) + [q.contents[0]];
      assert q.contents == [q.contents[0]] + q.contents[1..];
      assert q'.fates[|q.fates|].way.Dropped?;
    }
  }

  lemma {:induction false} WriteKeeps(q: Queue, data: seq<byte>, blocked: bool)
    requires Sound(q)
    ensures Sound(AfterWrite(q, data, blocked))
    decreases |data|
  {
    if data != [] && !(blocked && |q.contents| == q.size) {
      PushKeeps(q, data[0]);
      WriteKeeps(PushOne(q, data[0]), data[1..], blocked);
    }
  }

  /** A write that fits, or is cut to what fits, appends. */
  lemma {:induction false} WriteAppends(q: Queue, data: seq<byte>, blocked: bool)
    requires 1 <= q.size && |q.contents| <= q.size && (blocked || |q.contents| + |data| <= q.size)
    ensures var taken := data[..WriteCount(q, data, blocked)];
      AfterWrite(q, data, blocked) == q.(contents := q.contents + taken, accepted := q.accepted + taken)
    decreases |data|
  {
    var taken := data[..WriteCount(q, data, blocked)];
    if data == [] || (blocked && |q.contents| == q.size) {
      assert q.contents + taken == q.contents && q.accepted + taken == q.accepted;
    } else {
      var q1, rest := PushOne(q, data[0]), data[1..];
      WriteAppends(q1, rest, blocked);
      TakeOneMore(q.contents, data, WriteCount(q1, rest, blocked));
      TakeOneMore(q.accepted, data, WriteCount(q1, rest, blocked));
    }
  }

  lemma TakeOneMore(a: seq<byte>, data: seq<byte>, k: nat)
    requires k < |data|
    ensures (a + [data[0]]) + data[1..][..k] == a + data[..k + 1]
  {}

  /** `r` is `q` after `data`, with the last bytes that fit stored and exactly the older ones dropped, in order. */
  ghost predicate KeptNewest(q: Queue, data: seq<byte>, r: Queue)
    requires q.size <= |q.contents| + |data|
  {
    var all := q.contents + data;
    var excess := |all| - q.size;
    && r.contents == all[excess..] && r.fates == q.fates + Fates(all[..excess], Dropped)
    && r.accepted == q.accepted + data
  }

  /** Allowing overflow keeps the last bytes that fit and drops exactly the older ones, in order. */
  lemma {:induction false} WriteKeepsNewest(q: Queue, data: seq<byte>)
    requires 1 <= q.size && |q.contents| <= q.size <= |q.contents| + |data|
    ensures KeptNewest(q, data, AfterWrite(q, data, false))
    decreases |data|
  {
    var r := AfterWrite(q, data, false);
    if data == [] {
      NewestNone(q);
    } else {
      var q1 := PushOne(q, data[0]);
      WriteKeepsNewest(q1, data[1..]);
      if |q.contents| < q.size {
        NewestRoom(q, data, q1, r);
      } else {
        NewestFull(q, data, q1, r);
      }
    }
  }

  lemma NewestNone(q: Queue)
    requires |q.contents| == q.size
    ensures KeptNewest(q, [], q)
  {
    var all := q.contents + [];
    assert all == q.contents && all[..0] == [] && q.accepted + [] == q.accepted;
    assert q.fates + Fates([], Dropped) == q.fates;
  }

  lemma AcceptedOneMore(a: seq<byte>, data: seq<byte>)
    requires data != []
    ensures (a + [data[0]]) + data[1..] == a + data
  {}

  lemma NewestRoom(q: Queue, data: seq<byte>, q1: Queue, r: Queue)
    requires data != [] && |q.contents| < q.size <= |q.contents| + |data|
    requires q1 == PushOne(q, data[0]) && KeptNewest(q1, data[1..], r)
    ensures KeptNewest(q, data, r)
  {
    AcceptedOneMore(q.contents, data);
    AcceptedOneMore(q.accepted, data);
  }

  lemma NewestFull(q: Queue, data: seq<byte>, q1: Queue, r: Queue)
    requires data != [] && 1 <= q.size == |q.contents|
    requires q1 == PushOne(q, data[0]) && KeptNewest(q1, data[1..], r)
    ensures KeptNewest(q, data, r)
  {
    var all := q.contents + data;
    assert q1.contents + data[1..] == all[1..] by {
      AcceptedOneMore(q.contents[1..], data);
      assert q.contents[1..] + data == all[1..];
    }
    AcceptedOneMore(q.accepted, data);
    DropOneMore(q.fates, all, |data|);
  }

  lemma DropOneMore(fates: seq<Fate>, all: seq<byte>, excess: nat)
    requires 1 <= excess <= |all|
    ensures all[1..][excess - 1..] == all[excess..]
    ensures (fates + [Fate(all[0], Dropped)]) + Fates(all[1..][..excess - 1], Dropped)
         == fates + Fates(all[..excess], Dropped)
  {
    assert all[..excess] == [all[0]] + all[1..][..excess - 1];
  }

  lemma FlushKeeps(q: Queue)
    requires Sound(q)
    ensures Sound(AfterFlush(q))
  {
    RemoveKeeps(q, |q.contents|, Flushed);
  }

  lemma TransmittedKeeps(q: Queue)
    requires Sound(q)
    ensures Sound(DataTransmitted(q).0) && DataTransmitted(q).0.pendingWrite.None?
    ensures DataTransmitted(q).0.pendingRead == q.pendingRead
  {
    if q.pendingWrite.Some? { WriteKeeps(q, q.pendingWrite.value, q.writeBlock); }
  }

  lemma ReceivedKeeps(q: Queue)
    requires Sound(q)
    ensures Sound(DataReceived(q).0) && DataReceived(q).0.pendingRead.None?
    ensures DataReceived(q).0.pendingWrite == q.pendingWrite
  {
    if q.pendingRead.Some? { ReadKeeps(q, q.pendingRead.value); }
  }

  lemma ReadStepKeeps(q: Queue, nbyte: nat, nonBlocking: bool)
    requires Inv(q)
    ensures Inv(ReadStep(q, nbyte, nonBlocking).0)
  {
    ReadKeeps(q, nbyte);
    TransmittedKeeps(AfterRead(q, nbyte));
  }

  lemma WriteStepKeeps(q: Queue, data: seq<byte>, nonBlocking: bool)
    requires Inv(q)
    ensures Inv(WriteStep(q, data, nonBlocking).0)
  {
    var blocked := nonBlocking || q.writeBlock;
    WriteKeeps(q, data, blocked);
    ReceivedKeeps(AfterWrite(q, data, blocked));
  }

  lemma FlushStepKeeps(q: Queue)
    requires Inv(q)
    ensures Inv(FlushStep(q).0)
  {
    FlushKeeps(q);
    TransmittedKeeps(AfterFlush(q));
  }

  lemma InitStepKeeps(q: Queue)
    requires Inv(q)
    ensures Inv(InitStep(q).0)
  {
    FlushStepKeeps(q.(pendingRead := None, pendingWrite := None));
  }

  lemma SetAttrStepKeeps(q: Queue, init: bool, setWriteBlock: bool, allowOverflow: bool)
    requires Inv(q)
    ensures Inv(SetAttrStep(q, init, setWriteBlock, allowOverflow).0)
  {
    InitStepKeeps(q);
    var q1 := if init then InitStep(q).0 else q;
    var q2 := if setWriteBlock then q1.(writeBlock := !allowOverflow) else q1;
    assert Inv(q2);
    TransmittedKeeps(q2);
    if q2.pendingWrite.Some? && q2.writeBlock {
      SlotsExclusive(q2);
    }
  }

  /** Every operation keeps the invariant. */
  lemma StepKeeps(q: Queue, op: Op)
    requires Inv(q)
    ensures Inv(Step(q, op).0)
  {
    match op {
      case Read(nbyte, nonBlocking) => ReadStepKeeps(q, nbyte, nonBlocking);
      case Write(bytes, nonBlocking) => WriteStepKeeps(q, bytes, nonBlocking);
      case GetInfo =>
      case Flush => FlushStepKeeps(q);
      case Init => InitStepKeeps(q);
      case SetAttr(init, setWriteBlock, allowOverflow) => SetAttrStepKeeps(q, init, setWriteBlock, allowOverflow);
      case SetAction(_, _, _) =>
    }
  }

  // ---- whole runs ----

  function Run(q: Queue, ops: seq<Op>): (Queue, seq<Reply>)
    requires Inv(q)
    decreases |ops|
  {
    if ops == [] then (q, [])
    else
      StepKeeps(q, ops[0]);
      var (q1, reply) := Step(q, ops[0]);
      var (q2, replies) := Run(q1, ops[1..]);
      (q2, [reply] + replies)
  }

  /** Over every run of operations: no lost wakeup, no byte lost or reordered, the overflow flag exact. */
  lemma {:induction false} RunKeeps(q: Queue, ops: seq<Op>)
    requires Inv(q)
    ensures Inv(Run(q, ops).0)
    decreases |ops|
  {
    if ops == [] {
    } else {
      StepKeeps(q, ops[0]);
      RunKeeps(Step(q, ops[0]).0, ops[1..]);
    }
  }

  /** The bytes a reply hands to readers: the caller, or the pending reader it completes. */
  function Handed(r: Reply): seq<byte>
  {
    r.data + (if r.done.ReadDone? then r.done.data else [])
  }

  function HandedAll(rs: seq<Reply>): seq<byte>
  {
    if rs == [] then [] else Handed(rs[0]) + HandedAll(rs[1..])
  }

  lemma DeliveredOfSnoc(fates: seq<Fate>, x: Fate)
    ensures DeliveredOf(fates + [x]) == DeliveredOf(fates) + (if x.way.Delivered? then [x.b] else [])
  {
    assert (fates + [x])[..|fates|] == fates;
  }

  lemma FatesSnoc(fates: seq<Fate>, s: seq<byte>, x: byte, way: Way)
    ensures fates + Fates(s + [x], way) == (fates + Fates(s, way)) + [Fate(x, way)]
  {}

  lemma {:induction false} DeliveredOfAppend(fates: seq<Fate>, s: seq<byte>, way: Way)
    ensures DeliveredOf(fates + Fates(s, way)) == DeliveredOf(fates) + (if way == Delivered then s else [])
    decreases |s|
  {
    if s == [] {
      assert fates + Fates(s, way) == fates;
    } else {
      var s', x := s[..|s| - 1], s[|s| - 1];
      var before, d := fates + Fates(s', way), DeliveredOf(fates);
      assert fates + Fates(s, way) == before + [Fate(x, way)] by {
        assert s == s' + [x];
        FatesSnoc(fates, s', x, way);
      }
      assert DeliveredOf(before) == d + (if way == Delivered then s' else []) by {
        DeliveredOfAppend(fates, s', way);
      }
      DeliveredOfSnoc(before, Fate(x, way));
      AppendSnoc(d, s);
    }
  }

  lemma AppendSnoc(d: seq<byte>, s: seq<byte>)
    requires s != []
    ensures d + s == (d + s[..|s| - 1]) + [s[|s| - 1]]
  {}

  lemma {:induction false} WriteDeliversNothing(q: Queue, data: seq<byte>, blocked: bool)
    requires 1 <= q.size && |q.contents| <= q.size
    ensures DeliveredOf(AfterWrite(q, data, blocked).fates) == DeliveredOf(q.fates)
    decreases |data|
  {
    if data != [] && !(blocked && |q.contents| == q.size) {
      if |q.contents| == q.size {
        DeliveredOfSnoc(q.fates, Fate(q.contents[0], Dropped));
      }
      WriteDeliversNothing(PushOne(q, data[0]), data[1..], blocked);
    }
  }

  lemma TransmittedDeliversNothing(q: Queue)
    requires 1 <= q.size && |q.contents| <= q.size
    ensures DeliveredOf(DataTransmitted(q).0.fates) == DeliveredOf(q.fates)
  {
    if q.pendingWrite.Some? { WriteDeliversNothing(q, q.pendingWrite.value, q.writeBlock); }
  }

  lemma FlushDeliversNothing(q: Queue)
    requires 1 <= q.size
    ensures DeliveredOf(FlushStep(q).0.fates) == DeliveredOf(q.fates)
  {
    DeliveredOfAppend(q.fates, q.contents[..|q.contents|], Flushed);
    TransmittedDeliversNothing(AfterFlush(q));
  }

  lemma ReadStepDelivers(q: Queue, nbyte: nat, nonBlocking: bool)
    requires Inv(q)
    ensures var r := ReadStep(q, nbyte, nonBlocking); DeliveredOf(r.0.fates) == DeliveredOf(q.fates) + r.1.data
    ensures !ReadStep(q, nbyte, nonBlocking).1.done.ReadDone?
  {
    DeliveredOfAppend(q.fates, q.contents[..ReadCount(q, nbyte)], Delivered);
    TransmittedDeliversNothing(AfterRead(q, nbyte));
  }

  lemma ReceivedDelivers(q: Queue)
    ensures var r := DataReceived(q);
      DeliveredOf(r.0.fates) == DeliveredOf(q.fates) + (if r.1.ReadDone? then r.1.data else [])
  {
    if q.pendingRead.Some? {
      DeliveredOfAppend(q.fates, q.contents[..ReadCount(q, q.pendingRead.value)], Delivered);
    }
  }

  lemma WriteStepDelivers(q: Queue, data: seq<byte>, nonBlocking: bool)
    requires Inv(q)
    ensures var r := WriteStep(q, data, nonBlocking); DeliveredOf(r.0.fates) == DeliveredOf(q.fates) + Handed(r.1)
  {
    var blocked := nonBlocking || q.writeBlock;
    var reply := WriteStep(q, data, nonBlocking).1;
    if reply.result.Bytes? && reply.result.n > 0 {
      var q1 := AfterWrite(q, data, blocked);
      WriteDeliversNothing(q, data, blocked);
      ReceivedDelivers(q1);
      HandedByCompletion(reply.result, DataReceived(q1).1);
    } else {
      HandedByCompletion(reply.result, Nothing);
      assert WriteStep(q, data, nonBlocking).0.fates == q.fates;
      assert DeliveredOf(q.fates) + [] == DeliveredOf(q.fates);
    }
  }

  lemma HandedByCompletion(result: Result, done: Completion)
    ensures Handed(Reply(result, [], done)) == if done.ReadDone? then done.data else []
  {}

  lemma SetAttrDeliversNothing(q: Queue, init: bool, setWriteBlock: bool, allowOverflow: bool)
    requires Inv(q)
    ensures DeliveredOf(SetAttrStep(q, init, setWriteBlock, allowOverflow).0.fates) == DeliveredOf(q.fates)
  {
    FlushDeliversNothing(q.(pendingRead := None, pendingWrite := None));
    InitStepKeeps(q);
    var q1 := if init then InitStep(q).0 else q;
    TransmittedDeliversNothing(if setWriteBlock then q1.(writeBlock := !allowOverflow) else q1);
  }

  /** What an operation hands out is exactly what leaves the queue as delivered. */
  lemma StepDelivers(q: Queue, op: Op)
    requires Inv(q)
    ensures DeliveredOf(Step(q, op).0.fates) == DeliveredOf(q.fates) + Handed(Step(q, op).1)
  {
    match op {
      case Read(nbyte, nonBlocking) => ReadStepDelivers(q, nbyte, nonBlocking);
      case Write(bytes, nonBlocking) => WriteStepDelivers(q, bytes, nonBlocking);
      case GetInfo =>
      case Flush => FlushDeliversNothing(q);
      case Init => FlushDeliversNothing(q.(pendingRead := None, pendingWrite := None));
      case SetAttr(init, setWriteBlock, allowOverflow) =>
        SetAttrDeliversNothing(q, init, setWriteBlock, allowOverflow);
      case SetAction(_, _, _) =>
    }
  }

  /** Over every run, readers are handed exactly the delivered bytes, in order. */
  lemma {:induction false} RunDelivers(q: Queue, ops: seq<Op>)
    requires Inv(q)
    ensures DeliveredOf(Run(q, ops).0.fates) == DeliveredOf(q.fates) + HandedAll(Run(q, ops).1)
    decreases |ops|
  {
    if ops == [] {
    } else {
      StepKeeps(q, ops[0]);
      StepDelivers(q, ops[0]);
      var q1, reply := Step(q, ops[0]).0, Step(q, ops[0]).1;
      RunDelivers(q1, ops[1..]);
      HandedAllCons(reply, Run(q1, ops[1..]).1, DeliveredOf(q.fates));
    }
  }

  lemma HandedAllCons(r: Reply, rs: seq<Reply>, before: seq<byte>)
    ensures before + HandedAll([r] + rs) == (before + Handed(r)) + HandedAll(rs)
  {
    assert ([r] + rs)[1..] == rs;
  }

  // ---- write-block mode ----

  /** Operations that neither empty the queue nor change its mode. */
  predicate Streaming(op: Op)
  {
    op.Read? || op.Write? || op.GetInfo? || op.SetAction?
  }

  ghost predicate AllDelivered(fates: seq<Fate>)
  {
    forall i :: 0 <= i < |fates| ==> fates[i].way.Delivered?
  }

  lemma {:induction false} AllDeliveredBytes(fates: seq<Fate>)
    requires AllDelivered(fates)
    ensures DeliveredOf(fates) == BytesOf(fates)
    decreases |fates|
  {
    if fates == [] {
    } else {
      AllDeliveredBytes(fates[..|fates| - 1]);
      assert BytesOf(fates) == BytesOf(fates[..|fates| - 1]) + [fates[|fates| - 1].b];
    }
  }

  lemma StreamingStep(q: Queue, op: Op)
    requires Inv(q) && q.writeBlock && AllDelivered(q.fates) && Streaming(op)
    ensures Step(q, op).0.writeBlock && AllDelivered(Step(q, op).0.fates)
  {
    match op {
      case Read(nbyte, _) =>
        var q1 := AfterRead(q, nbyte);
        assert AllDelivered(q1.fates);
        if q1.pendingWrite.Some? { WriteAppends(q1, q1.pendingWrite.value, true); }
      case Write(bytes, _) =>
        WriteAppends(q, bytes, true);
        var q1 := AfterWrite(q, bytes, true);
        if q1.pendingRead.Some? { assert AllDelivered(AfterRead(q1, q1.pendingRead.value).fates); }
      case GetInfo =>
      case SetAction(_, _, _) =>
    }
  }

  /** In write-block mode nothing is dropped: bytes delivered plus bytes stored are the bytes accepted. */
  lemma {:induction false} BlockingRunIsLossless(q: Queue, ops: seq<Op>)
    requires Inv(q) && q.writeBlock && AllDelivered(q.fates)
    requires forall i :: 0 <= i < |ops| ==> Streaming(ops[i])
    ensures var q' := Run(q, ops).0;
      q'.accepted == DeliveredOf(q.fates) + HandedAll(Run(q, ops).1) + q'.contents
    decreases |ops|
  {
    RunKeeps(q, ops);
    RunDelivers(q, ops);
    BlockingRunDelivers(q, ops);
    AllDeliveredBytes(Run(q, ops).0.fates);
  }

  lemma {:induction false} BlockingRunDelivers(q: Queue, ops: seq<Op>)
    requires Inv(q) && q.writeBlock && AllDelivered(q.fates)
    requires forall i :: 0 <= i < |ops| ==> Streaming(ops[i])
    ensures AllDelivered(Run(q, ops).0.fates)
    decreases |ops|
  {
    if ops == [] {
    } else {
      StepKeeps(q, ops[0]);
      StreamingStep(q, ops[0]);
      BlockingRunDelivers(Step(q, ops[0]).0, ops[1..]);
    }
  }

  // ---- waiting ----

  /** The operation leaves a writer waiting that was not. */
  predicate StartsWaiting(q: Queue, op: Op)
    requires 1 <= q.size && |q.contents| <= q.size
  {
    q.pendingWrite.None? && Step(q, op).0.pendingWrite.Some?
  }

  /** Whether a write takes nothing. */
  lemma WriteTakesNothing(q: Queue, data: seq<byte>, blocked: bool)
    requires 1 <= q.size && |q.contents| <= q.size
    ensures WriteCount(q, data, blocked) == 0 <==> data == [] || (blocked && |q.contents| == q.size)
  {}

  /**
   A write waits if and only if it brings something, the queue is full and blocks it, and it is not told to try again:
   a non-blocking write, which should never wait, does so on a full queue that is not in write-block mode.
   */
  lemma WriteWaits(q: Queue, data: seq<byte>, nonBlocking: bool)
    requires Inv(q)
    ensures StartsWaiting(q, Write(data, nonBlocking)) <==>
      q.pendingWrite.None? && data != [] && |q.contents| == q.size && nonBlocking != q.writeBlock
  {
    WriteTakesNothing(q, data, nonBlocking || q.writeBlock);
  }

  /** It does happen: a queue of one byte that is full and lets old bytes go. */
  lemma NonBlockingWriteWaits()
    ensures var q := Queue(1, [1], false, false, None, None, [1], [], 0);
      Inv(q) && StartsWaiting(q, Write([2], true)) && Step(q, Write([2], true)).1 == Reply(Bytes(0), [], Nothing)
  {
    var q := Queue(1, [1], false, false, None, None, [1], [], 0);
    assert BytesOf([]) + [1] == [1];
    WriteWaits(q, [2], true);
    WriteTakesNothing(q, [2], true);
  }

  // ---- completions ----

  /** The operation takes up a waiting writer although the queue is still full. */
  predicate FalseCompletion(q: Queue, op: Op)
  {
    && op.SetAttr? && !op.init && q.pendingWrite.Some?
    && (if op.setWriteBlock then !op.allowOverflow else q.writeBlock)
  }

  /**
   A completed write is told the number of bytes taken, except when setting write-block mode finds
   a writer waiting: that writer is told its whole request was written, and nothing was.
   */
  lemma WriteCompletionsHonest(q: Queue, op: Op)
    requires Inv(q)
    ensures var done := Step(q, op).1.done;
      done.WriteDone? ==> (done.result == done.written <==> !FalseCompletion(q, op))
    ensures FalseCompletion(q, op) ==> Step(q, op).1.done == WriteDone(|q.pendingWrite.value|, 0)
  {
    match op {
      case Read(nbyte, _) =>
      case Write(bytes, nonBlocking) =>
      case GetInfo =>
      case Flush =>
      case Init =>
      case SetAttr(init, _, _) =>
        if init { InitStepKeeps(q); assert InitStep(q).0.pendingWrite.None?; }
      case SetAction(_, _, _) =>
    }
  }

  /** It does happen: two one-byte writes to a queue of one byte, then write-block mode set once more. */
  lemma FalseCompletionHappens()
    ensures var empty := Queue(1, [], true, false, None, None, [], [], 0);
      var op := SetAttr(false, true, false);
      && Inv(empty)
      && var q := Step(Step(empty, Write([1], false)).0, Write([2], false)).0;
      && Inv(q) && q.contents == [1] && q.pendingWrite == Some([2])
      && FalseCompletion(q, op) && Step(q, op).1.done == WriteDone(1, 0)
  {
    var empty := Queue(1, [], true, false, None, None, [], [], 0);
    StepKeeps(empty, Write([1], false));
    var q1 := Step(empty, Write([1], false)).0;
    assert AfterWrite(empty, [1], true) == AfterWrite(PushOne(empty, 1), [], true);
    assert q1.contents == [1];
    StepKeeps(q1, Write([2], false));
    var q := Step(q1, Write([2], false)).0;
    assert AfterWrite(q1, [2], true) == q1;
    WriteCompletionsHonest(q, SetAttr(false, true, false));
  }

  lemma {:induction false} WriteStores(q: Queue, data: seq<byte>, blocked: bool)
    requires 1 <= q.size && |q.contents| <= q.size && |q.contents| + WriteCount(q, data, blocked) > 0
    ensures |AfterWrite(q, data, blocked).contents| > 0
    decreases |data|
  {
    if data != [] && !(blocked && |q.contents| == q.size) {
      WriteStores(PushOne(q, data[0]), data[1..], blocked);
    }
  }

  /** A completed read is told the number of bytes it was handed, and is handed at least one. */
  lemma ReadCompletionsHonest(q: Queue, data: seq<byte>, nonBlocking: bool)
    requires Inv(q)
    ensures var done := Step(q, Write(data, nonBlocking)).1.done;
      done.ReadDone? ==> done.result == |done.data| > 0
  {
    var blocked := nonBlocking || q.writeBlock;
    if WriteCount(q, data, blocked) > 0 {
      WriteStores(q, data, blocked);
    }
  }
}
