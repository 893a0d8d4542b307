/**
 What the callers of the FIFO are promised, by the bytes that go in and come out: what each operation takes, hands over
 and tells, when it waits, and that over every run those who write are told what was taken.
 */
module FifoPromises {
  import opened Common
  import opened FifoQueue

  // ---- bytes in ----

  /** The first `n` bytes of `data` have been accepted, after all those before. */
  ghost predicate Takes(q: Queue, r: Queue, data: seq<byte>, n: nat)
  {
    n <= |data| && r.accepted == q.accepted + data[..n]
  }

  /** A write takes what there is room for, or everything if the oldest bytes may be dropped. */
  lemma {:induction false} AfterWriteTakes(q: Queue, data: seq<byte>, blocked: bool)
    requires 1 <= q.size && |q.contents| <= q.size
    ensures var n := if blocked then Min(|data|, q.size - |q.contents|) else |data|;
      Takes(q, AfterWrite(q, data, blocked), data, n)
    decreases |data|
  {
    var n := if blocked then Min(|data|, q.size - |q.contents|) else |data|;
    if data == [] || (blocked && |q.contents| == q.size) {
      assert q.accepted + data[..0] == q.accepted;
    } else {
      AfterWriteTakes(PushOne(q, data[0]), data[1..], blocked);
      TakeOneMore(q.accepted, data, n - 1);
    }
  }

  /** What became of a waiting write: the bytes taken from it, and what its owner is told. */
  ghost predicate Completes(q: Queue, r: Queue, done: Completion, blocked: bool)
  {
    if q.pendingWrite.None? then !done.WriteDone? && r.accepted == q.accepted
    else
      var data, room := q.pendingWrite.value, q.size - |q.contents|;
      var n := if blocked then Min(|data|, room) else |data|;
      && 0 <= room && Takes(q, r, data, n) && r.pendingWrite.None?
      && done == WriteDone(if n == 0 then |data| else n, n)
  }

  lemma TransmittedCompletes(q: Queue)
    requires 1 <= q.size && |q.contents| <= q.size
    ensures Completes(q, DataTransmitted(q).0, DataTransmitted(q).1, q.writeBlock)
  {
    if q.pendingWrite.Some? {
      AfterWriteTakes(q, q.pendingWrite.value, q.writeBlock);
    }
  }

  // ---- single operations ----

  /** The result of a write, and whether it waits. */
  lemma WritePromise(q: Queue, data: seq<byte>, nonBlocking: bool)
    requires Inv(q)
    ensures var (r, reply) := Step(q, Write(data, nonBlocking));
      var room := q.size - |q.contents|;
      var n := if nonBlocking || q.writeBlock then Min(|data|, room) else |data|;
      && reply.data == [] && r.writeBlock == q.writeBlock && r.size == q.size
      && if q.pendingWrite.Some? then r == q && reply == Reply(Busy, [], Nothing)
         else
           && Takes(q, r, data, n)
           && reply.result == (if data != [] && n == 0 && nonBlocking && q.writeBlock then Again else Bytes(n))
           && r.pendingWrite == (if data != [] && reply.result == Bytes(0) then Some(data) else None)
           && r.pendingRead == (if n > 0 then None else q.pendingRead)
  {
    AfterWriteTakes(q, data, nonBlocking || q.writeBlock);
    assert q.accepted + data[..0] == q.accepted;
  }

  /** A read gets the oldest bytes, as many as there are and are asked for, or waits, or is told to try again. */
  lemma ReadPromise(q: Queue, nbyte: nat, nonBlocking: bool)
    requires Inv(q)
    ensures var (r, reply) := Step(q, Read(nbyte, nonBlocking));
      var n := Min(nbyte, |q.contents|);
      && r.writeBlock == q.writeBlock && r.size == q.size
      && if q.pendingRead.Some? then r == q && reply == Reply(Busy, [], Nothing)
         else
           && reply.data == q.contents[..n]
           && reply.result == (if nbyte > 0 && n == 0 && nonBlocking then Again else Bytes(n))
           && r.pendingRead == (if nbyte > 0 && reply.result == Bytes(0) then Some(nbyte) else None)
           && (n == 0 ==> r == q.(pendingRead := r.pendingRead) && reply.done.Nothing?)
           && (n > 0 ==> Completes(q.(contents := q.contents[n..]), r, reply.done, q.writeBlock))
  {
    if q.pendingRead.None? && ReadCount(q, nbyte) > 0 {
      TransmittedCompletes(AfterRead(q, nbyte));
    }
  }

  /** A waiting read is handed what there is as soon as a write brings something, and is told how much. */
  lemma WaitingReadPromise(q: Queue, data: seq<byte>, nonBlocking: bool)
    requires Inv(q) && q.pendingRead.Some?
    ensures var (r, reply) := Step(q, Write(data, nonBlocking));
      var stored := AfterWrite(q, data, nonBlocking || q.writeBlock).contents;
      var n := Min(q.pendingRead.value, |stored|);
      if data == [] then reply.done.Nothing? else reply.done == ReadDone(n, stored[..n]) && n > 0
  {
    SlotsExclusive(q);
    var blocked := nonBlocking || q.writeBlock;
    if data != [] {
      WriteTakesNothing(q, data, blocked);
      WriteStores(q, data, blocked);
    }
  }

  /** What is ready is what was accepted and has not left; the flag tells of drops since it was last asked for. */
  lemma InfoPromise(q: Queue)
    requires Inv(q)
    ensures var (r, reply) := Step(q, GetInfo);
      && r == q.(overflow := false, cleared := |q.fates|) && reply.data == [] && reply.done.Nothing?
      && reply.result.Info? && reply.result.size == q.size && reply.result.ready == |q.accepted| - |q.fates|
      && (reply.result.overflow <==> exists i :: q.cleared <= i < |q.fates| && q.fates[i].way.Dropped?)
  {}

  /** Everything stored is gone, for no reader, the overflow flag starts anew, and a waiting write is taken up. */
  lemma FlushPromise(q: Queue)
    requires Inv(q)
    ensures var (r, reply) := Step(q, Flush);
      && Completes(q.(contents := []), r, reply.done, q.writeBlock) && reply.result == Bytes(0) && reply.data == []
      && q.fates + Fates(q.contents, Flushed) <= r.fates && r.pendingRead == q.pendingRead
      && r.writeBlock == q.writeBlock && r.size == q.size && r.cleared == |q.fates| + |q.contents|
  {
    var q1 := AfterFlush(q);
    assert q.contents[..|q.contents|] == q.contents && q1.contents == [];
    TransmittedCompletes(q1);
    if q1.pendingWrite.Some? {
      WriteExtends(q1, q1.pendingWrite.value, q1.writeBlock);
    }
  }

  lemma {:induction false} WriteExtends(q: Queue, data: seq<byte>, blocked: bool)
    requires 1 <= q.size && |q.contents| <= q.size
    ensures q.fates <= AfterWrite(q, data, blocked).fates
    decreases |data|
  {
    if data != [] && !(blocked && |q.contents| == q.size) {
      WriteExtends(PushOne(q, data[0]), data[1..], blocked);
    }
  }

  /** The same, and both who wait are forgotten. */
  lemma InitPromise(q: Queue)
    requires Inv(q)
    ensures var (r, reply) := Step(q, Init);
      && r.accepted == q.accepted && r.contents == [] && r.fates == q.fates + Fates(q.contents, Flushed)
      && r.pendingRead.None? && r.pendingWrite.None? && !r.overflow && reply == Reply(Bytes(0), [], Nothing)
      && r.writeBlock == q.writeBlock && r.size == q.size
  {
    assert q.contents[..|q.contents|] == q.contents;
  }

  /** The mode is what was asked for, and a writer that waits is taken up whenever the mode then is write-block. */
  lemma SetAttrPromise(q: Queue, init: bool, setWriteBlock: bool, allowOverflow: bool)
    requires Inv(q)
    ensures var (r, reply) := Step(q, SetAttr(init, setWriteBlock, allowOverflow));
      var mode := if setWriteBlock then !allowOverflow else q.writeBlock;
      var q1 := if init then Step(q, Init).0 else q;
      && r.writeBlock == mode && r.size == q.size && reply.result == Bytes(0) && reply.data == []
      && if mode then Completes(q1, r, reply.done, true) && r.pendingRead == q1.pendingRead
         else r == q1.(writeBlock := false) && reply.done.Nothing?
  {
    InitStepKeeps(q);
    var q1 := if init then InitStep(q).0 else q;
    var mode := if setWriteBlock then !allowOverflow else q.writeBlock;
    if mode {
      TransmittedCompletes(q1.(writeBlock := true));
    }
  }

  /** Cancelling what waits to be written, whichever event is named; nothing else happens. */
  lemma SetActionPromise(q: Queue, cancel: bool, onWrite: bool, onRead: bool)
    requires Inv(q)
    ensures var (r, reply) := Step(q, SetAction(cancel, onWrite, onRead));
      var hit := cancel && (onWrite || onRead) && q.pendingWrite.Some?;
      && r == (if hit then q.(pendingWrite := None) else q)
      && reply == Reply(if cancel then Bytes(0) else NotSupported, [], if hit then WriteCanceled else Nothing)
  {}

  // ---- writers are told the truth ----

  /** The bytes writers are told were written: the caller's, or those of the write it completes. */
  function Told(q: Queue, op: Op): seq<byte>
    requires 1 <= q.size && |q.contents| <= q.size
  {
    var reply := Step(q, op).1;
    (if op.Write? && reply.result.Bytes? && reply.result.n <= |op.bytes| then op.bytes[..reply.result.n] else []) +
    (if q.pendingWrite.Some? && reply.done.WriteDone? && reply.done.result <= |q.pendingWrite.value|
     then q.pendingWrite.value[..reply.done.result] else [])
  }

  lemma AddNothing(a: seq<byte>)
    ensures a + [] == a && [] + a == a
  {}

  lemma ToldByCompletion(q: Queue, r: Queue, done: Completion, blocked: bool, told: seq<byte>)
    requires Completes(q, r, done, blocked)
    requires told == if q.pendingWrite.Some? && done.WriteDone? && done.result <= |q.pendingWrite.value|
                     then q.pendingWrite.value[..done.result] else []
    requires q.pendingWrite.Some? ==> q.pendingWrite.value != []
    ensures r.accepted == q.accepted + told <==> !(q.pendingWrite.Some? && blocked && |q.contents| == q.size)
    ensures |r.accepted| <= |q.accepted| + |told|
    ensures r.accepted != q.accepted + told ==> |r.accepted| < |q.accepted| + |told|
  {
    AddNothing(q.accepted);
    if q.pendingWrite.Some? {
      assert q.pendingWrite.value[..0] == [];
    }
  }

  /** Of one operation: what writers are told is what was accepted, unless it is the false completion. */
  ghost predicate Honest(q: Queue, op: Op)
    requires 1 <= q.size && |q.contents| <= q.size
  {
    var r := Step(q, op).0;
    && (r.accepted == q.accepted + Told(q, op) <==> !FalseCompletion(q, op))
    && (FalseCompletion(q, op) ==> |r.accepted| < |q.accepted| + |Told(q, op)|)
  }

  lemma WriteTold(q: Queue, data: seq<byte>, nonBlocking: bool)
    requires Inv(q)
    ensures Honest(q, Write(data, nonBlocking))
  {
    WritePromise(q, data, nonBlocking);
    AddNothing(q.accepted);
    var reply := Step(q, Write(data, nonBlocking)).1;
    assert data[..0] == [];
    if reply.result.Bytes? && reply.result.n <= |data| {
      AddNothing(data[..reply.result.n]);
    }
  }

  lemma ReadTold(q: Queue, nbyte: nat, nonBlocking: bool)
    requires Inv(q)
    ensures Honest(q, Read(nbyte, nonBlocking))
  {
    ReadPromise(q, nbyte, nonBlocking);
    AddNothing(q.accepted);
    var n := Min(nbyte, |q.contents|);
    var (r, reply) := Step(q, Read(nbyte, nonBlocking));
    if q.pendingRead.None? && n > 0 {
      var q1 := q.(contents := q.contents[n..]);
      ToldByCompletion(q1, r, reply.done, q.writeBlock, Told(q, Read(nbyte, nonBlocking)));
    }
  }

  lemma FlushTold(q: Queue)
    requires Inv(q)
    ensures Honest(q, Flush)
  {
    FlushPromise(q);
    var (r, reply) := Step(q, Flush);
    ToldByCompletion(q.(contents := []), r, reply.done, q.writeBlock, Told(q, Flush));
  }

  lemma SetAttrTold(q: Queue, init: bool, setWriteBlock: bool, allowOverflow: bool)
    requires Inv(q)
    ensures Honest(q, SetAttr(init, setWriteBlock, allowOverflow))
  {
    SetAttrPromise(q, init, setWriteBlock, allowOverflow);
    InitPromise(q);
    AddNothing(q.accepted);
    var op := SetAttr(init, setWriteBlock, allowOverflow);
    var (r, reply) := Step(q, op);
    if (if setWriteBlock then !allowOverflow else q.writeBlock) && !init {
      ToldByCompletion(q, r, reply.done, true, Told(q, op));
    }
  }

  lemma StepTold(q: Queue, op: Op)
    requires Inv(q)
    ensures Honest(q, op)
  {
    AddNothing(q.accepted);
    match op
    case Read(nbyte, nonBlocking) => ReadTold(q, nbyte, nonBlocking);
    case Write(data, nonBlocking) => WriteTold(q, data, nonBlocking);
    case GetInfo =>
    case Flush => FlushTold(q);
    case Init => InitPromise(q);
    case SetAttr(init, setWriteBlock, allowOverflow) => SetAttrTold(q, init, setWriteBlock, allowOverflow);
    case SetAction(_, _, _) =>
  }

  /** Everything writers are told over a run. */
  function ToldAll(q: Queue, ops: seq<Op>): seq<byte>
    requires Inv(q)
    decreases |ops|
  {
    if ops == [] then []
    else
      StepKeeps(q, ops[0]);
      Told(q, ops[0]) + ToldAll(Step(q, ops[0]).0, ops[1..])
  }

  ghost predicate NoFalseCompletion(q: Queue, ops: seq<Op>)
    requires Inv(q)
    decreases |ops|
  {
    ops == [] ||
    (StepKeeps(q, ops[0]); !FalseCompletion(q, ops[0]) && NoFalseCompletion(Step(q, ops[0]).0, ops[1..]))
  }

  lemma Join(a: seq<byte>, b: seq<byte>, c: seq<byte>)
    ensures (a + b) + c == a + (b + c)
  {}

  /** Never fewer bytes are told than taken, and as many only without a false completion. */
  lemma {:induction false} RunToldLength(q: Queue, ops: seq<Op>)
    requires Inv(q)
    ensures |Run(q, ops).0.accepted| <= |q.accepted| + |ToldAll(q, ops)|
    ensures |Run(q, ops).0.accepted| == |q.accepted| + |ToldAll(q, ops)| ==> NoFalseCompletion(q, ops)
    decreases |ops|
  {
    if ops == [] {
    } else {
      StepKeeps(q, ops[0]);
      StepTold(q, ops[0]);
      RunToldLength(Step(q, ops[0]).0, ops[1..]);
    }
  }

  lemma {:induction false} RunToldTaken(q: Queue, ops: seq<Op>)
    requires Inv(q) && NoFalseCompletion(q, ops)
    ensures Run(q, ops).0.accepted == q.accepted + ToldAll(q, ops)
    decreases |ops|
  {
    if ops == [] {
      AddNothing(q.accepted);
    } else {
      StepKeeps(q, ops[0]);
      StepTold(q, ops[0]);
      RunToldTaken(Step(q, ops[0]).0, ops[1..]);
      Join(q.accepted, Told(q, ops[0]), ToldAll(Step(q, ops[0]).0, ops[1..]));
    }
  }

  /** Over every run writers are told exactly the bytes taken, in order, if and only if there is no false completion. */
  lemma RunTold(q: Queue, ops: seq<Op>)
    requires Inv(q)
    ensures Run(q, ops).0.accepted == q.accepted + ToldAll(q, ops) <==> NoFalseCompletion(q, ops)
  {
    RunToldLength(q, ops);
    if NoFalseCompletion(q, ops) {
      RunToldTaken(q, ops);
    }
  }
}
