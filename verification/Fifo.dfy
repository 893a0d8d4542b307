/**
 The byte FIFO device: a ring buffer with a parked tail, two transfer slots, and the mode
 and overflow flags. Each operation is proved to do to the ring what `FifoQueue` says it
 does to the queue.
 */
module Fifo {
  import opened Common
  import opened FifoQueue
  import Ring

  /** One byte out of the queue. */
  function PopOne(q: Queue): Queue
    requires q.contents != []
  {
    q.(contents := q.contents[1..], fates := q.fates + [Fate(q.contents[0], Delivered)])
  }

  lemma AfterReadSnoc(q: Queue, i: nat)
    requires i < |q.contents|
    ensures AfterRead(q, i).contents == q.contents[i..]
    ensures AfterRead(q, i + 1) == PopOne(AfterRead(q, i))
  {
    assert q.contents[..i + 1] == q.contents[..i] + [q.contents[i]];
    assert q.contents[i + 1..] == q.contents[i..][1..];
    assert q.fates + Fates(q.contents[..i + 1], Delivered)
        == (q.fates + Fates(q.contents[..i], Delivered)) + [Fate(q.contents[i], Delivered)];
  }

  lemma ReadOneMore(q: Queue, i: nat)
    requires i <= |q.contents|
    ensures AfterRead(q, i).contents == [] ==> i == |q.contents|
    ensures AfterRead(q, i).contents != [] ==> i < |q.contents| && AfterRead(q, i + 1) == PopOne(AfterRead(q, i))
    ensures AfterRead(q, i).contents != [] ==> q.contents[..i + 1] == q.contents[..i] + [AfterRead(q, i).contents[0]]
  {
    assert AfterRead(q, i).contents == q.contents[i..];
    if i < |q.contents| {
      AfterReadSnoc(q, i);
    }
  }

  lemma AfterReadNone(q: Queue)
    ensures AfterRead(q, 0) == q
  {
    assert q.contents[0..] == q.contents;
    assert q.fates + Fates(q.contents[..0], Delivered) == q.fates;
  }

  class Device {
    const buffer: array<byte>
    var head: nat
    var tail: nat
    var writeBlock: bool
    var overflow: bool
    var readBusy: bool
    var pendingRead: Option<nat>
    var pendingWrite: Option<seq<byte>>
    ghost var accepted: seq<byte>
    ghost var fates: seq<Fate>
    ghost var cleared: nat

    ghost predicate Valid()
      reads this
    {
      1 <= buffer.Length <= 65535 && Ring.InRing(buffer.Length, head, tail) && !readBusy
    }

    /** The queue the ring stands for. */
    ghost function Abs(): Queue
      requires Ring.InRing(buffer.Length, head, tail)
      reads this, buffer
    {
      Queue(buffer.Length, Ring.Contents(buffer[..], head, tail), writeBlock, overflow,
            pendingRead, pendingWrite, accepted, fates, cleared)
    }

    constructor (size: nat, block: bool)
      requires 1 <= size <= 65535
      ensures Valid() && fresh(buffer) && Inv(Abs())
      ensures Abs() == Queue(size, [], block, false, None, None, [], [], 0)
    {
      buffer := new byte[size](_ => 0);
      head, tail, writeBlock, overflow, readBusy := 0, 0, block, false, false;
      pendingRead, pendingWrite := None, None;
      accepted, fates, cleared := [], [], 0;
    }

    /** `fifo_inc_head` */
    method IncHead()
      requires Ring.InRing(buffer.Length, head, tail)
      modifies `head, `tail
      ensures head == Ring.Next(old(head), buffer.Length)
      ensures tail == Ring.TailAfterPush(head, old(tail), buffer.Length)
    {
      head := head + 1;
      if head == buffer.Length {
        head := 0;
      }
      if head == tail {
        tail := buffer.Length;
      }
    }

    /** `fifo_is_write_ok`; its inner test of the busy flag is never true there and is not repeated. */
    method IsWriteOk(block: bool) returns (ok: bool)
      modifies `overflow
      ensures ok <==> tail != buffer.Length || (!block && !readBusy)
      ensures overflow == (old(overflow) || (ok && tail == buffer.Length))
    {
      ok := true;
      if tail == buffer.Length {
        if block || readBusy {
          ok := false;
        } else {
          overflow := true;
        }
      }
    }

    /** One iteration of `fifo_write_buffer`. */
    method PutByte(x: byte, block: bool) returns (ok: bool)
      requires Valid()
      modifies this, buffer
      ensures Valid() && writeBlock == old(writeBlock)
      ensures |old(Abs()).contents| <= buffer.Length
      ensures ok <==> |old(Abs()).contents| < buffer.Length || !block
      ensures Abs() == if ok then PushOne(old(Abs()), x) else old(Abs())
    {
      ghost var q, b, h, t := Abs(), buffer[..], head, tail;
      Ring.CountSpec(b, h, t);
      ok := IsWriteOk(block);
      if ok {
        Ring.Push(b, h, t, x);
        buffer[head] := x;
        assert buffer[..] == b[h := x];
        if t == buffer.Length {
          fates := fates + [Fate(q.contents[0], Dropped)];
        }
        accepted := accepted + [x];
        IncHead();
      }
    }

    /** `fifo_write_buffer` */
    method WriteBuffer(data: seq<byte>, nonBlocking: bool) returns (i: nat)
      requires Valid()
      modifies this, buffer
      ensures Valid() && |old(Abs()).contents| <= buffer.Length
      ensures var blocked := nonBlocking || old(writeBlock);
        i == WriteCount(old(Abs()), data, blocked) && Abs() == AfterWrite(old(Abs()), data, blocked)
    {
      Ring.CountSpec(buffer[..], head, tail);
      ghost var q := Abs();
      var block := true;
      if !nonBlocking {
        block := writeBlock;
      }
      i := 0;
      while i < |data|
        invariant Valid() && i <= |data| && |Abs().contents| <= buffer.Length
        invariant i + WriteCount(Abs(), data[i..], block) == WriteCount(q, data, block)
        invariant AfterWrite(Abs(), data[i..], block) == AfterWrite(q, data, block)
      {
        assert data[i..][1..] == data[i + 1..];
        var ok := PutByte(data[i], block);
        if !ok {
          break;
        }
        i := i + 1;
      }
    }

    /** One iteration of `fifo_read_buffer`, uninterrupted. */
    method GetByte() returns (got: bool, x: byte)
      requires Valid()
      modifies this
      ensures Valid() && (got <==> old(Abs()).contents != [])
      ensures got ==> x == old(Abs()).contents[0] && Abs() == PopOne(old(Abs()))
      ensures !got ==> Abs() == old(Abs())
    {
      x := 0;
      readBusy := true;
      var h, t := head, tail;
      Ring.CountSpec(buffer[..], h, t);
      got := h != t;
      if got {
        Ring.Pop(buffer[..], h, t);
        if t == buffer.Length {
          t := h;
        }
        x := buffer[t];
        fates := fates + [Fate(x, Delivered)];
        t := t + 1;
        if t == buffer.Length {
          t := 0;
        }
        tail := t;
      }
      readBusy := false;
    }

    /** `fifo_read_buffer`, uninterrupted. */
    method ReadBuffer(nbyte: nat) returns (buf: seq<byte>)
      requires Valid()
      modifies this
      ensures Valid()
      ensures buf == old(Abs()).contents[..ReadCount(old(Abs()), nbyte)]
      ensures Abs() == AfterRead(old(Abs()), nbyte)
    {
      ghost var q := Abs();
      buf := [];
      AfterReadNone(q);
      for i := 0 to nbyte
        invariant Valid() && i <= |q.contents|
        invariant buf == q.contents[..i] && Abs() == AfterRead(q, i)
      {
        ReadOneMore(q, i);
        var got, x := GetByte();
        if !got {
          break;
        }
        buf := buf + [x];
      }
    }

    /** `fifo_flush` */
    method FlushRing()
      requires Valid()
      modifies this
      ensures Valid() && Abs() == AfterFlush(old(Abs()))
    {
      ghost var q := Abs();
      fates := fates + Fates(q.contents, Flushed);
      assert q.contents[..|q.contents|] == q.contents;
      head, tail, overflow := 0, 0, false;
      cleared := |fates|;
    }

    /** `fifo_getinfo`: the count is taken from the positions, and the overflow flag is cleared. */
    method GetInfo() returns (reply: Reply)
      requires Valid()
      modifies this
      ensures Valid() && |old(Abs()).contents| <= buffer.Length
      ensures (Abs(), reply) == Step(old(Abs()), Op.GetInfo)
    {
      Ring.CountSpec(buffer[..], head, tail);
      var ready;
      if tail == buffer.Length {
        ready := buffer.Length;
      } else if head >= tail {
        ready := head - tail;
      } else {
        ready := buffer.Length - tail + head;
      }
      reply := Reply(Info(buffer.Length, ready, overflow), [], Nothing);
      overflow, cleared := false, |fates|;
    }

    /** `fifo_data_received` and `devfs_execute_read_handler` */
    method CompleteRead() returns (done: Completion)
      requires Valid()
      modifies this
      ensures Valid() && (Abs(), done) == DataReceived(old(Abs()))
    {
      done := Nothing;
      if pendingRead.Some? {
        var nbyte := pendingRead.value;
        var data := ReadBuffer(nbyte);
        pendingRead := None;
        done := ReadDone(if |data| == 0 then nbyte else |data|, data);
      }
    }

    /** `fifo_data_transmitted` and `devfs_execute_write_handler` */
    method CompleteWrite() returns (done: Completion)
      requires Valid()
      modifies this, buffer
      ensures Valid() && |old(Abs()).contents| <= buffer.Length
      ensures (Abs(), done) == DataTransmitted(old(Abs()))
    {
      Ring.CountSpec(buffer[..], head, tail);
      done := Nothing;
      if pendingWrite.Some? {
        var data := pendingWrite.value;
        var written := WriteBuffer(data, false);
        pendingWrite := None;
        done := WriteDone(if written == 0 then |data| else written, written);
      }
    }

    /** `fifo_read` */
    method ReadLocal(nbyte: nat, nonBlocking: bool) returns (reply: Reply)
      requires Valid()
      modifies this, buffer
      ensures Valid() && |old(Abs()).contents| <= buffer.Length
      ensures (Abs(), reply) == ReadStep(old(Abs()), nbyte, nonBlocking)
    {
      Ring.CountSpec(buffer[..], head, tail);
      if pendingRead.Some? {
        return Reply(Busy, [], Nothing);
      }
      if nbyte == 0 {
        return Reply(Bytes(0), [], Nothing);
      }
      ghost var q := Abs();
      pendingRead := Some(nbyte);
      var data := ReadBuffer(nbyte);
      ghost var q1 := Abs();
      Ring.CountSpec(buffer[..], head, tail);
      ReadWithSlot(q, nbyte, nonBlocking, q1, data);
      if |data| == 0 {
        if nonBlocking || tail == buffer.Length {
          pendingRead := None;
          return Reply(Again, [], Nothing);
        }
        return Reply(Bytes(0), [], Nothing);
      }
      var done := CompleteWrite();
      pendingRead := None;
      return Reply(Bytes(|data|), data, done);
    }

    /** `fifo_write` */
    method WriteLocal(data: seq<byte>, nonBlocking: bool) returns (reply: Reply)
      requires Valid()
      modifies this, buffer
      ensures Valid() && |old(Abs()).contents| <= buffer.Length
      ensures (Abs(), reply) == WriteStep(old(Abs()), data, nonBlocking)
    {
      Ring.CountSpec(buffer[..], head, tail);
      if pendingWrite.Some? {
        return Reply(Busy, [], Nothing);
      }
      if |data| == 0 {
        return Reply(Bytes(0), [], Nothing);
      }
      ghost var q := Abs();
      pendingWrite := Some(data);
      var written := WriteBuffer(data, nonBlocking);
      ghost var q1 := Abs();
      WriteWithSlot(q, data, nonBlocking, q1, written);
      if written == 0 {
        if nonBlocking && writeBlock {
          pendingWrite := None;
          return Reply(Again, [], Nothing);
        }
        return Reply(Bytes(0), [], Nothing);
      }
      var done := CompleteRead();
      pendingWrite := None;
      return Reply(Bytes(written), [], done);
    }

    /** `fifo_ioctl`, flush and initialise. */
    method Empty(init: bool) returns (reply: Reply)
      requires Valid()
      modifies this, buffer
      ensures Valid()
      ensures (Abs(), reply) == if init then InitStep(old(Abs())) else FlushStep(old(Abs()))
    {
      if init {
        pendingRead, pendingWrite := None, None;
      }
      FlushRing();
      var done := CompleteWrite();
      return Reply(Bytes(0), [], done);
    }

    /** `fifo_ioctl`, set attributes. */
    method SetAttr(init: bool, setWriteBlock: bool, allowOverflow: bool) returns (reply: Reply)
      requires Valid()
      modifies this, buffer
      ensures Valid() && |old(Abs()).contents| <= buffer.Length
      ensures (Abs(), reply) == SetAttrStep(old(Abs()), init, setWriteBlock, allowOverflow)
    {
      Ring.CountSpec(buffer[..], head, tail);
      if init {
        reply := Empty(true);
      }
      if setWriteBlock {
        writeBlock := !allowOverflow;
      }
      var done := Nothing;
      if writeBlock {
        done := CompleteWrite();
      }
      return Reply(Bytes(0), [], done);
    }

    /** `fifo_ioctl`, set action: both events cancel the pending write. */
    method SetAction(cancel: bool, onWrite: bool, onRead: bool) returns (reply: Reply)
      requires Valid()
      modifies this
      ensures Valid() && (Abs(), reply) == SetActionStep(old(Abs()), cancel, onWrite, onRead)
    {
      if !cancel {
        return Reply(NotSupported, [], Nothing);
      }
      var done := Nothing;
      if onWrite && pendingWrite.Some? {
        pendingWrite, done := None, WriteCanceled;
      }
      if onRead && pendingWrite.Some? {
        pendingWrite, done := None, WriteCanceled;
      }
      return Reply(Bytes(0), [], done);
    }

    method Execute(op: Op) returns (reply: Reply)
      requires Valid()
      modifies this, buffer
      ensures Valid() && |old(Abs()).contents| <= buffer.Length
      ensures (Abs(), reply) == Step(old(Abs()), op)
    {
      Ring.CountSpec(buffer[..], head, tail);
      match op {
        case Read(nbyte, nonBlocking) => reply := ReadLocal(nbyte, nonBlocking);
        case Write(bytes, nonBlocking) => reply := WriteLocal(bytes, nonBlocking);
        case GetInfo => reply := GetInfo();
        case Flush => reply := Empty(false);
        case Init => reply := Empty(true);
        case SetAttr(init, setWriteBlock, allowOverflow) => reply := SetAttr(init, setWriteBlock, allowOverflow);
        case SetAction(cancel, onWrite, onRead) => reply := SetAction(cancel, onWrite, onRead);
      }
    }

    /** Any run of operations on the ring is the same run on the queue. */
    method ExecuteAll(ops: seq<Op>) returns (replies: seq<Reply>)
      requires Valid() && Inv(Abs())
      modifies this, buffer
      ensures Valid() && Inv(Abs()) && (Abs(), replies) == Run(old(Abs()), ops)
      decreases |ops|
    {
      if |ops| == 0 {
        return [];
      }
      StepKeeps(Abs(), ops[0]);
      var reply := Execute(ops[0]);
      var rest := ExecuteAll(ops[1..]);
      return [reply] + rest;
    }
  }

  /** The source takes the read slot before it knows whether it will wait; the slot does not disturb the rest. */
  lemma ReadWithSlot(q: Queue, nbyte: nat, nonBlocking: bool, q1: Queue, data: seq<byte>)
    requires 1 <= q.size && |q.contents| <= q.size && q.pendingRead.None? && nbyte > 0
    requires q1 == AfterRead(q.(pendingRead := Some(nbyte)), nbyte) && data == q.contents[..ReadCount(q, nbyte)]
    ensures |q1.contents| <= q1.size
    ensures ReadStep(q, nbyte, nonBlocking) ==
      if data == [] then
        if nonBlocking || |q1.contents| == q.size then (q1.(pendingRead := None), Reply(Again, [], Nothing))
        else (q1, Reply(Bytes(0), [], Nothing))
      else
        var (q2, done) := DataTransmitted(q1);
        (q2.(pendingRead := None), Reply(Bytes(|data|), data, done))
  {
    AfterReadSlot(q, nbyte);
    if data == [] {
      AfterReadNone(q);
    } else {
      TransmittedSlot(AfterRead(q, nbyte), nbyte);
    }
  }

  lemma AfterReadSlot(q: Queue, nbyte: nat)
    ensures AfterRead(q.(pendingRead := Some(nbyte)), nbyte) == AfterRead(q, nbyte).(pendingRead := Some(nbyte))
  {}

  lemma TransmittedSlot(q: Queue, nbyte: nat)
    requires 1 <= q.size && |q.contents| <= q.size && q.pendingRead.None?
    ensures var r := DataTransmitted(q.(pendingRead := Some(nbyte)));
      DataTransmitted(q) == (r.0.(pendingRead := None), r.1)
  {
    if q.pendingWrite.Some? {
      AfterWriteReadSlot(q, q.pendingWrite.value, nbyte, q.writeBlock);
    }
  }

  lemma {:induction false} AfterWriteReadSlot(q: Queue, data: seq<byte>, slot: nat, blocked: bool)
    requires 1 <= q.size && |q.contents| <= q.size
    ensures AfterWrite(q.(pendingRead := Some(slot)), data, blocked)
         == AfterWrite(q, data, blocked).(pendingRead := Some(slot))
    decreases |data|
  {
    if data != [] && !(blocked && |q.contents| == q.size) {
      AfterWriteReadSlot(PushOne(q, data[0]), data[1..], slot, blocked);
    }
  }

  lemma WriteWithSlot(q: Queue, data: seq<byte>, nonBlocking: bool, q1: Queue, written: nat)
    requires 1 <= q.size && |q.contents| <= q.size && q.pendingWrite.None? && data != []
    requires q1 == AfterWrite(q.(pendingWrite := Some(data)), data, nonBlocking || q.writeBlock)
    requires written == WriteCount(q, data, nonBlocking || q.writeBlock)
    ensures WriteStep(q, data, nonBlocking) ==
      if written == 0 then
        if nonBlocking && q.writeBlock then (q1.(pendingWrite := None), Reply(Again, [], Nothing))
        else (q1, Reply(Bytes(0), [], Nothing))
      else
        var (q2, done) := DataReceived(q1);
        (q2.(pendingWrite := None), Reply(Bytes(written), [], done))
  {
    var blocked := nonBlocking || q.writeBlock;
    AfterWriteSlot(q, data, data, blocked);
    if written != 0 {
      ReceivedSlot(AfterWrite(q, data, blocked), data);
    }
  }

  lemma {:induction false} AfterWriteSlot(q: Queue, data: seq<byte>, slot: seq<byte>, blocked: bool)
    requires 1 <= q.size && |q.contents| <= q.size
    ensures AfterWrite(q.(pendingWrite := Some(slot)), data, blocked)
         == AfterWrite(q, data, blocked).(pendingWrite := Some(slot))
    decreases |data|
  {
    if data != [] && !(blocked && |q.contents| == q.size) {
      AfterWriteSlot(PushOne(q, data[0]), data[1..], slot, blocked);
    }
  }

  lemma ReceivedSlot(q: Queue, data: seq<byte>)
    requires q.pendingWrite.None?
    ensures var r := DataReceived(q.(pendingWrite := Some(data)));
      DataReceived(q) == (r.0.(pendingWrite := None), r.1)
  {}
}
