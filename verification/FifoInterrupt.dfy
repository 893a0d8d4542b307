/**
 `fifo_read_buffer` interrupted between any two of its steps by runs of
 `fifo_write_buffer`. A flag update is a load and a store of the flag word, so an interrupt
 can fall inside it.
 */
module FifoInterrupt {
  import opened Common
  import opened FifoQueue
  import Ring

  /** The flag word. */
  datatype Flags = Flags(writeBlock: bool, overflow: bool, readBusy: bool, writeWhileReadBusy: bool)

  /** Memory shared by the reader and the interrupting writer, and the history of the bytes. */
  datatype Shared = Shared(buf: seq<byte>, head: nat, tail: nat, flags: Flags, accepted: seq<byte>, fates: seq<Fate>)

  /** Where the reader is: the next step it takes. */
  datatype Pc =
    | Check | LoadBusy | StoreBusy | Snapshot | Test | ReadByte | Advance | StoreTail
    | TestClobbered | MarkFull | LoadClear | StoreClear | LoadClearEmpty | StoreClearEmpty | Returned

  /** Locals of the reader: the loop counter, a flag register, the position snapshot, the bytes read. */
  datatype Reader = Reader(pc: Pc, nbyte: nat, i: nat, register: Flags, posHead: nat, posTail: nat,
                           out: seq<byte>, clobbered: bool)

  datatype Machine = Machine(shared: Shared, reader: Reader)

  datatype Event = ReaderStep | WriteBurst(data: seq<byte>, nonBlocking: bool)

  ghost predicate InRing(s: Shared)
  {
    Ring.InRing(|s.buf|, s.head, s.tail)
  }

  function Stored(s: Shared): seq<byte>
    requires InRing(s)
  {
    Ring.Contents(s.buf, s.head, s.tail)
  }

  // ---- the interrupting writer ----

  /** `fifo_is_write_ok`, then one byte at the head; `None` when the write is refused. */
  function Put(s: Shared, x: byte, block: bool): Option<Shared>
    requires InRing(s)
  {
    var full := s.tail == |s.buf|;
    if full && (block || s.flags.readBusy) then None
    else
      var flags := if !full then s.flags else
        s.flags.(overflow := true, writeWhileReadBusy := s.flags.writeWhileReadBusy || s.flags.readBusy);
      var head := Ring.Next(s.head, |s.buf|);
      Some(Shared(s.buf[s.head := x], head, Ring.TailAfterPush(head, s.tail, |s.buf|), flags, s.accepted + [x],
                  if full then s.fates + [Fate(s.buf[s.head], Dropped)] else s.fates))
  }

  function Burst(s: Shared, data: seq<byte>, block: bool): (r: Shared)
    requires InRing(s)
    ensures InRing(r) && |r.buf| == |s.buf|
    decreases |data|
  {
    if data == [] then s
    else
      var s1 := Put(s, data[0], block);
      if s1.None? then s else Burst(s1.value, data[1..], block)
  }

  // ---- the reader ----

  function Step(m: Machine): Machine
    requires InRing(m.shared)
    requires m.reader.pc.ReadByte? ==> m.reader.posTail < |m.shared.buf|
  {
    var s, r := m.shared, m.reader;
    var size := |s.buf|;
    match r.pc
    case Check => m.(reader := r.(pc := if r.i < r.nbyte then LoadBusy else Returned))
    case LoadBusy => m.(reader := r.(pc := StoreBusy, register := s.flags))
    case StoreBusy => Machine(s.(flags := r.register.(readBusy := true)), r.(pc := Snapshot))
    case Snapshot => m.(reader := r.(pc := Test, posHead := s.head, posTail := s.tail))
    case Test =>
      if r.posHead != r.posTail then
        m.(reader := r.(pc := ReadByte, posTail := if r.posTail == size then r.posHead else r.posTail))
      else m.(reader := r.(pc := LoadClearEmpty))
    case ReadByte => m.(reader := r.(pc := Advance, out := r.out + [s.buf[r.posTail]]))
    case Advance => m.(reader := r.(pc := StoreTail, posTail := Ring.Next(r.posTail, size)))
    case StoreTail =>
      var fates := if r.out == [] then s.fates else s.fates + [Fate(r.out[|r.out| - 1], Delivered)];
      Machine(s.(tail := r.posTail, fates := fates), r.(pc := TestClobbered))
    case TestClobbered =>
      if s.flags.writeWhileReadBusy then m.(reader := r.(pc := MarkFull, clobbered := true))
      else m.(reader := r.(pc := LoadClear))
    case MarkFull => Machine(s.(tail := size), r.(pc := LoadClear))
    case LoadClear => m.(reader := r.(pc := StoreClear, register := s.flags))
    case StoreClear =>
      Machine(s.(flags := r.register.(readBusy := false, writeWhileReadBusy := false)),
              if r.clobbered then r.(pc := Returned) else r.(pc := Check, i := r.i + 1))
    case LoadClearEmpty => m.(reader := r.(pc := StoreClearEmpty, register := s.flags))
    case StoreClearEmpty =>
      Machine(s.(flags := r.register.(readBusy := false, writeWhileReadBusy := false)), r.(pc := Returned))
    case Returned => m
  }

  function Next(m: Machine, e: Event): Machine
    requires InRing(m.shared)
    requires m.reader.pc.ReadByte? ==> m.reader.posTail < |m.shared.buf|
  {
    match e
    case ReaderStep => Step(m)
    case WriteBurst(data, nonBlocking) =>
      m.(shared := Burst(m.shared, data, nonBlocking || m.shared.flags.writeBlock))
  }

  // ---- what every step keeps ----

  /** Between the store of the busy flag and the store that clears it. */
  predicate Busy(pc: Pc)
  {
    !(pc.Check? || pc.LoadBusy? || pc.StoreBusy? || pc.Returned?)
  }

  /** The reader has decided on a byte and not yet released its slot. */
  predicate Holding(pc: Pc)
  {
    pc.ReadByte? || pc.Advance? || pc.StoreTail?
  }

  /** Bytes this call has taken from the ring. */
  function Taken(r: Reader): nat
  {
    if r.pc.TestClobbered? || r.pc.LoadClear? || r.pc.StoreClear? then r.i + 1 else r.i
  }

  /** The slot the reader holds is the oldest one, and what it has copied is the oldest byte. */
  ghost predicate HeldSlot(s: Shared, r: Reader)
    requires InRing(s)
  {
    var oldest := Ring.Oldest(s.head, s.tail, |s.buf|);
    && (r.pc.Test? && r.posHead != r.posTail ==>
          s.head != s.tail && r.posHead < |s.buf| && (if r.posTail == |s.buf| then r.posHead else r.posTail) == oldest)
    && (Holding(r.pc) ==>
          s.head != s.tail && r.posTail == (if r.pc.StoreTail? then Ring.Next(oldest, |s.buf|) else oldest))
    && (r.pc.Advance? || r.pc.StoreTail? ==>
          r.out != [] && Stored(s) != [] && r.out[|r.out| - 1] == Stored(s)[0])
  }

  ghost predicate Inv(m: Machine, delivered: seq<byte>)
  {
    var s, r := m.shared, m.reader;
    && InRing(s)
    && s.accepted == BytesOf(s.fates) + Stored(s)
    && s.flags.readBusy == Busy(r.pc) && !s.flags.writeWhileReadBusy && !r.clobbered && !r.pc.MarkFull?
    && (r.pc.StoreBusy? ==> r.register.writeBlock == s.flags.writeBlock && !r.register.writeWhileReadBusy)
    && (r.pc.StoreClear? || r.pc.StoreClearEmpty? ==> r.register == s.flags)
    && |r.out| == Taken(r) + (if r.pc.Advance? || r.pc.StoreTail? then 1 else 0) && r.i <= r.nbyte
    && (!r.pc.Check? && !r.pc.Returned? ==> r.i < r.nbyte)
    && HeldSlot(s, r)
    && DeliveredOf(s.fates) == delivered + r.out[..Taken(r)]
  }

  lemma Regroup(a: seq<byte>, b: byte, c: seq<byte>, x: seq<byte>)
    ensures (a + ([b] + c)) + x == (a + [b]) + (c + x)
  {}

  lemma BytesOfSnoc(fates: seq<Fate>, f: Fate)
    ensures BytesOf(fates + [f]) == BytesOf(fates) + [f.b]
  {}

  /** The oldest byte leaves, another may come, and the history still accounts for all. */
  lemma HistoryMoves(accepted: seq<byte>, fates: seq<Fate>, stored: seq<byte>, f: Fate, more: seq<byte>)
    requires stored != [] && accepted == BytesOf(fates) + stored && f.b == stored[0]
    ensures accepted + more == BytesOf(fates + [f]) + (stored[1..] + more)
  {
    BytesOfSnoc(fates, f);
    assert stored == [f.b] + stored[1..];
    Regroup(BytesOf(fates), f.b, stored[1..], more);
  }

  /** What a byte stored by a writer does to the ring and its history. */
  lemma PutStores(s: Shared, x: byte, block: bool)
    requires InRing(s) && s.accepted == BytesOf(s.fates) + Stored(s) && Put(s, x, block).Some?
    ensures var s1 := Put(s, x, block).value;
      && InRing(s1) && s1.accepted == BytesOf(s1.fates) + Stored(s1) && DeliveredOf(s1.fates) == DeliveredOf(s.fates)
      && Stored(s1) == (if s.tail == |s.buf| then Stored(s)[1..] + [x] else Stored(s) + [x])
  {
    Ring.Push(s.buf, s.head, s.tail, x);
    Ring.CountSpec(s.buf, s.head, s.tail);
    if s.tail == |s.buf| {
      var oldest := Fate(s.buf[s.head], Dropped);
      DeliveredOfSnoc(s.fates, oldest);
      HistoryMoves(s.accepted, s.fates, Stored(s), oldest, [x]);
    }
  }

  /** A byte stored while the reader is busy goes behind everything it may be reading; a drop needs the reader idle. */
  lemma PutKeeps(m: Machine, x: byte, block: bool, delivered: seq<byte>)
    requires Inv(m, delivered) && Put(m.shared, x, block).Some?
    ensures Inv(m.(shared := Put(m.shared, x, block).value), delivered)
    ensures Busy(m.reader.pc) ==> Put(m.shared, x, block).value.fates == m.shared.fates
  {
    PutStores(m.shared, x, block);
    Ring.CountSpec(m.shared.buf, m.shared.head, m.shared.tail);
  }

  lemma {:induction false} BurstKeeps(m: Machine, data: seq<byte>, block: bool, delivered: seq<byte>)
    requires Inv(m, delivered)
    ensures Inv(m.(shared := Burst(m.shared, data, block)), delivered)
    ensures Busy(m.reader.pc) ==> Burst(m.shared, data, block).fates == m.shared.fates
    decreases |data|
  {
    if data != [] && Put(m.shared, data[0], block).Some? {
      PutKeeps(m, data[0], block, delivered);
      BurstKeeps(m.(shared := Put(m.shared, data[0], block).value), data[1..], block, delivered);
    }
  }

  /** Releasing the slot takes exactly the oldest byte out. */
  lemma StoreTailKeeps(m: Machine, delivered: seq<byte>)
    requires Inv(m, delivered) && m.reader.pc.StoreTail?
    ensures Inv(Step(m), delivered)
    ensures Stored(Step(m).shared) == Stored(m.shared)[1..]
    ensures Step(m).shared.fates == m.shared.fates + [Fate(Stored(m.shared)[0], Delivered)]
  {
    var s, r := m.shared, m.reader;
    Ring.Pop(s.buf, s.head, s.tail);
    HistoryPop(s.accepted, s.fates, Stored(s), delivered, r.out, r.i);
  }

  lemma HistoryPop(accepted: seq<byte>, fates: seq<Fate>, stored: seq<byte>, delivered: seq<byte>, out: seq<byte>,
                   i: nat)
    requires stored != [] && accepted == BytesOf(fates) + stored
    requires |out| == i + 1 && out[i] == stored[0] && DeliveredOf(fates) == delivered + out[..i]
    ensures accepted == BytesOf(fates + [Fate(stored[0], Delivered)]) + stored[1..]
    ensures DeliveredOf(fates + [Fate(stored[0], Delivered)]) == delivered + out[..i + 1]
  {
    var f := Fate(stored[0], Delivered);
    DeliveredOfSnoc(fates, f);
    HistoryMoves(accepted, fates, stored, f, []);
    assert accepted + [] == accepted && stored[1..] + [] == stored[1..];
    assert delivered + out[..i + 1] == (delivered + out[..i]) + [out[i]];
  }

  lemma CopyKeeps(m: Machine, delivered: seq<byte>)
    requires Inv(m, delivered) && m.reader.pc.ReadByte?
    ensures Inv(Step(m), delivered)
  {
    var s, r := m.shared, m.reader;
    Ring.Pop(s.buf, s.head, s.tail);
    assert Step(m).reader.out[..r.i] == r.out[..r.i];
  }

  /** Steps that touch the flag word. */
  lemma FlagStepKeeps(m: Machine, delivered: seq<byte>)
    requires Inv(m, delivered)
    requires m.reader.pc in {StoreBusy, StoreClear, StoreClearEmpty}
    ensures Inv(Step(m), delivered)
  {}

  /** Steps on the reader's own variables. */
  lemma LocalStepKeeps(m: Machine, delivered: seq<byte>)
    requires Inv(m, delivered)
    requires m.reader.pc in
      {Check, LoadBusy, Snapshot, Test, Advance, TestClobbered, LoadClear, LoadClearEmpty, Returned}
    ensures Inv(Step(m), delivered) && Step(m).shared == m.shared
  {}

  /** Every step of the reader keeps the invariant, and only releasing the slot changes what is stored. */
  lemma ReaderStepKeeps(m: Machine, delivered: seq<byte>)
    requires Inv(m, delivered)
    ensures Inv(Step(m), delivered)
    ensures !m.reader.pc.StoreTail? ==> Step(m).shared.(flags := m.shared.flags) == m.shared
  {
    match m.reader.pc
    case StoreTail => StoreTailKeeps(m, delivered);
    case ReadByte => CopyKeeps(m, delivered);
    case StoreBusy => FlagStepKeeps(m, delivered);
    case StoreClear => FlagStepKeeps(m, delivered);
    case StoreClearEmpty => FlagStepKeeps(m, delivered);
    case MarkFull => assert false;
    case _ => LocalStepKeeps(m, delivered);
  }

  lemma NextKeeps(m: Machine, e: Event, delivered: seq<byte>)
    requires Inv(m, delivered)
    ensures Inv(Next(m, e), delivered)
  {
    match e
    case ReaderStep => ReaderStepKeeps(m, delivered);
    case WriteBurst(data, nonBlocking) =>
      BurstKeeps(m, data, nonBlocking || m.shared.flags.writeBlock, delivered);
  }

  // ---- every schedule ----

  function Run(m: Machine, events: seq<Event>, ghost delivered: seq<byte>): Machine
    requires Inv(m, delivered)
    decreases |events|
  {
    if events == [] then m
    else
      NextKeeps(m, events[0], delivered);
      Run(Next(m, events[0]), events[1..], delivered)
  }

  /** A call about to start on a ring with a consistent history. */
  ghost predicate Start(m: Machine)
  {
    && InRing(m.shared) && m.shared.accepted == BytesOf(m.shared.fates) + Stored(m.shared)
    && !m.shared.flags.readBusy && !m.shared.flags.writeWhileReadBusy
    && m.reader.pc.Check? && m.reader.i == 0 && m.reader.out == [] && !m.reader.clobbered
  }

  /**
   For every interleaving of reader steps and write bursts: every accepted byte has left once, in
   order, or is stored; readers were handed exactly the bytes delivered; and the read is never clobbered.
   */
  lemma {:induction false} RunKeeps(m: Machine, events: seq<Event>, delivered: seq<byte>)
    requires Inv(m, delivered)
    ensures Inv(Run(m, events, delivered), delivered)
    decreases |events|
  {
    if events == [] {
    } else {
      NextKeeps(m, events[0], delivered);
      RunKeeps(Next(m, events[0]), events[1..], delivered);
    }
  }

  lemma StartInv(m: Machine)
    requires Start(m)
    ensures Inv(m, DeliveredOf(m.shared.fates))
  {
    assert DeliveredOf(m.shared.fates) + [] == DeliveredOf(m.shared.fates);
  }

  lemma InterruptedRead(m: Machine, events: seq<Event>)
    requires Start(m)
    ensures Inv(m, DeliveredOf(m.shared.fates))
    ensures var m' := Run(m, events, DeliveredOf(m.shared.fates));
      && InRing(m'.shared) && m'.shared.accepted == BytesOf(m'.shared.fates) + Stored(m'.shared)
      && !m'.reader.clobbered && !m'.shared.flags.writeWhileReadBusy
      && (m'.reader.pc.Returned? ==>
            && |m'.reader.out| == m'.reader.i <= m.reader.nbyte
            && DeliveredOf(m'.shared.fates) == DeliveredOf(m.shared.fates) + m'.reader.out
            && (m'.reader.i < m.reader.nbyte ==> FoundEmpty(m, events, |events|)))
  {
    var delivered := DeliveredOf(m.shared.fates);
    StartInv(m);
    RunKeeps(m, events, delivered);
    RunKeepsCount(m, events, delivered);
    ShortMeansEmpty(m, events, |events|);
    assert events[..|events|] == events;
    var r := Run(m, events, delivered).reader;
    assert r.pc.Returned? ==> r.out[..r.i] == r.out;
  }

  lemma {:induction false} RunKeepsCount(m: Machine, events: seq<Event>, delivered: seq<byte>)
    requires Inv(m, delivered)
    ensures Run(m, events, delivered).reader.nbyte == m.reader.nbyte
    decreases |events|
  {
    if events == [] {
    } else {
      NextKeeps(m, events[0], delivered);
      RunKeepsCount(Next(m, events[0]), events[1..], delivered);
    }
  }

  // ---- the states of a schedule ----

  /** The machine after the first `k` events of a schedule. */
  ghost function At(m: Machine, events: seq<Event>, k: nat): Machine
    requires Start(m) && k <= |events|
  {
    StartInv(m);
    Run(m, events[..k], DeliveredOf(m.shared.fates))
  }

  lemma {:induction false} RunSnoc(m: Machine, events: seq<Event>, e: Event, delivered: seq<byte>)
    requires Inv(m, delivered)
    ensures Inv(Run(m, events, delivered), delivered)
    ensures Run(m, events + [e], delivered) == Next(Run(m, events, delivered), e)
    decreases |events|
  {
    NextKeeps(m, (events + [e])[0], delivered);
    if events == [] {
      assert [e][1..] == [];
    } else {
      assert (events + [e])[1..] == events[1..] + [e];
      RunSnoc(Next(m, events[0]), events[1..], e, delivered);
    }
  }

  lemma AtStep(m: Machine, events: seq<Event>, k: nat)
    requires Start(m) && k < |events|
    ensures Inv(At(m, events, k), DeliveredOf(m.shared.fates))
    ensures At(m, events, k + 1) == Next(At(m, events, k), events[k])
  {
    StartInv(m);
    assert events[..k + 1] == events[..k] + [events[k]];
    RunSnoc(m, events[..k], events[k], DeliveredOf(m.shared.fates));
  }

  lemma AtInv(m: Machine, events: seq<Event>, k: nat)
    requires Start(m) && k <= |events|
    ensures Inv(At(m, events, k), DeliveredOf(m.shared.fates))
  {
    StartInv(m);
    RunKeeps(m, events[..k], DeliveredOf(m.shared.fates));
  }

  // ---- the end of a read ----

  /** Steps the reader takes before it returns, at most. */
  function Left(r: Reader): nat
    requires if r.pc.Check? || r.pc.Returned? then r.i <= r.nbyte else r.i < r.nbyte
  {
    if r.pc.Returned? then 0 else (r.nbyte - r.i) * 14 + 1 - Position(r.pc)
  }

  function Position(pc: Pc): nat
  {
    match pc
    case Check => 0
    case LoadBusy => 1
    case StoreBusy => 2
    case Snapshot => 3
    case Test => 4
    case ReadByte => 5
    case Advance => 6
    case StoreTail => 7
    case TestClobbered => 8
    case MarkFull => 9
    case LoadClear => 10
    case StoreClear => 11
    case LoadClearEmpty => 5
    case StoreClearEmpty => 6
    case Returned => 0
  }

  function ReaderSteps(events: seq<Event>): nat
  {
    if events == [] then 0 else (if events[0].ReaderStep? then 1 else 0) + ReaderSteps(events[1..])
  }

  lemma StepsFall(m: Machine, delivered: seq<byte>)
    requires Inv(m, delivered) && Inv(Step(m), delivered) && !m.reader.pc.Returned?
    ensures Left(Step(m).reader) < Left(m.reader)
  {}

  /** However it is interrupted, the reader returns after a bounded number of its own steps. */
  lemma {:induction false} ReaderReturns(m: Machine, events: seq<Event>, delivered: seq<byte>)
    requires Inv(m, delivered) && ReaderSteps(events) >= Left(m.reader)
    ensures Run(m, events, delivered).reader.pc.Returned?
    decreases |events|
  {
    if events == [] {
    } else {
      NextKeeps(m, events[0], delivered);
      if events[0].ReaderStep? && !m.reader.pc.Returned? {
        StepsFall(m, delivered);
      }
      ReaderReturns(Next(m, events[0]), events[1..], delivered);
    }
  }

  /** Within the first `n` events the reader took its snapshot of an empty ring. */
  ghost predicate FoundEmpty(m: Machine, events: seq<Event>, n: nat)
    requires Start(m) && n <= |events|
  {
    exists k: nat :: k < n && At(m, events, k).reader.pc.Snapshot? && IsEmpty(At(m, events, k).shared)
  }

  ghost predicate IsEmpty(s: Shared)
  {
    InRing(s) && Stored(s) == []
  }

  /** The reader is on its way out without a byte. */
  predicate Leaving(r: Reader)
  {
    || (r.pc.Test? && r.posHead == r.posTail) || r.pc.LoadClearEmpty? || r.pc.StoreClearEmpty?
    || (r.pc.Returned? && r.i < r.nbyte)
  }

  lemma LeavingStep(m: Machine, delivered: seq<byte>)
    requires Inv(m, delivered) && Leaving(Step(m).reader) && !Leaving(m.reader)
    ensures m.reader.pc.Snapshot? && IsEmpty(m.shared)
  {
    Ring.CountSpec(m.shared.buf, m.shared.head, m.shared.tail);
  }

  /** A read returns short only if it found the ring empty. */
  lemma {:induction false} ShortMeansEmpty(m: Machine, events: seq<Event>, n: nat)
    requires Start(m) && n <= |events|
    ensures Leaving(At(m, events, n).reader) ==> FoundEmpty(m, events, n)
    decreases n
  {
    if n == 0 {
      assert At(m, events, 0) == m;
    } else {
      ShortMeansEmpty(m, events, n - 1);
      AtStep(m, events, n - 1);
      var x := At(m, events, n - 1);
      if events[n - 1].ReaderStep? && Leaving(Step(x).reader) && !Leaving(x.reader) {
        LeavingStep(x, DeliveredOf(m.shared.fates));
      }
    }
  }
}
