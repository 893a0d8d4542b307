/**
 The overflow flag under interruption. The reader changes the flag word by a load and a store, so a byte dropped in
 between can go unreported. Here is exactly when, for every schedule, and what a caller can check beforehand.
 */
module FifoFlag {
  import opened Common
  import FifoQueue
  import opened FifoInterrupt
  import Ring

  ghost predicate DroppedSince(fates: seq<FifoQueue.Fate>, mark: nat)
  {
    exists i :: mark <= i < |fates| && fates[i].way.Dropped?
  }

  /** The overflow flag says whether a byte was dropped since `mark`. */
  ghost predicate FlagExact(s: Shared, mark: nat)
  {
    mark <= |s.fates| && (s.flags.overflow <==> DroppedSince(s.fates, mark))
  }

  // ---- one burst ----

  /** `later` continues `fates` with dropped bytes only. */
  ghost predicate OnlyDrops(fates: seq<FifoQueue.Fate>, later: seq<FifoQueue.Fate>)
  {
    fates <= later && forall i :: |fates| <= i < |later| ==> later[i].way.Dropped?
  }

  /** A burst sets the flag exactly when it drops a byte, and otherwise leaves the flag word alone. */
  lemma {:induction false} BurstFlags(s: Shared, data: seq<byte>, block: bool)
    requires InRing(s)
    ensures var r := Burst(s, data, block);
      && OnlyDrops(s.fates, r.fates)
      && r.flags.writeBlock == s.flags.writeBlock && r.flags.readBusy == s.flags.readBusy
      && r.flags.overflow == (s.flags.overflow || r.fates != s.fates)
    decreases |data|
  {
    if data == [] || Put(s, data[0], block).None? {
    } else {
      BurstFlags(Put(s, data[0], block).value, data[1..], block);
    }
  }

  lemma DroppedSinceMore(fates: seq<FifoQueue.Fate>, later: seq<FifoQueue.Fate>, mark: nat)
    requires OnlyDrops(fates, later) && mark <= |fates|
    ensures DroppedSince(later, mark) <==> DroppedSince(fates, mark) || later != fates
  {
    if DroppedSince(fates, mark) {
      var i :| mark <= i < |fates| && fates[i].way.Dropped?;
      assert later[i].way.Dropped?;
    }
    if later != fates {
      assert later[|fates|].way.Dropped?;
    }
    if DroppedSince(later, mark) && later == fates {
    }
  }

  lemma DroppedSinceDelivered(fates: seq<FifoQueue.Fate>, mark: nat, b: byte)
    requires mark <= |fates|
    ensures DroppedSince(fates + [FifoQueue.Fate(b, FifoQueue.Delivered)], mark) <==> DroppedSince(fates, mark)
  {
    var all := fates + [FifoQueue.Fate(b, FifoQueue.Delivered)];
    if DroppedSince(fates, mark) {
      var i :| mark <= i < |fates| && fates[i].way.Dropped?;
      assert all[i].way.Dropped?;
    }
  }

  // ---- when the flag is lost ----

  /** Event `k` is a burst that drops a byte. */
  ghost predicate Drops(m: Machine, events: seq<Event>, k: nat)
    requires Start(m) && k < |events|
  {
    events[k].WriteBurst? && At(m, events, k + 1).shared.fates != At(m, events, k).shared.fates
  }

  /** Event `k` drops a byte while the reader holds a flag word loaded without the overflow flag. */
  ghost predicate DropsBehind(m: Machine, events: seq<Event>, k: nat)
    requires Start(m) && k < |events|
  {
    var r := At(m, events, k).reader;
    Drops(m, events, k) && r.pc.StoreBusy? && !r.register.overflow
  }

  /** From event `k + 1` up to event `n` only writers run. */
  predicate OnlyBursts(events: seq<Event>, k: nat, n: nat)
  {
    forall i :: k < i < n && i < |events| ==> events[i].WriteBurst?
  }

  /** Of the first `n` events, `k` drops a byte, the reader's next step `j` covers it up, and none is dropped after. */
  ghost predicate CoveredUp(m: Machine, events: seq<Event>, n: nat, k: nat, j: nat)
    requires Start(m)
  {
    && k < j < n <= |events| && DropsBehind(m, events, k)
    && OnlyBursts(events, k, j) && events[j].ReaderStep?
    && forall i :: j < i < n ==> !Drops(m, events, i)
  }

  ghost predicate Lost(m: Machine, events: seq<Event>, n: nat)
    requires Start(m)
  {
    exists k: nat, j: nat :: CoveredUp(m, events, n, k, j)
  }

  /** A byte was dropped behind the flag word the reader is still holding. */
  ghost predicate Waiting(m: Machine, events: seq<Event>, n: nat)
    requires Start(m) && n <= |events|
  {
    exists k: nat :: k < n && DropsBehind(m, events, k) && OnlyBursts(events, k, n)
  }

  // ---- how the condition grows with the schedule ----

  lemma NoneWaits(m: Machine, events: seq<Event>, n: nat)
    requires Start(m) && n < |events| && events[n].ReaderStep?
    ensures !Waiting(m, events, n + 1)
  {
    forall k: nat | k < n + 1 ensures !(DropsBehind(m, events, k) && OnlyBursts(events, k, n + 1)) {
      if k == n {
        assert !Drops(m, events, k);
      } else {
        assert k < n < n + 1 && !events[n].WriteBurst?;
      }
    }
  }

  lemma LostLater(m: Machine, events: seq<Event>, n: nat)
    requires Start(m) && n < |events| && events[n].ReaderStep? && (Lost(m, events, n) || Waiting(m, events, n))
    ensures Lost(m, events, n + 1)
  {
    if Lost(m, events, n) {
      var k: nat, j: nat :| CoveredUp(m, events, n, k, j);
      assert CoveredUp(m, events, n + 1, k, j);
    } else {
      var k: nat :| k < n && DropsBehind(m, events, k) && OnlyBursts(events, k, n);
      assert CoveredUp(m, events, n + 1, k, n);
    }
  }

  lemma LostAfterReader(m: Machine, events: seq<Event>, n: nat)
    requires Start(m) && n < |events| && events[n].ReaderStep?
    ensures Lost(m, events, n + 1) <==> Lost(m, events, n) || Waiting(m, events, n)
  {
    if Lost(m, events, n) || Waiting(m, events, n) {
      LostLater(m, events, n);
    }
    if Lost(m, events, n + 1) {
      var k: nat, j: nat :| CoveredUp(m, events, n + 1, k, j);
      if j < n {
        assert CoveredUp(m, events, n, k, j);
      } else {
        assert k < n && OnlyBursts(events, k, n);
      }
    }
  }

  lemma WaitingAfterBurst(m: Machine, events: seq<Event>, n: nat)
    requires Start(m) && n < |events| && events[n].WriteBurst?
    ensures Waiting(m, events, n + 1) <==> Waiting(m, events, n) || DropsBehind(m, events, n)
  {
    if Waiting(m, events, n) {
      var k: nat :| k < n && DropsBehind(m, events, k) && OnlyBursts(events, k, n);
      assert OnlyBursts(events, k, n + 1);
    }
    if DropsBehind(m, events, n) {
      assert OnlyBursts(events, n, n + 1);
    }
    if Waiting(m, events, n + 1) {
      var k: nat :| k < n + 1 && DropsBehind(m, events, k) && OnlyBursts(events, k, n + 1);
      assert OnlyBursts(events, k, n);
    }
  }

  lemma LostAfterBurst(m: Machine, events: seq<Event>, n: nat)
    requires Start(m) && n < |events| && events[n].WriteBurst?
    ensures Lost(m, events, n + 1) <==> Lost(m, events, n) && !Drops(m, events, n)
  {
    if Lost(m, events, n + 1) {
      var k: nat, j: nat :| CoveredUp(m, events, n + 1, k, j);
      assert CoveredUp(m, events, n, k, j);
    }
    if Lost(m, events, n) && !Drops(m, events, n) {
      var k: nat, j: nat :| CoveredUp(m, events, n, k, j);
      assert CoveredUp(m, events, n + 1, k, j);
    }
  }

  // ---- the flag follows the condition ----

  /** After `n` events: the flag never claims a drop that was not, and misses one exactly when it is lost. */
  ghost predicate Tracks(x: Machine, mark: nat, waiting: bool, lost: bool)
  {
    && mark <= |x.shared.fates|
    && (x.shared.flags.overflow ==> DroppedSince(x.shared.fates, mark))
    && (lost <==> DroppedSince(x.shared.fates, mark) && !x.shared.flags.overflow)
    && (waiting ==> x.reader.pc.StoreBusy? && !x.reader.register.overflow)
    && (x.reader.pc.StoreBusy? ==> x.shared.flags.overflow == (x.reader.register.overflow || waiting))
  }

  lemma ReaderTracks(x: Machine, delivered: seq<byte>, mark: nat, waiting: bool, lost: bool)
    requires Inv(x, delivered) && Tracks(x, mark, waiting, lost)
    ensures Tracks(Step(x), mark, false, lost || waiting)
  {
    ReaderStepKeeps(x, delivered);
    if x.reader.pc.StoreTail? {
      StoreTailKeeps(x, delivered);
      DroppedSinceDelivered(x.shared.fates, mark, Stored(x.shared)[0]);
    } else {
      assert Step(x).shared.fates == x.shared.fates;
    }
  }

  lemma BurstTracks(x: Machine, data: seq<byte>, block: bool, mark: nat, waiting: bool, lost: bool)
    requires InRing(x.shared) && Tracks(x, mark, waiting, lost)
    ensures var y := x.(shared := Burst(x.shared, data, block)); var drops := y.shared.fates != x.shared.fates;
      Tracks(y, mark, waiting || (drops && x.reader.pc.StoreBusy? && !x.reader.register.overflow), lost && !drops)
  {
    var y := Burst(x.shared, data, block);
    BurstFlags(x.shared, data, block);
    DroppedSinceMore(x.shared.fates, y.fates, mark);
  }

  lemma TracksReader(m: Machine, events: seq<Event>, n: nat, mark: nat)
    requires Start(m) && n < |events| && events[n].ReaderStep?
    requires Tracks(At(m, events, n), mark, Waiting(m, events, n), Lost(m, events, n))
    ensures Tracks(At(m, events, n + 1), mark, Waiting(m, events, n + 1), Lost(m, events, n + 1))
  {
    AtStep(m, events, n);
    NoneWaits(m, events, n);
    LostAfterReader(m, events, n);
    ReaderTracks(At(m, events, n), FifoQueue.DeliveredOf(m.shared.fates), mark, Waiting(m, events, n),
                 Lost(m, events, n));
  }

  lemma TracksBurst(m: Machine, events: seq<Event>, n: nat, mark: nat)
    requires Start(m) && n < |events| && events[n].WriteBurst?
    requires Tracks(At(m, events, n), mark, Waiting(m, events, n), Lost(m, events, n))
    ensures Tracks(At(m, events, n + 1), mark, Waiting(m, events, n + 1), Lost(m, events, n + 1))
  {
    AtStep(m, events, n);
    WaitingAfterBurst(m, events, n);
    LostAfterBurst(m, events, n);
    var x := At(m, events, n);
    BurstTracks(x, events[n].data, events[n].nonBlocking || x.shared.flags.writeBlock, mark, Waiting(m, events, n),
                Lost(m, events, n));
  }

  lemma {:induction false} FlagTracks(m: Machine, events: seq<Event>, n: nat, mark: nat)
    requires Start(m) && FlagExact(m.shared, mark) && n <= |events|
    ensures Tracks(At(m, events, n), mark, Waiting(m, events, n), Lost(m, events, n))
    decreases n
  {
    if n == 0 {
      assert At(m, events, 0) == m;
    } else {
      FlagTracks(m, events, n - 1, mark);
      if events[n - 1].ReaderStep? {
        TracksReader(m, events, n - 1, mark);
      } else {
        TracksBurst(m, events, n - 1, mark);
      }
    }
  }

  /**
   For every schedule: after it the flag is exact if and only if no byte dropped while the reader held an older
   flag word was covered up by the reader's store with no byte dropped since.
   */
  lemma FlagExactUnlessLost(m: Machine, events: seq<Event>, mark: nat)
    requires Start(m) && FlagExact(m.shared, mark)
    ensures Inv(m, FifoQueue.DeliveredOf(m.shared.fates))
    ensures var r := Run(m, events, FifoQueue.DeliveredOf(m.shared.fates));
      FlagExact(r.shared, mark) <==> !Lost(m, events, |events|)
  {
    StartInv(m);
    FlagTracks(m, events, |events|, mark);
    assert events[..|events|] == events;
  }

  // ---- what a caller can check ----

  /** The bytes the writers of a schedule bring. */
  function Offered(events: seq<Event>): nat
  {
    if events == [] then 0
    else Offered(events[..|events| - 1]) + Size(events[|events| - 1])
  }

  function Size(e: Event): nat
  {
    if e.WriteBurst? then |e.data| else 0
  }

  /** A read about to start can lose the flag when `offered` bytes are written meanwhile. */
  ghost predicate AtRisk(m: Machine, offered: nat)
    requires InRing(m.shared)
  {
    var s := m.shared;
    m.reader.nbyte > 0 && !s.flags.writeBlock && !s.flags.overflow && |Stored(s)| + offered > |s.buf|
  }

  /** A burst that is blocked, or that fits, drops nothing. */
  lemma {:induction false} BurstFits(s: Shared, data: seq<byte>, block: bool)
    requires InRing(s)
    ensures |Stored(Burst(s, data, block))| <= |Stored(s)| + |data|
    ensures block || |Stored(s)| + |data| <= |s.buf| ==> Burst(s, data, block).fates == s.fates
    decreases |data|
  {
    Ring.CountSpec(s.buf, s.head, s.tail);
    if data == [] || Put(s, data[0], block).None? {
    } else {
      Ring.Push(s.buf, s.head, s.tail, data[0]);
      BurstFits(Put(s, data[0], block).value, data[1..], block);
    }
  }

  /** After a schedule that has brought `offered` bytes: mode, room and an overflow flag set at the start are kept. */
  ghost predicate Safe(x: Machine, start: Machine, offered: nat)
    requires InRing(x.shared) && InRing(start.shared)
  {
    && |x.shared.buf| == |start.shared.buf| && x.reader.nbyte == start.reader.nbyte
    && x.shared.flags.writeBlock == start.shared.flags.writeBlock
    && |Stored(x.shared)| <= |Stored(start.shared)| + offered
    && (start.shared.flags.overflow ==>
          x.shared.flags.overflow && (x.reader.pc.StoreBusy? ==> x.reader.register.overflow))
  }

  lemma ReaderStaysSafe(x: Machine, start: Machine, offered: nat, delivered: seq<byte>)
    requires Inv(x, delivered) && InRing(start.shared) && Safe(x, start, offered)
    ensures InRing(Step(x).shared) && Safe(Step(x), start, offered)
  {
    ReaderStepKeeps(x, delivered);
    if x.reader.pc.StoreTail? {
      StoreTailKeeps(x, delivered);
    } else {
      assert Stored(Step(x).shared) == Stored(x.shared);
    }
  }

  lemma BurstStaysSafe(x: Machine, start: Machine, offered: nat, data: seq<byte>, block: bool)
    requires InRing(x.shared) && InRing(start.shared) && Safe(x, start, offered)
    ensures Safe(x.(shared := Burst(x.shared, data, block)), start, offered + |data|)
  {
    BurstFits(x.shared, data, block);
    BurstFlags(x.shared, data, block);
  }

  lemma OfferedStep(events: seq<Event>, n: nat)
    requires n < |events|
    ensures Offered(events[..n + 1]) == Offered(events[..n]) + Size(events[n])
  {
    assert events[..n + 1][..n] == events[..n];
  }

  lemma {:induction false} OfferedMono(events: seq<Event>, n: nat)
    requires n <= |events|
    ensures Offered(events[..n]) <= Offered(events)
    decreases |events| - n
  {
    if n == |events| {
      assert events[..n] == events;
    } else {
      OfferedStep(events, n);
      OfferedMono(events, n + 1);
    }
  }

  lemma {:induction false} StaysSafe(m: Machine, events: seq<Event>, n: nat)
    requires Start(m) && n <= |events|
    ensures InRing(At(m, events, n).shared) && Safe(At(m, events, n), m, Offered(events[..n]))
    decreases n
  {
    AtInv(m, events, n);
    if n == 0 {
      assert At(m, events, 0) == m;
    } else {
      StaysSafe(m, events, n - 1);
      AtStep(m, events, n - 1);
      OfferedStep(events, n - 1);
      var x, offered := At(m, events, n - 1), Offered(events[..n - 1]);
      match events[n - 1]
      case ReaderStep => ReaderStaysSafe(x, m, offered, FifoQueue.DeliveredOf(m.shared.fates));
      case WriteBurst(data, nonBlocking) =>
        BurstStaysSafe(x, m, offered, data, nonBlocking || x.shared.flags.writeBlock);
    }
  }

  /** With a flag word without the overflow flag in hand, a read that is not at risk has nothing to miss. */
  lemma NoDropBehind(x: Machine, start: Machine, offered: nat, data: seq<byte>, nonBlocking: bool, total: nat)
    requires InRing(x.shared) && InRing(start.shared) && Safe(x, start, offered)
    requires offered + |data| <= total && !AtRisk(start, total)
    requires x.reader.pc.StoreBusy? && !x.reader.register.overflow && x.reader.nbyte > 0
    ensures Burst(x.shared, data, nonBlocking || x.shared.flags.writeBlock).fates == x.shared.fates
  {
    BurstFits(x.shared, data, nonBlocking || x.shared.flags.writeBlock);
  }

  lemma NothingDropsBehind(m: Machine, events: seq<Event>, k: nat)
    requires Start(m) && k < |events| && !AtRisk(m, Offered(events))
    ensures !DropsBehind(m, events, k)
  {
    AtStep(m, events, k);
    StaysSafe(m, events, k);
    OfferedStep(events, k);
    OfferedMono(events, k + 1);
    var x := At(m, events, k);
    if events[k].WriteBurst? && x.reader.pc.StoreBusy? && !x.reader.register.overflow {
      NoDropBehind(x, m, Offered(events[..k]), events[k].data, events[k].nonBlocking, Offered(events));
    }
  }

  /** A read that is not at risk keeps the flag exact under every schedule. */
  lemma NoRiskNoLoss(m: Machine, events: seq<Event>, mark: nat)
    requires Start(m) && FlagExact(m.shared, mark) && !AtRisk(m, Offered(events))
    ensures FlagExact(At(m, events, |events|).shared, mark)
  {
    FlagTracks(m, events, |events|, mark);
    if Lost(m, events, |events|) {
      var k: nat, j: nat :| CoveredUp(m, events, |events|, k, j);
      NothingDropsBehind(m, events, k);
    }
  }

  lemma {:induction false} BurstOverflows(s: Shared, data: seq<byte>)
    requires InRing(s) && !s.flags.readBusy && |Stored(s)| + |data| > |s.buf|
    ensures Burst(s, data, false).fates != s.fates
    decreases |data|
  {
    Ring.CountSpec(s.buf, s.head, s.tail);
    assert Put(s, data[0], false).Some?;
    Ring.Push(s.buf, s.head, s.tail, data[0]);
    var s1 := Put(s, data[0], false).value;
    BurstFlags(s1, data[1..], false);
    if s.tail != |s.buf| {
      BurstOverflows(s1, data[1..]);
    }
  }

  /** The schedule that loses the flag: the writer runs between the load and the store. */
  function Interrupting(data: seq<byte>): seq<Event>
  {
    [ReaderStep, ReaderStep, WriteBurst(data, false), ReaderStep]
  }

  /** For every read at risk there is such a schedule, so the risk is exact. */
  lemma RiskLoses(m: Machine, data: seq<byte>, mark: nat)
    requires Start(m) && FlagExact(m.shared, mark) && AtRisk(m, |data|)
    ensures Offered(Interrupting(data)) == |data|
    ensures !FlagExact(At(m, Interrupting(data), 4).shared, mark)
  {
    var events := Interrupting(data);
    OfferedStep(events, 0);
    OfferedStep(events, 1);
    OfferedStep(events, 2);
    OfferedStep(events, 3);
    assert events[..0] == [] && events[..4] == events;
    AtStep(m, events, 0);
    AtStep(m, events, 1);
    AtStep(m, events, 2);
    AtStep(m, events, 3);
    assert At(m, events, 0) == m;
    var x := At(m, events, 2);
    assert x.shared == m.shared && x.reader.pc.StoreBusy? && x.reader.register == m.shared.flags;
    BurstOverflows(m.shared, data);
    BurstFlags(m.shared, data, false);
    DroppedSinceMore(m.shared.fates, At(m, events, 3).shared.fates, mark);
  }

  /** There are reads at risk: a ring of one byte that is full, and one byte written between load and store. */
  lemma OverflowFlagLost() returns (m: Machine)
    ensures Start(m) && FlagExact(m.shared, 0) && m.shared.buf == [7] && AtRisk(m, 1)
    ensures !FlagExact(At(m, Interrupting([8]), 4).shared, 0)
  {
    var s := Shared([7], 0, 1, Flags(false, false, false, false), [7], []);
    m := Machine(s, Reader(Check, 1, 0, s.flags, 0, 0, [], false));
    assert Stored(s) == [7] && FifoQueue.BytesOf([]) + [7] == [7];
    RiskLoses(m, [8], 0);
  }
}
