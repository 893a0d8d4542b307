/** What the writers that interrupt a read get into the ring. */
module FifoTaken {
  import opened Common
  import FifoQueue
  import opened FifoInterrupt
  import FifoFlag
  import Ring

  /** How many bytes of a write are taken: as many as there is room for, or all if the oldest may be dropped. */
  function Room(s: Shared, count: nat, block: bool): nat
    requires InRing(s)
  {
    Ring.CountSpec(s.buf, s.head, s.tail);
    if block || s.flags.readBusy then Min(count, |s.buf| - |Stored(s)|) else count
  }

  /** One byte is refused exactly when there is no room and the oldest byte may not be dropped. */
  lemma PutTakes(s: Shared, x: byte, block: bool)
    requires InRing(s)
    ensures Put(s, x, block).None? <==> |Stored(s)| == |s.buf| && (block || s.flags.readBusy)
    ensures Put(s, x, block).Some? ==>
      var s1 := Put(s, x, block).value;
      && InRing(s1) && s1.accepted == s.accepted + [x] && |s1.buf| == |s.buf| && s1.flags.readBusy == s.flags.readBusy
      && |Stored(s1)| == Min(|Stored(s)| + 1, |s.buf|)
  {
    Ring.CountSpec(s.buf, s.head, s.tail);
    Ring.Push(s.buf, s.head, s.tail, x);
  }

  /** A write takes the first bytes it has room for, and no others. */
  lemma {:induction false} BurstTakes(s: Shared, data: seq<byte>, block: bool)
    requires InRing(s)
    ensures Room(s, |data|, block) <= |data|
    ensures Burst(s, data, block).accepted == s.accepted + data[..Room(s, |data|, block)]
    decreases |data|
  {
    Ring.CountSpec(s.buf, s.head, s.tail);
    if data == [] {
      assert s.accepted + data[..0] == s.accepted;
    } else {
      PutTakes(s, data[0], block);
      if Put(s, data[0], block).None? {
        assert s.accepted + data[..0] == s.accepted;
      } else {
        var s1 := Put(s, data[0], block).value;
        BurstTakes(s1, data[1..], block);
        FifoQueue.TakeOneMore(s.accepted, data, Room(s1, |data| - 1, block));
      }
    }
  }

  // ---- schedules ----

  /** The bytes event `k` of a schedule gets into the ring. */
  ghost function TakenBy(m: Machine, events: seq<Event>, k: nat): seq<byte>
    requires Start(m) && k < |events|
  {
    AtInv(m, events, k);
    var s := At(m, events, k).shared;
    match events[k]
    case ReaderStep => []
    case WriteBurst(data, nonBlocking) =>
      BurstTakes(s, data, nonBlocking || s.flags.writeBlock);
      data[..Room(s, |data|, nonBlocking || s.flags.writeBlock)]
  }

  ghost function TakenUpTo(m: Machine, events: seq<Event>, n: nat): seq<byte>
    requires Start(m) && n <= |events|
    decreases n
  {
    if n == 0 then [] else TakenUpTo(m, events, n - 1) + TakenBy(m, events, n - 1)
  }

  lemma StepTakes(m: Machine, events: seq<Event>, k: nat)
    requires Start(m) && k < |events|
    ensures At(m, events, k + 1).shared.accepted == At(m, events, k).shared.accepted + TakenBy(m, events, k)
  {
    AtStep(m, events, k);
    var x := At(m, events, k);
    match events[k]
    case ReaderStep => ReaderStepKeeps(x, FifoQueue.DeliveredOf(m.shared.fates));
    case WriteBurst(data, nonBlocking) => BurstTakes(x.shared, data, nonBlocking || x.shared.flags.writeBlock);
  }

  /** Over every schedule the ring takes, write by write, exactly what there is room for at that moment. */
  lemma {:induction false} ScheduleTakes(m: Machine, events: seq<Event>, n: nat)
    requires Start(m) && n <= |events|
    ensures At(m, events, n).shared.accepted == m.shared.accepted + TakenUpTo(m, events, n)
    decreases n
  {
    if n == 0 {
      assert At(m, events, 0) == m && m.shared.accepted + [] == m.shared.accepted;
    } else {
      ScheduleTakes(m, events, n - 1);
      StepTakes(m, events, n - 1);
      Join(m.shared.accepted, TakenUpTo(m, events, n - 1), TakenBy(m, events, n - 1));
    }
  }

  lemma Join(a: seq<byte>, b: seq<byte>, c: seq<byte>)
    ensures (a + b) + c == a + (b + c)
  {}

  /** Everything the writers bring. */
  function Brought(events: seq<Event>, n: nat): seq<byte>
    requires n <= |events|
    decreases n
  {
    if n == 0 then []
    else Brought(events, n - 1) + if events[n - 1].WriteBurst? then events[n - 1].data else []
  }

  lemma RoomForAll(x: Shared, start: Shared, before: nat, count: nat, block: bool, total: nat)
    requires InRing(x) && InRing(start) && |x.buf| == |start.buf| && |Stored(x)| <= |Stored(start)| + before
    requires before + count <= total && |Stored(start)| + total <= |start.buf|
    ensures Room(x, count, block) == count
  {}

  lemma AllTakenBy(m: Machine, events: seq<Event>, k: nat)
    requires Start(m) && k < |events| && |Stored(m.shared)| + FifoFlag.Offered(events) <= |m.shared.buf|
    ensures TakenBy(m, events, k) == if events[k].WriteBurst? then events[k].data else []
  {
    AtInv(m, events, k);
    FifoFlag.StaysSafe(m, events, k);
    FifoFlag.OfferedStep(events, k);
    FifoFlag.OfferedMono(events, k + 1);
    var s := At(m, events, k).shared;
    match events[k]
    case ReaderStep =>
    case WriteBurst(data, nonBlocking) =>
      var block := nonBlocking || s.flags.writeBlock;
      RoomForAll(s, m.shared, FifoFlag.Offered(events[..k]), |data|, block, FifoFlag.Offered(events));
      BurstTakes(s, data, block);
      assert data[..|data|] == data;
  }

  lemma {:induction false} AllTakenUpTo(m: Machine, events: seq<Event>, n: nat)
    requires Start(m) && n <= |events| && |Stored(m.shared)| + FifoFlag.Offered(events) <= |m.shared.buf|
    ensures TakenUpTo(m, events, n) == Brought(events, n)
    decreases n
  {
    if n == 0 {
    } else {
      AllTakenUpTo(m, events, n - 1);
      AllTakenBy(m, events, n - 1);
    }
  }

  /** If there is room for all they bring before the read starts, all is stored, however the read is interrupted. */
  lemma NothingRefused(m: Machine, events: seq<Event>)
    requires Start(m) && |Stored(m.shared)| + FifoFlag.Offered(events) <= |m.shared.buf|
    ensures At(m, events, |events|).shared.accepted == m.shared.accepted + Brought(events, |events|)
  {
    ScheduleTakes(m, events, |events|);
    AllTakenUpTo(m, events, |events|);
  }
}
