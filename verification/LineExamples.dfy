/** Runs of a switchboard connection that show the cases told apart elsewhere do occur. */
module LineExamples {
  import opened Common
  import opened Repeating
  import opened PacketLine
  import opened LineFlow
  import opened LineStops
  import opened LineFreed

  /** A line of two buffers of two bytes that has never been used. */
  function Unused(): Line
  {
    Line(Setting(2, 0, 0, false), 0, NO_FLAGS, [[0, 0], [0, 0]], 0, false, [], 0, 0, [], [], [], [])
  }

  /** The first read answered by `first` and the others later, writes always later. */
  function Answers(first: ReadAnswer): Devices
  {
    Devices((k, n) => if k == 0 && n > 0 then first else Later, (k, n) => TakesLater)
  }

  lemma AnswersFit(first: ReadAnswer)
    requires first.Later? || first == Now([7])
    ensures Inv(Unused()) && Fitting(Answers(first))
  {}

  /** A pump whose first transaction does not complete at once, or is the only one. */
  lemma PumpOne(l: Line, d: Devices)
    requires Sound(l) && Fitting(d) && l.status == 0 && (Once(l, d).1.Waits? || Rounds(l) == 1)
    ensures Pump(l, d) == (Check(Verdict(Once(l, d).0, 1)), Once(l, d).1)
  {
    assert Turn(d)(l) == Once(l, d);
    assert Repeat(Turn(d), l, Rounds(l)) == (Once(l, d).0, Once(l, d).1, 1);
  }

  lemma PumpedOnce(r: Line, d: Devices, y: Line)
    requires Sound(r) && Fitting(d) && r.status == 0 && Once(r, d) == (y, Waits)
    requires y.status == 0 && y.setting.limit != 1 && (y.flags.reading || y.flags.writing)
    ensures Pump(r, d).0 == y
  {
    PumpOne(r, d);
  }

  lemma RunTwo(l: Line, d: Devices, e: Event, l1: Line, f: Event)
    requires Inv(l) && Fitting(d) && Possible(l, e) && l1 == Step(l, d, e).0 && Inv(l1) && Possible(l1, f)
    ensures Run(l, d, [e, f], Step(l1, d, f).0) && Inv(Step(l1, d, f).0)
  {
    StepKeeps(l1, d, f);
    var last := Step(l1, d, f).0;
    assert [e, f][1..] == [f] && [f][1..] == [];
    assert Run(last, d, [], last);
    assert Run(l1, d, [f], last);
  }

  /** A read that ends in an error. */
  const READ_ERROR := DataReady([], 0, false, true)

  lemma ErrorStops(l: Line, d: Devices)
    requires Inv(l) && Fitting(d) && l.flags.reading && !l.flags.destroyed
    ensures Step(l, d, READ_ERROR).0.flags == l.flags.(reading := false, failed := true, connected := false)
  {
    var r := ReadEnds(l, [], 0, false, true);
    ReadEndsKeeps(l, [], 0, false, true);
    ReadEndsFlags(l, [], 0, false, true);
    assert r.status == EIO;
    assert Handled(l, d, READ_ERROR) == Check(r);
  }

  /** A connection is made, and its read ends in an error. */
  lemma ErrorAfter(d: Devices, made: Line) returns (l: Line)
    requires Inv(Unused()) && Fitting(d) && Step(Unused(), d, Create(2, 9, false)).0 == made
    requires made.flags.reading && !made.flags.destroyed
    ensures Run(Unused(), d, [Create(2, 9, false), READ_ERROR], l) && Inv(l)
    ensures l.flags == made.flags.(reading := false, failed := true, connected := false)
  {
    StepKeeps(Unused(), d, Create(2, 9, false));
    ErrorStops(made, d);
    l := Step(made, d, READ_ERROR).0;
    RunTwo(Unused(), d, Create(2, 9, false), made, READ_ERROR);
  }

  // ---- a read that is answered later ----

  /** A connection made with a limit of `limit`, its first read in flight. */
  function Reading(limit: nat): Line
  {
    Unused().(setting := Setting(2, 2, limit, false), open := true, readCalls := 1,
              flags := NO_FLAGS.(inUse := true, connected := true, reading := true), heard := [Answer(2, Later)])
  }

  lemma CreateReading(limit: nat)
    ensures Inv(Unused()) && Fitting(Answers(Later))
    ensures Step(Unused(), Answers(Later), Create(2, limit, false)) == (Check(Verdict(Reading(limit), 1)), 0)
  {
    AnswersFit(Later);
    var d := Answers(Later);
    var l := SetUp(Unused(), 2, limit, false);
    SetUpKeeps(Unused(), 2, limit, false);
    assert [] + [Answer(2, Later)] == [Answer(2, Later)];
    assert Read(l, d) == (Reading(limit), Waits);
    PumpOne(l, d);
  }

  /** With a limit of 1 a connection is stopped with its read in flight; once disconnected, the read's end frees it. */
  lemma StoppedInFlight() returns (l: Line, d: Devices)
    ensures Inv(Unused()) && Fitting(d) && l == Step(Unused(), d, Create(2, 1, false)).0
    ensures HitsLimit(SetUp(Unused(), 2, 1, false), Turn(d))
    ensures Inv(l) && !l.flags.connected && l.flags.reading && l.status == EDEADLK
    ensures Inv(Destroyed(l)) && !Free(Destroyed(l)) && CanBeFreed(Destroyed(l), d)
  {
    d := Answers(Later);
    CreateReading(1);
    l := Step(Unused(), d, Create(2, 1, false)).0;
    StepKeeps(Unused(), d, Create(2, 1, false));
    DestroyFrees(l, d);
  }

  /** A read that reports an error stops the connection, and disconnecting frees it at once. */
  lemma FreedAtOnce() returns (l: Line, d: Devices)
    ensures Inv(Unused()) && Fitting(d) && Run(Unused(), d, [Create(2, 9, false), READ_ERROR], l)
    ensures Inv(l) && l.flags.inUse && l.flags.failed && Free(Destroyed(l))
  {
    d := Answers(Later);
    CreateReading(9);
    l := ErrorAfter(d, Reading(9));
  }

  lemma {:induction false} SupplyMore(heard: seq<Heard>, h: Heard)
    ensures Supply(heard + [h]) == Supply(heard) + Bytes(h)
    ensures !AllStraight(heard) || !Straight(h) ==> !AllStraight(heard + [h])
  {
    assert (heard + [h])[..|heard|] == heard;
    LastStraight(heard + [h]);
  }

  /** The read has completed with one byte, its request left at two: the next read and a write are in flight. */
  function Stale(): Line
  {
    Reading(9).(memory := [[7, 0], [0, 0]], turn := 1, queue := [[7, 0]], taken := [[7, 0]], readCalls := 2,
                writeCalls := 1, told := [Offer(2, TakesLater)],
                heard := [Answer(2, Later)] + [Completed([7], 2)] + [Answer(2, Later)],
                flags := Reading(9).flags.(writing := true))
  }

  lemma StaleEnds()
    ensures var l := ReadEnds(Reading(9), [7], 2, false, false);
      && l.memory == [[7, 0], [0, 0]] && l.queue == l.taken == [[7, 0]] && l.turn == 1 && l.open
      && l.heard == [Answer(2, Later)] + [Completed([7], 2)]
      && l == Reading(9).(memory := l.memory, turn := 1, queue := l.queue, taken := l.taken, heard := l.heard,
                          flags := Reading(9).flags.(reading := false))
  {
    assert [7] + [0, 0][1..] == [7, 0] && [7, 0][..2] == [7, 0];
    assert [] + [[7, 0]] == [[7, 0]];
    assert Fill(Reading(9).(flags := Reading(9).flags.(reading := false)), [7]).memory == [[7, 0], [0, 0]];
  }

  lemma LaterRead(l: Line, d: Devices, size: nat)
    requires Memory(l) && Fitting(d) && ReadyToRead(l) && l.setting.packetSize == size > 0
    requires d.read(l.readCalls, size) == Later
    ensures Read(l, d) == (l.(readCalls := l.readCalls + 1, heard := l.heard + [Answer(size, Later)],
                              flags := l.flags.(reading := true)), Waits)
  {}

  lemma LaterWrite(l: Line, d: Devices, size: nat)
    requires !l.flags.writing && l.status >= 0 && l.queue != [] && |l.queue[0]| == size
    requires d.write(l.writeCalls, size) == TakesLater
    ensures Write(l, d) == (l.(writeCalls := l.writeCalls + 1, told := l.told + [Offer(size, TakesLater)],
                               flags := l.flags.(writing := true)), Waits)
  {}

  lemma StaleOnce(l: Line)
    requires l == ReadEnds(Reading(9), [7], 2, false, false) && Sound(l) && Fitting(Answers(Later))
    ensures Once(l, Answers(Later)) == (Stale(), Waits)
  {
    StaleEnds();
    LaterRead(l, Answers(Later), 2);
    LaterWrite(Read(l, Answers(Later)).0, Answers(Later), 2);
    assert [] + [Offer(2, TakesLater)] == [Offer(2, TakesLater)];
  }

  /** The handler of a completed read, by what it makes of the line. */
  lemma HandledOnce(l: Line, d: Devices, e: Event, r: Line, y: Line)
    requires Sound(l) && Fitting(d) && l.flags.inUse && e.DataReady? && Completes(l, e)
    requires r == ReadEnds(l, e.data, e.nbyte, e.cancel, e.error) && Sound(r) && Pump(r, d).0 == y
    ensures Step(l, d, e).0 == y
  {}

  lemma StaleStep(l: Line)
    requires Fitting(Answers(Later)) && Inv(l) && l == Reading(9)
    ensures Possible(l, DataReady([7], 2, false, false))
    ensures Step(l, Answers(Later), DataReady([7], 2, false, false)).0 == Stale()
  {
    ReadEndsKeeps(l, [7], 2, false, false);
    var r := ReadEnds(l, [7], 2, false, false);
    StaleOnce(r);
    assert r.status == 0;
    PumpedOnce(r, Answers(Later), Stale());
    HandledOnce(l, Answers(Later), DataReady([7], 2, false, false), r, Stale());
  }

  lemma StaleRun()
    ensures Inv(Unused()) && Fitting(Answers(Later))
    ensures Run(Unused(), Answers(Later), [Create(2, 9, false), DataReady([7], 2, false, false)], Stale())
  {
    CreateReading(9);
    StepKeeps(Unused(), Answers(Later), Create(2, 9, false));
    StaleStep(Reading(9));
    RunTwo(Unused(), Answers(Later), Create(2, 9, false), Reading(9), DataReady([7], 2, false, false));
  }

  lemma StaleSupply(a: Heard, b: Heard, c: Heard)
    ensures Supply([a] + [b] + [c]) == Bytes(a) + Bytes(b) + Bytes(c)
    ensures !Straight(b) ==> !AllStraight([a] + [b] + [c])
  {
    SupplyMore([], a);
    assert [] + [a] == [a] && [] + Bytes(a) == Bytes(a);
    SupplyMore([a], b);
    SupplyMore([a] + [b], c);
  }

  lemma StaleHeard()
    ensures Stale().taken == Stale().queue == [[7, 0]] && Stale().flags.writing
    ensures Supply(Stale().heard) == [7] && !AllStraight(Stale().heard)
  {
    StaleSupply(Answer(2, Later), Completed([7], 2), Answer(2, Later));
    assert [] + [7] + [] == [7];
  }

  /** A read of two bytes that completes with one, its request left at two, sends on a byte nobody supplied. */
  lemma StaleByteSent() returns (l: Line, d: Devices)
    ensures Inv(Unused()) && Fitting(d)
    ensures Run(Unused(), d, [Create(2, 9, false), DataReady([7], 2, false, false)], l)
    ensures l.taken == l.queue == [[7, 0]] && l.flags.writing && Supply(l.heard) == [7] && !AllStraight(l.heard)
  {
    StaleRun();
    StaleHeard();
    d, l := Answers(Later), Stale();
  }

  // ---- nothing to read, and a write taken in part ----

  /** The first read of two bytes answered by `first`, writes of two bytes by `w`, and all others later. */
  function Says(first: ReadAnswer, w: WriteAnswer): Devices
  {
    Devices((k, n) => if k == 0 && n == 2 then first else Later, (k, n) => if n == 2 then w else TakesLater)
  }

  /** A connection that has taken the packet `[a, b]`, which the input device answered by `first`. */
  function TookPacket(first: ReadAnswer, a: byte, b: byte): Line
  {
    Unused().(setting := Setting(2, 2, 9, false), open := true, readCalls := 1, turn := 1,
              memory := [[a, b], [0, 0]], queue := [[a, b]], taken := [[a, b]],
              flags := NO_FLAGS.(inUse := true, connected := true), heard := [Answer(2, first)])
  }

  /** Then the next read in flight and the packet offered, which the output device answered by `w`. */
  function ThenOffered(l: Line, w: WriteAnswer): Line
    requires l.queue != []
  {
    var l1 := l.(readCalls := 2, writeCalls := 1, heard := l.heard + [Answer(2, Later)], told := [Offer(2, w)],
                 flags := l.flags.(reading := true));
    if w.Took? then l1.(queue := l.queue[1..], given := [l.queue[0]]) else l1.(flags := l1.flags.(writing := true))
  }

  predicate Packet(first: ReadAnswer, a: byte, b: byte)
  {
    first == Now([a, b]) || (first.Nothing? && a == 0 && b == 0)
  }

  lemma SaysFit(first: ReadAnswer, w: WriteAnswer, a: byte, b: byte)
    requires Packet(first, a, b) && (w.TakesLater? || w == Took(1))
    ensures Inv(Unused()) && Fitting(Says(first, w)) && Sound(SetUp(Unused(), 2, 9, false))
  {
    SetUpKeeps(Unused(), 2, 9, false);
  }

  lemma BytesTaken(a: byte, b: byte)
    ensures var l := Hear(SetUp(Unused(), 2, 9, false).(readCalls := 1), Answer(2, Now([a, b])));
      Memory(l) && Take(Fill(l, [a, b]), 2) == TookPacket(Now([a, b]), a, b)
  {
    var l := Hear(SetUp(Unused(), 2, 9, false).(readCalls := 1), Answer(2, Now([a, b])));
    assert l.heard == [Answer(2, Now([a, b]))] && [] + [[a, b]] == [[a, b]];
    assert [a, b] + [0, 0][2..] == [a, b] && [a, b][..2] == [a, b];
    assert Fill(l, [a, b]).memory == [[a, b], [0, 0]];
  }

  lemma OldTaken()
    ensures var l := Hear(SetUp(Unused(), 2, 9, false).(readCalls := 1), Answer(2, Nothing));
      Memory(l) && Take(l, 2) == TookPacket(Nothing, 0, 0)
  {
    var l := Hear(SetUp(Unused(), 2, 9, false).(readCalls := 1), Answer(2, Nothing));
    assert l.heard == [Answer(2, Nothing)] && [] + [[0, 0]] == [[0, 0]] && [0, 0][..2] == [0, 0];
  }

  /** The first read of a line that can be read. */
  lemma FirstRead(l: Line, d: Devices, first: ReadAnswer, l1: Line, r: Line)
    requires Memory(l) && Fitting(d) && ReadyToRead(l) && l.setting.packetSize > 0
    requires d.read(l.readCalls, l.setting.packetSize) == first
    requires l1 == Hear(l.(readCalls := l.readCalls + 1), Answer(l.setting.packetSize, first))
    requires ReadFits(first, l.setting.packetSize) && Answered(l1, first) == (r, Moved)
    ensures Once(l, d) == (r, Moved)
  {}

  lemma PacketAnswered(first: ReadAnswer, a: byte, b: byte, l1: Line)
    requires Packet(first, a, b) && l1 == Hear(SetUp(Unused(), 2, 9, false).(readCalls := 1), Answer(2, first))
    ensures Memory(l1) && ReadFits(first, 2) && Answered(l1, first) == (TookPacket(first, a, b), Moved)
  {
    if first.Now? {
      BytesTaken(a, b);
    } else {
      OldTaken();
    }
  }

  lemma PacketRead(first: ReadAnswer, w: WriteAnswer, a: byte, b: byte)
    requires Packet(first, a, b) && Fitting(Says(first, w)) && Sound(SetUp(Unused(), 2, 9, false))
    ensures Once(SetUp(Unused(), 2, 9, false), Says(first, w)) == (TookPacket(first, a, b), Moved)
  {
    var l := SetUp(Unused(), 2, 9, false);
    var l1 := Hear(l.(readCalls := 1), Answer(2, first));
    PacketAnswered(first, a, b, l1);
    FirstRead(l, Says(first, w), first, l1, TookPacket(first, a, b));
  }

  lemma PacketTaken(first: ReadAnswer, w: WriteAnswer, a: byte, b: byte)
    requires Packet(first, a, b) && Fitting(Says(first, w)) && Sound(SetUp(Unused(), 2, 9, false))
    ensures Once(SetUp(Unused(), 2, 9, false), Says(first, w)) == (TookPacket(first, a, b), Moved)
    ensures Sound(TookPacket(first, a, b))
  {
    PacketRead(first, w, a, b);
    OnceKeeps(SetUp(Unused(), 2, 9, false), Says(first, w));
  }

  lemma PacketOffered(first: ReadAnswer, w: WriteAnswer, a: byte, b: byte)
    requires Packet(first, a, b) && (w.TakesLater? || w == Took(1)) && Fitting(Says(first, w))
    requires Sound(TookPacket(first, a, b))
    ensures Once(TookPacket(first, a, b), Says(first, w))
         == (ThenOffered(TookPacket(first, a, b), w), if w.Took? then Moved else Waits)
  {
    assert [] + [Offer(2, w)] == [Offer(2, w)] && [] + [[a, b]] == [[a, b]];
  }

  /** A non-blocking input with nothing to read sends on two bytes nobody supplied. */
  lemma EmptyReadSent() returns (l: Line, d: Devices)
    ensures Inv(Unused()) && Fitting(d) && l == Step(Unused(), d, Create(2, 9, false)).0
    ensures l.taken == l.queue == [[0, 0]] && l.flags.writing && Supply(l.heard) == [] && !AllStraight(l.heard)
  {
    d := Says(Nothing, TakesLater);
    SaysFit(Nothing, TakesLater, 0, 0);
    PacketTaken(Nothing, TakesLater, 0, 0);
    PacketOffered(Nothing, TakesLater, 0, 0);
    var s, l1 := SetUp(Unused(), 2, 9, false), TookPacket(Nothing, 0, 0);
    l := ThenOffered(l1, TakesLater);
    TwoTurns(s, d, l1, l);
    assert Supply([]) == [] && [] + [Answer(2, Nothing)] == [Answer(2, Nothing)];
    SupplyMore([], Answer(2, Nothing));
    SupplyMore([Answer(2, Nothing)], Answer(2, Later));
  }

  /** A connection made by a transaction that completes at once and one that does not. */
  lemma TwoTurns(s: Line, d: Devices, l1: Line, l2: Line)
    requires Inv(Unused()) && Fitting(d) && s == SetUp(Unused(), 2, 9, false) && Sound(s) && Sound(l1)
    requires Once(s, d) == (l1, Moved) && Once(l1, d) == (l2, Waits)
    requires l2.status == 0 && l2.setting == s.setting && (l2.flags.reading || l2.flags.writing)
    ensures Step(Unused(), d, Create(2, 9, false)) == (l2, 0)
  {
    var step := Turn(d);
    assert step(s) == (l1, Moved) && step(l1) == (l2, Waits);
    assert Repeat(step, l1, 8) == (l2, Waits, 1);
    assert Repeat(step, s, 9) == (l2, Waits, 2);
  }

  lemma ThreeTurns(s: Line, d: Devices, l1: Line, l2: Line)
    requires Inv(Unused()) && Fitting(d) && s == SetUp(Unused(), 2, 9, false) && Sound(s) && Sound(l1) && Sound(l2)
    requires Once(s, d) == (l1, Moved) && Once(l1, d) == (l2, Moved) && Once(l2, d) == (l2, Waits)
    requires l2.status == 0 && l2.setting == s.setting && (l2.flags.reading || l2.flags.writing)
    ensures Step(Unused(), d, Create(2, 9, false)) == (l2, 0)
  {
    var step := Turn(d);
    assert step(s) == (l1, Moved) && step(l1) == (l2, Moved) && step(l2) == (l2, Waits);
    assert Repeat(step, l2, 7) == (l2, Waits, 1);
    assert Repeat(step, l1, 8) == (l2, Waits, 2);
    assert Repeat(step, s, 9) == (l2, Waits, 3);
  }

  /** An output device that takes one byte of a packet of two never sees the other. */
  lemma PartTaken() returns (l: Line, d: Devices)
    ensures Inv(Unused()) && Fitting(d) && l == Step(Unused(), d, Create(2, 9, false)).0
    ensures l.given == [[7, 8]] && l.queue == [] && !AllWhole(l.told)
    ensures Handed(l.told, l.given) && Received(l.told, l.given) == [7]
  {
    d := Says(Now([7, 8]), Took(1));
    SaysFit(Now([7, 8]), Took(1), 7, 8);
    PacketTaken(Now([7, 8]), Took(1), 7, 8);
    PacketOffered(Now([7, 8]), Took(1), 7, 8);
    var s, l1 := SetUp(Unused(), 2, 9, false), TookPacket(Now([7, 8]), 7, 8);
    OnceKeeps(l1, d);
    l := ThenOffered(l1, Took(1));
    ThreeTurns(s, d, l1, l);
    PartReceived(l.told, l.given);
  }

  lemma PartReceived(told: seq<Told>, given: seq<seq<byte>>)
    requires told == [Offer(2, Took(1))] && given == [[7, 8]]
    ensures Handed(told, given) && Received(told, given) == [7] && !AllWhole(told)
  {
    assert told[..0] == [] && given[..0] == [] && [7, 8][..1] == [7];
    assert !Whole(told[0]);
  }

  // ---- a first packet at once ----

  /** After it: the packet taken, the next read not yet begun. */
  function OnePacket(limit: nat): Line
  {
    Unused().(setting := Setting(2, 2, limit, false), open := true, readCalls := 1, turn := 1,
              memory := [[7, 0], [0, 0]], queue := [[7]], taken := [[7]],
              flags := NO_FLAGS.(inUse := true, connected := true), heard := [Answer(2, Now([7]))])
  }

  lemma ReadOnePacket(limit: nat)
    ensures Inv(Unused()) && Fitting(Answers(Now([7]))) && Sound(SetUp(Unused(), 2, limit, false))
    ensures Once(SetUp(Unused(), 2, limit, false), Answers(Now([7]))) == (OnePacket(limit), Moved)
  {
    AnswersFit(Now([7]));
    SetUpKeeps(Unused(), 2, limit, false);
    var l := SetUp(Unused(), 2, limit, false);
    var l1 := Hear(l.(readCalls := 1), Answer(2, Now([7])));
    assert [] + [Answer(2, Now([7]))] == [Answer(2, Now([7]))];
    assert [7] + [0, 0][1..] == [7, 0] && [7, 0][..1] == [7];
    assert Fill(l1, [7]).memory == [[7, 0], [0, 0]];
    assert [] + [[7]] == [[7]];
    assert Take(Fill(l1, [7]), 1) == OnePacket(limit);
  }

  /** Without a limit one packet at once leaves nothing in flight: the connection stops, and is never freed. */
  lemma StoppedForEver() returns (l: Line, d: Devices)
    ensures Inv(Unused()) && Fitting(d) && l == Step(Unused(), d, Create(2, 0, false)).0
    ensures Inv(l) && l.flags.inUse && l.status == ENODATA
    ensures Inv(Destroyed(l)) && !CanBeFreed(Destroyed(l), d)
  {
    d := Answers(Now([7]));
    ReadOnePacket(0);
    PumpOne(SetUp(Unused(), 2, 0, false), d);
    l := Step(Unused(), d, Create(2, 0, false)).0;
    StepKeeps(Unused(), d, Create(2, 0, false));
    DestroyFrees(l, d);
  }

  /** After the packet, a read and a write in flight. */
  function Both(limit: nat): Line
  {
    OnePacket(limit).(readCalls := 2, writeCalls := 1, told := [Offer(1, TakesLater)],
                      heard := [Answer(2, Now([7])), Answer(2, Later)],
                      flags := NO_FLAGS.(inUse := true, connected := true, reading := true, writing := true))
  }

  lemma ReadAndWrite(limit: nat)
    ensures Fitting(Answers(Now([7]))) && Sound(OnePacket(limit))
    ensures Once(OnePacket(limit), Answers(Now([7]))) == (Both(limit), Waits)
  {
    ReadOnePacket(limit);
    OnceKeeps(SetUp(Unused(), 2, limit, false), Answers(Now([7])));
    assert [Answer(2, Now([7]))] + [Answer(2, Later)] == [Answer(2, Now([7])), Answer(2, Later)];
    assert [] + [Offer(1, TakesLater)] == [Offer(1, TakesLater)];
  }

  lemma CreateBoth(limit: nat)
    requires limit > 2
    ensures Inv(Unused()) && Fitting(Answers(Now([7])))
    ensures Step(Unused(), Answers(Now([7])), Create(2, limit, false)) == (Both(limit), 0)
  {
    ReadOnePacket(limit);
    ReadAndWrite(limit);
    var step, l, l1 := Turn(Answers(Now([7]))), SetUp(Unused(), 2, limit, false), OnePacket(limit);
    assert step(l) == (l1, Moved) && step(l1) == (Both(limit), Waits);
    assert Repeat(step, l1, limit - 1) == (Both(limit), Waits, 1);
    assert Repeat(step, l, limit) == (Both(limit), Waits, 2);
  }

  /** A read error while a write is in flight: disconnecting then frees what the output device still works for. */
  lemma FreedInFlight() returns (l: Line, d: Devices)
    ensures Inv(Unused()) && Fitting(d) && Run(Unused(), d, [Create(2, 9, false), READ_ERROR], l)
    ensures Inv(l) && FreesEarly(l, d, Destroy) && Free(Destroyed(l)) && l.flags.writing
  {
    d := Answers(Now([7]));
    CreateBoth(9);
    l := ErrorAfter(d, Both(9));
  }

  /** The first read answered at once, the second later, and a write that fails. */
  function OutputFails(): Devices
  {
    Devices(Answers(Now([7])).read, (k, n) => WriteError(EIO))
  }

  lemma OutputFailsFit()
    ensures Fitting(OutputFails())
  {
    AnswersFit(Now([7]));
    var d := Answers(Now([7]));
    assert forall k: nat, n: nat :: ReadFits(d.read(k, n), n);
  }

  /** The read is the same with any output device. */
  lemma SameRead(limit: nat)
    ensures Fitting(OutputFails()) && Sound(SetUp(Unused(), 2, limit, false)) && Sound(OnePacket(limit))
    ensures Once(SetUp(Unused(), 2, limit, false), OutputFails()) == (OnePacket(limit), Moved)
  {
    OutputFailsFit();
    ReadOnePacket(limit);
    OnceKeeps(SetUp(Unused(), 2, limit, false), Answers(Now([7])));
    var l := SetUp(Unused(), 2, limit, false);
    assert Read(l, OutputFails()) == Read(l, Answers(Now([7])));
  }

  /** After the first packet a read that is answered later and a write that fails. */
  lemma WriteFails() returns (d: Devices, s: Line, l1: Line)
    ensures Inv(Unused()) && Fitting(d) && s == SetUp(Unused(), 2, 9, false)
    ensures Sound(s) && Sound(l1) && Rounds(s) > 1 && Once(s, d) == (l1, Moved)
    ensures Once(l1, d).1.Fails? && Once(l1, d).0.flags.reading
  {
    AnswersFit(Later);
    SameRead(9);
    d, s, l1 := OutputFails(), SetUp(Unused(), 2, 9, false), OnePacket(9);
  }

  lemma SecondFails(l: Line, d: Devices, e: Event, s: Line, l1: Line)
    requires Inv(l) && Free(l) && Fitting(d) && e.Create? && s == SetUp(l, e.wanted, e.limit, e.fillZero)
    requires Sound(s) && Sound(l1) && Rounds(s) > 1 && Once(s, d) == (l1, Moved)
    requires Once(l1, d).1.Fails? && Once(l1, d).0.flags.reading
    ensures Free(Step(l, d, e).0) && Outstanding(l, d, e) && FreesEarly(l, d, e)
  {
    var step := Turn(d);
    assert step(s) == (l1, Moved) && step(l1) == Once(l1, d);
    assert Moves(step, l1, 0) && After(step, l1, 0) == l1;
    assert FailsInFlight(s, step, 1);
    FreedEarly(l, d, e);
  }

  /** A connection that is aborted while it is created leaves the input device at work on its read. */
  lemma AbortedInFlight() returns (d: Devices, e: Event)
    ensures Inv(Unused()) && Fitting(d) && e.Create?
    ensures Free(Step(Unused(), d, e).0) && Outstanding(Unused(), d, e) && FreesEarly(Unused(), d, e)
  {
    var s, l1;
    d, s, l1 := WriteFails();
    e := Create(2, 9, false);
    SecondFails(Unused(), d, e, s, l1);
  }
}
