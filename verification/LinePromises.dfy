/** What the users of a switchboard connection, and its devices, are promised by each operation. */
module LinePromises {
  import opened Common
  import opened Repeating
  import opened PacketLine

  // ---- one transaction ----

  /** A transaction asks the input device whenever it can, for a whole packet, and asks it once. */
  lemma AsksInput(l: Line, d: Devices)
    requires Sound(l) && Fitting(d)
    ensures var r := Read(l, d).0; var a := d.read(l.readCalls, l.setting.packetSize);
      if !l.flags.reading && l.open && l.status >= 0 && |l.queue| < 2
      then r.heard == l.heard + [Answer(l.setting.packetSize, a)] && r.readCalls == l.readCalls + 1
      else r == l
  {
    if ReadyToRead(l) {
      assert ReadFits(d.read(l.readCalls, l.setting.packetSize), l.setting.packetSize);
    }
  }

  /** A write offers the oldest packet whole, once, unless one is being written. */
  lemma OffersOutput(l: Line, d: Devices)
    ensures var r := Write(l, d).0;
      if !l.flags.writing && l.status >= 0 && l.queue != []
      then r.told == l.told + [Offer(|l.queue[0]|, d.write(l.writeCalls, |l.queue[0]|))]
           && r.writeCalls == l.writeCalls + 1
      else r == l
  {}

  /** A transaction writes exactly when no read can be had now. */
  lemma ReadThenWrite(l: Line, d: Devices)
    requires Sound(l) && Fitting(d)
    ensures Read(l, d).1.Waits? ==> Once(l, d) == Write(Read(l, d).0, d)
    ensures !Read(l, d).1.Waits? ==> Once(l, d) == Read(l, d)
  {}

  /** What a read that is answered at once makes of the line. */
  lemma PacketOf(l: Line, d: Devices)
    requires Sound(l) && Fitting(d) && ReadyToRead(l)
    ensures var r := Read(l, d).0; var size := l.setting.packetSize; var a := d.read(l.readCalls, size);
      match a
      case Now(data) => r.taken == l.taken + [data] && r.queue == l.queue + [data] && Read(l, d).1.Moved?
      case Nothing =>
        var packet := if l.setting.fillZero then seq(size, _ => 0) else l.memory[l.turn][..size];
        r.taken == l.taken + [packet] && r.queue == l.queue + [packet] && Read(l, d).1.Moved?
      case Later => r.flags == l.flags.(reading := true) && r.queue == l.queue && r.status == l.status
      case ReadError(code) => r.status == code && r.queue == l.queue && r.flags == l.flags
  {
    var size := l.setting.packetSize;
    var a := d.read(l.readCalls, size);
    assert ReadFits(a, size);
    var l1 := Hear(l.(readCalls := l.readCalls + 1), Answer(size, a));
    match a
    case Now(data) => assert Fill(l1, data).memory[l.turn][..|data|] == data;
    case Nothing =>
      if l.setting.fillZero {
        assert Fill(l1, seq(size, _ => 0)).memory[l.turn][..size] == seq(size, _ => 0);
      }
    case Later =>
    case ReadError(_) =>
  }

  // ---- requests ----

  /** A new line asks for the packet size wanted, or a buffer if that is less; limit and filling are as asked for. */
  lemma NewLineAsks(l: Line, d: Devices, wanted: nat, limit: nat, fillZero: bool)
    requires Sound(l) && Fitting(d)
    ensures var s := SetUp(l, wanted, limit, fillZero); var size := Min(wanted, l.setting.size);
      && Sound(s) && s.setting == Setting(l.setting.size, size, limit, fillZero) && s.memory == l.memory
      && (size > 0 ==> Read(s, d).0.heard == [Answer(size, d.read(l.readCalls, size))])
      && (size == 0 ==> Once(s, d) == (s, Waits))
  {
    SetUpKeeps(l, wanted, limit, fillZero);
    var s, size := SetUp(l, wanted, limit, fillZero), Min(wanted, l.setting.size);
    AsksInput(s, d);
    assert [] + [Answer(size, d.read(l.readCalls, size))] == [Answer(size, d.read(l.readCalls, size))];
  }

  /** Creating is refused unless the line is free, fails exactly when a transaction does, and leaves it free then. */
  lemma CreatePromise(l: Line, d: Devices, wanted: nat, limit: nat, fillZero: bool)
    requires Inv(l) && Fitting(d)
    ensures var (r, ret) := Step(l, d, Create(wanted, limit, fillZero));
      var (p, o) := Pump(SetUp(l, wanted, limit, fillZero), d);
      if !Free(l) then r == l && ret == EBUSY
      else if o.Fails? then Free(r) && ret == EIO
      else r == p && ret == 0 && r.flags.inUse
  {
    if Free(l) {
      SetUpKeeps(l, wanted, limit, fillZero);
      TurnSteps(d);
      var m, x, o := PumpEnds(SetUp(l, wanted, limit, fillZero), Turn(d));
    }
  }

  /** Cleaning frees the lines that noted an error, and touches no other. */
  lemma CleanPromise(l: Line, d: Devices)
    requires Inv(l) && Fitting(d)
    ensures var r := Step(l, d, Clean).0; if l.flags.failed then Free(r) else r == l
  {}

  // ---- completions ----

  /** A completion that reports an error, a cancel or a negative count. */
  predicate Bad(e: Event)
  {
    match e
    case DataReady(_, nbyte, cancel, error) => nbyte < 0 || cancel || error
    case WriteComplete(_, nbyte, cancel, error) => nbyte < 0 || cancel || error
    case _ => false
  }

  predicate Cancels(e: Event) { (e.DataReady? || e.WriteComplete?) && e.cancel }

  predicate Fails(e: Event) { (e.DataReady? || e.WriteComplete?) && e.error }

  /** The line is stopped without a call to either device, and what was reported noted unless the line is freed. */
  ghost predicate StoppedBy(l: Line, r: Line, e: Event)
  {
    && !r.flags.connected && r.readCalls == l.readCalls && r.writeCalls == l.writeCalls
    && r.taken == l.taken && r.given == l.given
    && (!l.flags.destroyed ==>
          && (r.flags.failed <==> l.flags.failed || Fails(e)) && (r.flags.canceled <==> l.flags.canceled || Cancels(e))
          && r.status < 0)
  }

  /** What a bad completion leaves before the pump looks at it. */
  ghost predicate Noted(l: Line, x: Line, e: Event)
  {
    && x.status < 0 && x.readCalls == l.readCalls && x.writeCalls == l.writeCalls
    && x.taken == l.taken && x.given == l.given && x.flags.destroyed == l.flags.destroyed
    && (x.flags.failed <==> l.flags.failed || Fails(e)) && (x.flags.canceled <==> l.flags.canceled || Cancels(e))
  }

  lemma NotedStops(l: Line, d: Devices, x: Line, e: Event)
    requires Noted(l, x, e)
    ensures StoppedBy(l, Pump(x, d).0, e)
  {}

  lemma BadReadNoted(l: Line, e: Event)
    requires Memory(l) && e.DataReady? && Completes(l, e) && Bad(e)
    ensures Noted(l, ReadEnds(l, e.data, e.nbyte, e.cancel, e.error), e)
  {}

  lemma BadWriteNoted(l: Line, d: Devices, e: Event)
    requires e.WriteComplete? && Completes(l, e) && Bad(e)
    ensures Noted(l, WriteEnds(l, d, e.n, e.nbyte, e.cancel, e.error), e)
  {}

  lemma BadStops(l: Line, d: Devices, e: Event)
    requires Inv(l) && Fitting(d) && Possible(l, e) && l.flags.inUse && Bad(e)
    ensures StoppedBy(l, Step(l, d, e).0, e)
  {
    if e.DataReady? {
      BadReadNoted(l, e);
      NotedStops(l, d, ReadEnds(l, e.data, e.nbyte, e.cancel, e.error), e);
    } else {
      BadWriteNoted(l, d, e);
      NotedStops(l, d, WriteEnds(l, d, e.n, e.nbyte, e.cancel, e.error), e);
    }
  }

  /** A good completion of a read makes a packet of as many bytes as counted, that starts with those that came. */
  lemma GoodReadTakes(l: Line, data: seq<byte>, nbyte: nat)
    requires Sound(l) && Completes(l, DataReady(data, nbyte, false, false)) && nbyte > 0
    ensures var r := ReadEnds(l, data, nbyte, false, false); var packet := data + l.memory[l.turn][|data|..nbyte];
      && r.taken == l.taken + [packet] && r.queue == l.queue + [packet] && !r.flags.reading
      && r.heard == l.heard + [Completed(data, nbyte)]
  {
    var l1 := Fill(l.(flags := l.flags.(reading := false)), data);
    assert l1.memory[l.turn][..nbyte] == data + l.memory[l.turn][|data|..nbyte];
  }

  /** A good completion of a write is the end of the oldest packet, and the next is offered at once. */
  lemma GoodWriteLeaves(l: Line, d: Devices, n: nat, nbyte: nat)
    requires Sound(l) && Fitting(d) && Completes(l, WriteComplete(n, nbyte, false, false))
    ensures var r := WriteEnds(l, d, n, nbyte, false, false);
      && l.given + [l.queue[0]] <= r.given && l.told + [Finished(|l.queue[0]|, n)] <= r.told
      && (|l.queue| == 2 && l.status >= 0 ==> r.writeCalls == l.writeCalls + 1)
      && (|l.queue| == 1 ==> r.queue == [] && r.writeCalls == l.writeCalls)
  {}
}
