/** When a switchboard connection that is disconnected is freed. */
module LineFreed {
  import opened Common
  import opened Repeating
  import opened PacketLine

  // ---- completions ----

  lemma ReadEndsFlags(l: Line, data: seq<byte>, nbyte: int, cancel: bool, error: bool)
    requires Memory(l) && nbyte <= l.setting.packetSize && |data| <= l.setting.packetSize
    ensures var r := ReadEnds(l, data, nbyte, cancel, error);
      r.flags == Reported(l.flags, cancel, error).(reading := false) && (l.status < 0 ==> r.status < 0)
  {}

  /** Closing a line frees it if it was destroyed, and otherwise only disconnects it. */
  lemma CheckedFlags(x: Line, n: nat)
    requires x.status <= 0 && (x.flags.destroyed ==> x.status < 0)
    ensures var r := Check(Verdict(x, n));
      if x.flags.destroyed then Free(r) else r.flags == x.flags.(connected := r.flags.connected)
  {}

  lemma PumpUse(l: Line, d: Devices)
    requires Sound(l) && Fitting(d) && l.flags.inUse
    ensures Pump(l, d).0.flags.inUse <==> !l.flags.destroyed
    ensures l.flags.destroyed ==> Free(Pump(l, d).0)
    ensures !l.flags.destroyed ==>
      Pump(l, d).0.flags.failed == l.flags.failed && Pump(l, d).0.flags.canceled == l.flags.canceled
  {
    if l.status == 0 {
      TurnSteps(d);
      var m, x, o := PumpEnds(l, Turn(d));
      CheckedFlags(x, m + 1);
    }
  }

  /** A completion is the pump of a line that is destroyed or not as before. */
  lemma ReadPumps(l: Line, d: Devices, e: Event) returns (r: Line)
    requires Sound(l) && Fitting(d) && Completes(l, e) && e.DataReady? && l.flags.inUse
    ensures Handled(l, d, e) == Pump(r, d).0
    ensures Sound(r) && r.flags.inUse && r.flags.destroyed == l.flags.destroyed
  {
    r := ReadEnds(l, e.data, e.nbyte, e.cancel, e.error);
    ReadEndsKeeps(l, e.data, e.nbyte, e.cancel, e.error);
    ReadEndsFlags(l, e.data, e.nbyte, e.cancel, e.error);
  }

  lemma WritePumps(l: Line, d: Devices, e: Event) returns (r: Line)
    requires Sound(l) && Fitting(d) && Completes(l, e) && e.WriteComplete? && l.flags.inUse
    ensures Handled(l, d, e) == Pump(r, d).0
    ensures Sound(r) && r.flags.inUse && r.flags.destroyed == l.flags.destroyed
  {
    r := WriteEnds(l, d, e.n, e.nbyte, e.cancel, e.error);
    WriteEndsKeeps(l, d, e.n, e.nbyte, e.cancel, e.error);
    WriteEndsFlags(l, d, e.n, e.nbyte, e.cancel, e.error);
  }

  /** The next completion, whatever it reports, frees a destroyed line; no completion frees another. */
  lemma CompletionFrees(l: Line, d: Devices, e: Event)
    requires Inv(l) && Fitting(d) && Possible(l, e) && (e.DataReady? || e.WriteComplete?) && l.flags.inUse
    ensures Free(Step(l, d, e).0) <==> l.flags.destroyed
  {
    var r;
    if e.DataReady? {
      r := ReadPumps(l, d, e);
    } else {
      r := WritePumps(l, d, e);
    }
    PumpUse(r, d);
  }

  // ---- lines that stay for ever ----

  /** Destroyed, no error or cancel reported, and nothing in flight. */
  predicate Stuck(l: Line)
  {
    l.flags.destroyed && !l.flags.failed && !l.flags.canceled && !l.flags.reading && !l.flags.writing
  }

  lemma StuckStays(l: Line, d: Devices, e: Event)
    requires Inv(l) && Fitting(d) && Possible(l, e) && Stuck(l)
    ensures Stuck(Step(l, d, e).0)
  {}

  lemma {:induction false} NeverFreed(l: Line, d: Devices, events: seq<Event>, last: Line)
    requires Inv(l) && Fitting(d) && Stuck(l) && Run(l, d, events, last)
    ensures Stuck(last) && !Free(last)
    decreases |events|
  {
    if events == [] {
    } else {
      StepKeeps(l, d, events[0]);
      StuckStays(l, d, events[0]);
      NeverFreed(Step(l, d, events[0]).0, d, events[1..], last);
    }
  }

  /** Some run frees the line. */
  ghost predicate CanBeFreed(l: Line, d: Devices)
    requires Inv(l) && Fitting(d)
  {
    exists events: seq<Event>, last: Line :: Run(l, d, events, last) && Free(last)
  }

  lemma FreedByOne(l: Line, d: Devices, e: Event)
    requires Inv(l) && Fitting(d) && Possible(l, e) && Free(Step(l, d, e).0)
    ensures CanBeFreed(l, d)
  {
    StepKeeps(l, d, e);
    var last := Step(l, d, e).0;
    assert [e][1..] == [];
    assert Run(last, d, [], last);
    assert Run(l, d, [e], last);
  }

  /**
   Disconnecting frees the line at once if and only if a completion has reported an error or a cancel. Otherwise it
   can be freed later if and only if an operation is in flight, and then the next completion frees it. A line that
   was free, or that stopped with nothing in flight, is never freed again, whatever is asked of it.
   */
  lemma DestroyFrees(l: Line, d: Devices)
    requires Inv(l) && Fitting(d)
    ensures Inv(Destroyed(l))
    ensures Free(Destroyed(l)) <==> l.flags.failed || l.flags.canceled
    ensures !Free(Destroyed(l)) ==> (CanBeFreed(Destroyed(l), d) <==> l.flags.reading || l.flags.writing)
  {
    DestroyedKeeps(l);
    var l1 := Destroyed(l);
    if !Free(l1) {
      if l.flags.reading {
        CompletionFrees(l1, d, DataReady([], 0, false, false));
        FreedByOne(l1, d, DataReady([], 0, false, false));
      } else if l.flags.writing {
        CompletionFrees(l1, d, WriteComplete(0, 0, false, false));
        FreedByOne(l1, d, WriteComplete(0, 0, false, false));
      } else if CanBeFreed(l1, d) {
        var events, last :| Run(l1, d, events, last) && Free(last);
        NeverFreed(l1, d, events, last);
      }
    }
  }

  // ---- freed too early ----

  predicate InFlight(l: Line)
  {
    l.flags.reading || l.flags.writing
  }

  /** A device still holds an operation when the event is dealt with, whether or not the line then remembers it. */
  ghost predicate Outstanding(l: Line, d: Devices, e: Event)
  {
    match e
    case Create(wanted, limit, fillZero) =>
      if Free(l) then InFlight(Pump(SetUp(l, wanted, limit, fillZero), d).0) else InFlight(l)
    case DataReady(_, _, _, _) => l.flags.writing
    case WriteComplete(_, _, _, _) => l.flags.reading
    case _ => InFlight(l)
  }

  /** Transaction `m` of a new line is the first that does not complete at once: it fails, with a read in flight. */
  ghost predicate FailsInFlight(l: Line, step: Line -> (Line, Outcome), m: nat)
  {
    && m < Rounds(l) && Moves(step, l, m)
    && var (r, o) := step(After(step, l, m)); o.Fails? && InFlight(r)
  }

  /** An event frees a line that a device still works for exactly in these cases. */
  ghost predicate FreesEarly(l: Line, d: Devices, e: Event)
  {
    match e
    case Destroy => (l.flags.failed || l.flags.canceled) && InFlight(l)
    case Clean => l.flags.failed && InFlight(l)
    case DataReady(_, _, _, _) => l.flags.destroyed && l.flags.writing
    case WriteComplete(_, _, _, _) => l.flags.destroyed && l.flags.reading
    case Create(wanted, limit, fillZero) =>
      Free(l) && exists m: nat :: FailsInFlight(SetUp(l, wanted, limit, fillZero), Turn(d), m)
  }

  /** Only the transaction a pump ends with can fail. */
  lemma FailsAtEnd(l: Line, step: Line -> (Line, Outcome), m: nat, k: nat)
    requires m < Rounds(l) && Moves(step, l, m) && (m + 1 < Rounds(l) ==> Stalls(step, l, m))
    requires k < Rounds(l) && Stalls(step, l, k)
    ensures k == m
  {
    StallsOnce(step, l, k, m);
    if m + 1 < Rounds(l) {
      StallsOnce(step, l, m, k);
    }
  }

  /** The pump of a new line fails with an operation in flight exactly when one of its transactions does. */
  lemma PumpFailsInFlight(l: Line, step: Line -> (Line, Outcome))
    requires Sound(l) && Steps(step) && l.status == 0
    ensures PumpBy(l, step).1.Fails? && InFlight(PumpBy(l, step).0) <==> exists m: nat :: FailsInFlight(l, step, m)
  {
    var m, x, o := PumpEnds(l, step);
    CheckedFlags(x, m + 1);
    if o.Fails? && InFlight(x) {
      assert FailsInFlight(l, step, m);
    }
    if exists k: nat :: FailsInFlight(l, step, k) {
      var k: nat :| FailsInFlight(l, step, k);
      FailsAtEnd(l, step, m, k);
    }
  }

  lemma CreatedEarly(l: Line, d: Devices, wanted: nat, limit: nat, fillZero: bool)
    requires Inv(l) && Fitting(d) && Free(l)
    ensures var (p, o) := Pump(SetUp(l, wanted, limit, fillZero), d);
      (Free(Created(l, d, wanted, limit, fillZero).0) <==> o.Fails?) &&
      (o.Fails? && InFlight(p) <==> FreesEarly(l, d, Create(wanted, limit, fillZero)))
  {
    SetUpKeeps(l, wanted, limit, fillZero);
    TurnSteps(d);
    PumpUse(SetUp(l, wanted, limit, fillZero), d);
    PumpFailsInFlight(SetUp(l, wanted, limit, fillZero), Turn(d));
  }

  lemma FreedEarly(l: Line, d: Devices, e: Event)
    requires Inv(l) && Fitting(d) && Possible(l, e)
    ensures Free(Step(l, d, e).0) && Outstanding(l, d, e) <==> FreesEarly(l, d, e)
  {
    match e
    case Create(wanted, limit, fillZero) =>
      if Free(l) {
        CreatedEarly(l, d, wanted, limit, fillZero);
      }
    case DataReady(_, _, _, _) =>
      if l.flags.inUse {
        CompletionFrees(l, d, e);
      }
    case WriteComplete(_, _, _, _) =>
      if l.flags.inUse {
        CompletionFrees(l, d, e);
      }
    case _ =>
  }

  // ---- completions that come too late ----

  /** What a device still had to say about a line that was freed is not heard: nothing changes. */
  lemma {:induction false} LateCompletions(l: Line, d: Devices, events: seq<Event>, last: Line)
    requires Inv(l) && Fitting(d) && !l.flags.inUse && Run(l, d, events, last)
    requires forall i :: 0 <= i < |events| ==> events[i].DataReady? || events[i].WriteComplete?
    ensures last == l
    decreases |events|
  {
    if events == [] {
    } else {
      assert Step(l, d, events[0]).0 == l;
      LateCompletions(l, d, events[1..], last);
    }
  }
}
