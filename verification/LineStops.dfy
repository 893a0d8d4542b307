/** When a switchboard connection stops. */
module LineStops {
  import opened Repeating
  import opened PacketLine

  // ---- the pump ----

  /** Transaction `m` leaves an operation in flight and no error. */
  ghost predicate LeavesInFlight(l: Line, step: Line -> (Line, Outcome), m: nat)
  {
    var (r, o) := step(After(step, l, m));
    !o.Fails? && (r.flags.reading || r.flags.writing)
  }

  /**
   Transaction `m` is the first that does not complete at once, comes before the last the limit allows, and leaves
   an operation in flight and no error. Without a limit there is one transaction, whether or not it completes at once.
   */
  ghost predicate Settles(l: Line, step: Line -> (Line, Outcome), m: nat)
  {
    && (if l.setting.limit == 0 then m == 0 else m + 1 < l.setting.limit && Stalls(step, l, m))
    && LeavesInFlight(l, step, m)
  }

  /** The devices complete all but the last transaction the limit allows at once. */
  predicate HitsLimit(l: Line, step: Line -> (Line, Outcome))
  {
    l.setting.limit > 0 && Moves(step, l, l.setting.limit - 1)
  }

  /** Only the transaction the pump ends with can settle it. */
  lemma SettlesExactly(l: Line, step: Line -> (Line, Outcome), m: nat)
    requires m < Rounds(l) && Moves(step, l, m) && (m + 1 < Rounds(l) ==> Stalls(step, l, m))
    ensures m + 1 != l.setting.limit && LeavesInFlight(l, step, m) <==> exists k: nat :: Settles(l, step, k)
  {
    if m + 1 != l.setting.limit && LeavesInFlight(l, step, m) {
      assert Settles(l, step, m);
    }
    if exists k: nat :: Settles(l, step, k) {
      var k: nat :| Settles(l, step, k);
      if l.setting.limit > 0 {
        StallsOnce(step, l, k, m);
        StallsOnce(step, l, k, l.setting.limit - 1);
        if m + 1 < l.setting.limit {
          StallsOnce(step, l, m, k);
        }
      }
    }
  }

  /**
   How a pump ends: after `m` transactions that complete at once and one more. It stops with a deadlock exactly when
   the line hits its limit, whatever is in flight, and it has moved `m` packets, one more if the last completed too.
   */
  lemma PumpVerdict(l: Line, step: Line -> (Line, Outcome)) returns (m: nat)
    requires Sound(l) && Steps(step) && l.flags.connected && l.status == 0
    ensures m < Rounds(l) && Moves(step, l, m) && (m + 1 < Rounds(l) ==> Stalls(step, l, m))
    ensures HitsLimit(l, step) <==> m + 1 == l.setting.limit
    ensures var r := PumpBy(l, step).0;
      && (r.flags.connected <==> m + 1 != l.setting.limit && LeavesInFlight(l, step, m))
      && (m + 1 == l.setting.limit ==> r.status == EDEADLK)
      && Packets(r) == Packets(l) + m + (if step(After(step, l, m)).1.Moved? then 1 else 0)
  {
    var x, o;
    m, x, o := PumpEnds(l, step);
    LimitReached(l, step, m);
    VerdictStays(x, m + 1);
  }

  lemma LimitReached(l: Line, step: Line -> (Line, Outcome), m: nat)
    requires m < Rounds(l) && (Moves(step, l, Rounds(l) - 1) <==> m + 1 == Rounds(l))
    ensures HitsLimit(l, step) <==> m + 1 == l.setting.limit
  {}

  /** A pump leaves the line connected if and only if some transaction settles it. */
  lemma PumpStays(l: Line, step: Line -> (Line, Outcome))
    requires Sound(l) && Steps(step) && l.flags.connected && l.status == 0
    ensures PumpBy(l, step).0.flags.connected <==> exists m: nat :: Settles(l, step, m)
  {
    var m := PumpVerdict(l, step);
    SettlesExactly(l, step, m);
  }
}
