/**
 While quanta run out one after the other, every executing round-robin task runs again within three times as many
 expiries as there are tasks, however much of its quantum it had left.
 */
module NoStarvation {
  import opened Scheduler

  /** Tasks but task 0 the scan could stop at. */
  function Candidates(ts: seq<Task>): nat
  {
    if |ts| <= 1 then 0 else Candidates(ts[..|ts| - 1]) + if Eligible(ts[|ts| - 1]) then 1 else 0
  }

  lemma {:induction false} CandidatesBelow(ts: seq<Task>)
    ensures Candidates(ts) <= if |ts| <= 1 then 0 else |ts| - 1
    ensures forall i :: 1 <= i < |ts| && Eligible(ts[i]) ==> Candidates(ts) >= 1
    decreases |ts|
  {
    if |ts| <= 1 {
    } else {
      CandidatesBelow(ts[..|ts| - 1]);
      forall i | 1 <= i < |ts| && Eligible(ts[i]) ensures Candidates(ts) >= 1 {
        assert i < |ts| - 1 ==> ts[..|ts| - 1][i] == ts[i];
      }
    }
  }

  /** `ts'` is `ts` with task `c`, which was a candidate, no longer one. */
  ghost predicate OneLess(ts: seq<Task>, ts': seq<Task>, c: nat)
  {
    && |ts'| == |ts| && c < |ts| && Eligible(ts[c]) && !Eligible(ts'[c])
    && forall i :: 1 <= i < |ts| && i != c ==> (Eligible(ts'[i]) <==> Eligible(ts[i]))
  }

  ghost predicate SameCandidates(ts: seq<Task>, ts': seq<Task>)
  {
    |ts'| == |ts| && forall i :: 1 <= i < |ts| ==> (Eligible(ts'[i]) <==> Eligible(ts[i]))
  }

  lemma {:induction false} CandidatesSame(ts: seq<Task>, ts': seq<Task>)
    requires SameCandidates(ts, ts')
    ensures Candidates(ts') == Candidates(ts)
    decreases |ts|
  {
    if |ts| <= 1 {
    } else {
      CandidatesSame(ts[..|ts| - 1], ts'[..|ts| - 1]);
    }
  }

  lemma {:induction false} CandidatesLess(ts: seq<Task>, ts': seq<Task>, c: nat)
    requires OneLess(ts, ts', c) && 1 <= c
    ensures Candidates(ts') == Candidates(ts) - 1
    decreases |ts|
  {
    var n := |ts| - 1;
    if c == n {
      CandidatesSame(ts[..n], ts'[..n]);
    } else {
      CandidatesLess(ts[..n], ts'[..n], c);
    }
  }

  // ---- one expiry ----

  /** New quanta are handed out. */
  predicate Renews(ts: seq<Task>, c: nat)
    requires c < |ts|
  {
    Reloads(Spent(ts, c), c)
  }

  /** Without new quanta only the task that ran stops being a candidate. */
  lemma Uses(ts: seq<Task>, c: nat, ts': seq<Task>, n: nat, reload: nat)
    requires Expires(ts, c, ts', n, reload) && !Renews(ts, c) && RoundRobin(ts)
    ensures if c != 0 && Eligible(ts[c]) then OneLess(ts, ts', c) else SameCandidates(ts, ts')
    ensures n != 0 ==> Eligible(ts'[n])
  {}

  /** How many expiries there can be before new quanta come. */
  function Rank(ts: seq<Task>, c: nat): int
  {
    2 * Candidates(ts) - if c == 0 then 0 else 1
  }

  lemma RankFalls(ts: seq<Task>, c: nat, ts': seq<Task>, n: nat, reload: nat)
    requires Expires(ts, c, ts', n, reload) && !Renews(ts, c) && RoundRobin(ts) && (c == 0 || Eligible(ts[c]))
    ensures Rank(ts', n) < Rank(ts, c)
  {
    Uses(ts, c, ts', n, reload);
    if c != 0 {
      CandidatesLess(ts, ts', c);
    } else {
      CandidatesSame(ts, ts');
    }
  }

  lemma RankBounds(ts: seq<Task>, c: nat)
    requires c < |ts| && (c == 0 || Eligible(ts[c]))
    ensures 0 <= Rank(ts, c) <= 2 * |ts| - 2
  {
    CandidatesBelow(ts);
  }

  /** Who executes stays the same, and whoever is chosen can run. */
  lemma Stays(ts: seq<Task>, c: nat, ts': seq<Task>, n: nat, reload: nat, i: nat)
    requires Expires(ts, c, ts', n, reload) && RoundRobin(ts) && reload >= MIN_CYCLES && 1 <= i < |ts| && ts[i].exec
    ensures |ts'| == |ts| && n < |ts| && RoundRobin(ts') && ts'[i].exec && (n == 0 || Eligible(ts'[n]))
    ensures Renews(ts, c) ==> n == 0 && Eligible(ts'[i])
    ensures i != c && Eligible(ts[i]) ==> Eligible(ts'[i])
  {}

  // ---- runs ----

  /** `tables` and `trace` are a run of expiries. */
  ghost predicate IsRun(tables: seq<seq<Task>>, trace: seq<nat>, reload: nat)
  {
    |trace| == |tables| > 0 &&
    forall k :: 0 <= k < |tables| - 1 ==> Expires(tables[k], trace[k], tables[k + 1], trace[k + 1], reload)
  }

  /** What holds of every table of a run for a task that executes at its start. */
  ghost predicate Going(ts: seq<Task>, c: nat, total: nat, i: nat)
  {
    |ts| == total && c < total && 1 <= i < total && RoundRobin(ts) && ts[i].exec
  }

  lemma {:induction false} AllGoing(tables: seq<seq<Task>>, trace: seq<nat>, reload: nat, total: nat, i: nat, k: nat)
    requires IsRun(tables, trace, reload) && Going(tables[0], trace[0], total, i) && reload >= MIN_CYCLES
    requires k < |tables|
    ensures Going(tables[k], trace[k], total, i) && (k > 0 && trace[k] != 0 ==> Eligible(tables[k][trace[k]]))
    decreases k
  {
    if k == 0 {
    } else {
      AllGoing(tables, trace, reload, total, i, k - 1);
      Stays(tables[k - 1], trace[k - 1], tables[k], trace[k], reload, i);
    }
  }

  /** New quanta come within twice as many expiries as there are tasks. */
  lemma {:induction false} RenewsSoon(tables: seq<seq<Task>>, trace: seq<nat>, reload: nat, total: nat, i: nat, k: nat)
    returns (r: nat)
    requires IsRun(tables, trace, reload) && Going(tables[0], trace[0], total, i) && reload >= MIN_CYCLES
    requires 1 <= k && k + 2 * total < |tables|
    ensures k <= r < k + 2 * total && trace[r] < |tables[r]| && Renews(tables[r], trace[r])
  {
    r := k;
    AllGoing(tables, trace, reload, total, i, k);
    RankBounds(tables[k], trace[k]);
    while !Renews(tables[r], trace[r])
      invariant k <= r < k + 2 * total && Going(tables[r], trace[r], total, i)
      invariant trace[r] == 0 || Eligible(tables[r][trace[r]])
      invariant 0 <= Rank(tables[r], trace[r]) <= 2 * total - 2 - (r - k)
      decreases k + 2 * total - r
    {
      assert Expires(tables[r], trace[r], tables[r + 1], trace[r + 1], reload);
      RankFalls(tables[r], trace[r], tables[r + 1], trace[r + 1], reload);
      AllGoing(tables, trace, reload, total, i, r + 1);
      r := r + 1;
      RankBounds(tables[r], trace[r]);
    }
  }

  lemma Nearer(ts: seq<Task>, c: nat, ts': seq<Task>, n: nat, reload: nat, i: nat)
    requires Expires(ts, c, ts', n, reload) && 1 <= i < |ts| && i != c && Eligible(ts[i])
    ensures n == i || Distance(n, i, |ts|) < Distance(c, i, |ts|)
  {
    assert Spent(ts, c)[i] == ts[i];
    ScanApproaches(Spent(ts, c), c, i);
  }

  /** A task that can be chosen is, within as many expiries as there are tasks. */
  lemma {:induction false} ChosenSoon(tables: seq<seq<Task>>, trace: seq<nat>, reload: nat, total: nat, i: nat, k: nat)
    returns (r: nat)
    requires IsRun(tables, trace, reload) && Going(tables[0], trace[0], total, i) && reload >= MIN_CYCLES
    requires k + total < |tables| && i < |tables[k]| && Eligible(tables[k][i])
    ensures k <= r <= k + total && trace[r] == i
  {
    r := k;
    AllGoing(tables, trace, reload, total, i, k);
    while trace[r] != i
      invariant k <= r <= k + total && Going(tables[r], trace[r], total, i) && Eligible(tables[r][i])
      invariant trace[r] == i || Distance(trace[r], i, total) + (r - k) <= Distance(trace[k], i, total)
      decreases k + total - r
    {
      assert Expires(tables[r], trace[r], tables[r + 1], trace[r + 1], reload);
      AllGoing(tables, trace, reload, total, i, r + 1);
      Stays(tables[r], trace[r], tables[r + 1], trace[r + 1], reload, i);
      Nearer(tables[r], trace[r], tables[r + 1], trace[r + 1], reload, i);
      r := r + 1;
    }
  }

  /** Every task that executes when a run of expiries begins runs before it has seen three times the tasks. */
  lemma RunsAgain(tables: seq<seq<Task>>, trace: seq<nat>, reload: nat, total: nat, i: nat) returns (r: nat)
    requires IsRun(tables, trace, reload) && Going(tables[0], trace[0], total, i) && reload >= MIN_CYCLES
    requires |tables| > 3 * total + 1
    ensures 1 <= r <= 3 * total + 1 && trace[r] == i
  {
    var k := RenewsSoon(tables, trace, reload, total, i, 1);
    AllGoing(tables, trace, reload, total, i, k);
    assert Expires(tables[k], trace[k], tables[k + 1], trace[k + 1], reload);
    Stays(tables[k], trace[k], tables[k + 1], trace[k + 1], reload, i);
    r := ChosenSoon(tables, trace, reload, total, i, k + 1);
  }

  /** The same of the switcher; one that has a quantum left runs within as many expiries as there are tasks. */
  method RunEveryone(s: Switcher) returns (trace: seq<nat>)
    requires s.Valid() && RoundRobin(s.table[..]) && !s.table[0].fifo && !s.table[s.current].fifo
    modifies s, s.table
    ensures s.Valid() && |trace| == 3 * s.table.Length + 2 && trace[0] == old(s.current)
    ensures forall i :: 1 <= i < s.table.Length && old(s.table[i].exec) ==> i in trace[1..]
    ensures forall i :: 1 <= i < s.table.Length && i != trace[0] && old(Eligible(s.table[i])) ==>
      i in trace[1..s.table.Length + 1]
  {
    ghost var total, reload := s.table.Length, s.reload;
    ghost var tables;
    trace, tables := s.RunOutAll(3 * s.table.Length + 1, FromNow(s.table[..], s.reloads));
    forall i | 1 <= i < total && old(s.table[i].exec) ensures i in trace[1..] {
      var r := RunsAgain(tables, trace, reload, total, i);
      assert trace[1..][r - 1] == i;
    }
    forall i | 1 <= i < total && i != trace[0] && old(Eligible(s.table[i])) ensures i in trace[1..total + 1] {
      var r := ChosenSoon(tables, trace, reload, total, i, 0);
      assert trace[1..total + 1][r - 1] == i;
    }
  }
}
