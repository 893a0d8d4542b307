/**
 The task switcher: the round-robin scan with its quantum reload, the PendSV and SysTick
 handlers, and the accounting of processor cycles to tasks.
 */
module Scheduler {

  /** A task with less than this left of its quantum is not worth switching to. */
  const MIN_CYCLES: nat := 10000

  const MAX_RELOAD: nat := 0x00FF_FFFF

  /** Flags, priority, remaining quantum and charged cycles of a task table entry. */
  datatype Task = Task(used: bool, active: bool, stopped: bool, exec: bool, fifo: bool, yielding: bool,
                       priority: int, rr: int, timer: int)

  /** `set_systick_interval`: cycles in a quantum, in 32-bit arithmetic. */
  function ReloadFor(frequency: nat, interval: nat): (r: nat)
    ensures MIN_CYCLES <= r <= MAX_RELOAD
  {
    var cycles := ((frequency * interval + 500) % 0x1_0000_0000) / 1000;
    if cycles > MAX_RELOAD then MAX_RELOAD else if cycles < MIN_CYCLES then MIN_CYCLES else cycles
  }

  /** The quantum is the interval's cycles, rounded to the nearest and kept to the limits, if they fit 32 bits. */
  lemma ReloadExact(frequency: nat, interval: nat, cycles: nat)
    requires 1000 * cycles <= frequency * interval + 500 < 1000 * cycles + 1000
    requires frequency * interval + 500 < 0x1_0000_0000
    ensures ReloadFor(frequency, interval)
         == if cycles > MAX_RELOAD then MAX_RELOAD else if cycles < MIN_CYCLES then MIN_CYCLES else cycles
  {
    assert (frequency * interval + 500) / 1000 == cycles;
  }

  /** `task_enabled_active_not_stopped` at the current priority. */
  predicate Runnable(t: Task, priority: int)
  {
    t.used && t.active && !t.stopped && t.priority == priority
  }

  /** The scan stops at such a task. */
  predicate Eligible(t: Task)
  {
    t.exec && (t.rr >= MIN_CYCLES || t.fifo)
  }

  /** The task the scan stops at: the next eligible one, or task 0 past the last. */
  function Next(ts: seq<Task>, c: nat): (n: nat)
    requires c < |ts|
    ensures n < |ts| && (n == 0 || (c < n && Eligible(ts[n])))
    ensures forall j :: c < j < (if n == 0 then |ts| else n) ==> !Eligible(ts[j])
    decreases |ts| - c
  {
    if c + 1 == |ts| then 0 else if Eligible(ts[c + 1]) then c + 1 else Next(ts, c + 1)
  }

  /** Every executing task but task 0 has used up its quantum. */
  predicate AllSpent(ts: seq<Task>)
  {
    forall i :: 1 <= i < |ts| ==> !(ts[i].exec && ts[i].rr >= MIN_CYCLES)
  }

  /** A new quantum: what was used of the old one is charged. */
  function Recharge(t: Task, reload: nat): Task
  {
    if t.exec then t.(timer := t.timer + (reload - t.rr), rr := reload) else t
  }

  function RechargeZero(t: Task, reload: nat): Task
  {
    if t.rr < MIN_CYCLES then t.(rr := reload, timer := t.timer + reload) else t
  }

  /** The table after the scan has reached task 0. */
  function AfterWrap(ts: seq<Task>, reload: nat): (r: seq<Task>)
    requires ts != []
    ensures |r| == |ts|
  {
    seq(|ts|, i requires 0 <= i < |ts| =>
      if i == 0 then RechargeZero(ts[0], reload) else if AllSpent(ts) then Recharge(ts[i], reload) else ts[i])
  }

  function AfterScan(ts: seq<Task>, c: nat, reload: nat): (r: seq<Task>)
    requires c < |ts|
    ensures |r| == |ts|
  {
    if Next(ts, c) == 0 then AfterWrap(ts, reload) else ts
  }

  /** Once the marks are set, the scan stops at such a task. */
  predicate CouldRun(t: Task, priority: int)
  {
    Runnable(t, priority) && (t.rr >= MIN_CYCLES || t.fifo)
  }

  /** Whoever the scan chooses has a quantum worth running, or is FIFO. */
  lemma ChosenHasQuantum(ts: seq<Task>, c: nat, reload: nat)
    requires c < |ts| && reload >= MIN_CYCLES
    ensures var t := AfterScan(ts, c, reload)[Next(ts, c)]; t.rr >= MIN_CYCLES || t.fifo
  {}

  /** If any task executes, then after a scan one can be chosen: new quanta come before everybody waits. */
  lemma SomeoneEligible(ts: seq<Task>, c: nat, reload: nat, i: nat) returns (j: nat)
    requires c < |ts| && reload >= MIN_CYCLES && 1 <= i < |ts| && ts[i].exec
    ensures 1 <= j < |ts| && Eligible(AfterScan(ts, c, reload)[j])
  {
    if Next(ts, c) != 0 {
      j := Next(ts, c);
    } else if AllSpent(ts) {
      j := i;
    } else {
      j :| 1 <= j < |ts| && ts[j].exec && ts[j].rr >= MIN_CYCLES;
    }
  }

  /** `n` is the first eligible task after `c`, none skipped, or task 0 if there is none. */
  ghost predicate FirstEligible(ts: seq<Task>, c: nat, n: nat)
  {
    && n < |ts| && (n == 0 || (c < n && Eligible(ts[n])))
    && forall j :: c < j < (if n == 0 then |ts| else n) ==> !Eligible(ts[j])
  }

  /** The same once the marks are set at a priority. */
  ghost predicate FirstToRun(ts: seq<Task>, c: nat, n: nat, priority: int)
  {
    && n < |ts| && (n == 0 || (c < n && CouldRun(ts[n], priority)))
    && forall j :: c < j < (if n == 0 then |ts| else n) ==> !CouldRun(ts[j], priority)
  }

  // ---- bounded wait ----

  /** Tasks the scan can stop at between `c` and `i`, going round once. */
  function Distance(c: nat, i: nat, total: nat): int
  {
    if c < i then i - c else total - c + i
  }

  /** Each switch comes to the eligible task or closer to it. */
  lemma ScanApproaches(ts: seq<Task>, c: nat, i: nat)
    requires c < |ts| && 1 <= i < |ts| && Eligible(ts[i])
    ensures Next(ts, c) == i || Distance(Next(ts, c), i, |ts|) < Distance(c, i, |ts|)
  {}

  /** A scan leaves an eligible task eligible. */
  lemma ScanKeepsEligible(ts: seq<Task>, c: nat, i: nat, reload: nat)
    requires c < |ts| && 1 <= i < |ts| && Eligible(ts[i]) && reload >= MIN_CYCLES
    ensures Eligible(AfterScan(ts, c, reload)[i])
  {}

  /**
   Whatever the running tasks do between switches, a task that stays eligible is chosen within as many
   switches as there are tasks: `tables[k]` is the table at switch `k`, `cs[k]` the one running then.
   */
  lemma {:induction false} ChosenWithinTotal(tables: seq<seq<Task>>, cs: seq<nat>, i: nat, total: nat) returns (k: nat)
    requires 1 <= i < total && |tables| >= total && |cs| == |tables| + 1
    requires forall s :: 0 <= s < |tables| ==> |tables[s]| == total && cs[s] < total && Eligible(tables[s][i])
    requires forall s :: 0 <= s < |tables| ==> cs[s + 1] == Next(tables[s], cs[s])
    ensures 1 <= k <= total && cs[k] == i
  {
    k := 1;
    ScanApproaches(tables[0], cs[0], i);
    while cs[k] != i
      invariant 1 <= k <= total && k < |cs|
      invariant cs[k] == i || (cs[k] < total && Distance(cs[k], i, total) + k <= total)
      decreases total - k
    {
      ScanApproaches(tables[k], cs[k], i);
      k := k + 1;
    }
  }

  // ---- accounting and fairness, on the table ----

  /** Cycles task `t` has used, as `task_root_gettime` reckons them; `left` is what is left of its quantum. */
  function Elapsed(t: Task, left: int, reload: nat): int
  {
    t.timer + (reload - left)
  }

  /** A scan changes how a task's cycles are recorded, not how many they are. */
  lemma ScanKeepsElapsed(ts: seq<Task>, c: nat, i: nat, reload: nat)
    requires c < |ts| && 1 <= i < |ts|
    ensures var t := AfterScan(ts, c, reload)[i]; Elapsed(t, t.rr, reload) == Elapsed(ts[i], ts[i].rr, reload)
  {}

  /** The scan hands out new quanta. */
  predicate Reloads(ts: seq<Task>, c: nat)
    requires c < |ts|
  {
    Next(ts, c) == 0 && AllSpent(ts)
  }

  /** `k` reloads after its timer stood at `base`, an executing task has been charged this much, give or take. */
  ghost predicate Charged(t: Task, base: int, k: nat, reload: nat)
  {
    k * (reload - MIN_CYCLES + 1) <= t.timer - base <= k * reload && 0 <= t.rr <= reload
  }

  lemma ScanCharges(ts: seq<Task>, c: nat, i: nat, base: int, k: nat, reload: nat)
    requires c < |ts| && 1 <= i < |ts| && ts[i].exec && Charged(ts[i], base, k, reload) && reload >= MIN_CYCLES
    ensures Charged(AfterScan(ts, c, reload)[i], base, if Reloads(ts, c) then k + 1 else k, reload)
  {
    assert (k + 1) * reload == k * reload + reload;
    assert (k + 1) * (reload - MIN_CYCLES + 1) == k * (reload - MIN_CYCLES + 1) + (reload - MIN_CYCLES + 1);
  }

  /**
   Between any two executing tasks the cycles used since their timers stood at `a0` and `b0` differ by at most one
   quantum and, for each reload, by less than the smallest worthwhile remainder.
   */
  lemma Fairness(a: Task, a0: int, b: Task, b0: int, aLeft: int, bLeft: int, k: nat, reload: nat)
    requires Charged(a, a0, k, reload) && Charged(b, b0, k, reload) && reload >= MIN_CYCLES
    requires 0 <= aLeft <= reload && 0 <= bLeft <= reload
    ensures (Elapsed(a, aLeft, reload) - a0) - (Elapsed(b, bLeft, reload) - b0) <= reload + k * (MIN_CYCLES - 1)
    ensures k > 0 ==> k * (reload - MIN_CYCLES) < a.timer - a0 <= k * reload
  {
    assert k * reload - k * (reload - MIN_CYCLES + 1) == k * (MIN_CYCLES - 1);
    assert k * (reload - MIN_CYCLES + 1) == k * (reload - MIN_CYCLES) + k;
  }

  /** Executing tasks at a priority, task 0 not counted. */
  function Count(ts: seq<Task>, priority: int): nat
  {
    if |ts| <= 1 then 0
    else Count(ts[..|ts| - 1], priority) + if Runnable(ts[|ts| - 1], priority) then 1 else 0
  }

  lemma {:induction false} CountSame(ts: seq<Task>, ts': seq<Task>, priority: int)
    requires |ts| == |ts'| && forall i :: 0 <= i < |ts| ==> Runnable(ts[i], priority) == Runnable(ts'[i], priority)
    ensures Count(ts, priority) == Count(ts', priority)
    decreases |ts|
  {
    if |ts| <= 1 {
    } else {
      CountSame(ts[..|ts| - 1], ts'[..|ts| - 1], priority);
    }
  }

  /** The tasks marked executing, task 0 aside, are exactly the runnable ones, and `count` of them. */
  ghost predicate ExactlyRunnable(ts: seq<Task>, priority: int, count: nat)
  {
    (forall i :: 1 <= i < |ts| ==> (ts[i].exec <==> Runnable(ts[i], priority))) && count == Count(ts, priority)
  }

  /** What is left of the quantum of task `i`: the counter for the current task, the table for the others. */
  function Left(ts: seq<Task>, i: nat, c: nat, val: int): int
    requires i < |ts|
  {
    if i == c then val else ts[i].rr
  }

  /** Every round-robin task in use, but task 0, is reported exactly the cycles it has run. */
  ghost predicate Accounts(ts: seq<Task>, consumed: seq<int>, c: nat, val: int, reload: nat)
  {
    |consumed| == |ts| &&
    forall i :: 1 <= i < |ts| && ts[i].used && !ts[i].fifo ==>
      consumed[i] == Elapsed(ts[i], Left(ts, i, c, val), reload)
  }

  /** The executing tasks are fixed and round-robin, and each has been charged for `k` reloads since `base`. */
  ghost predicate FairTable(ts: seq<Task>, f: Fairly, k: nat, reload: nat, priority: int)
  {
    |f.base| == |ts| &&
    forall i :: 1 <= i < |ts| ==>
      && (ts[i].exec <==> i in f.members) && (Runnable(ts[i], priority) <==> i in f.members)
      && (i in f.members ==> !ts[i].fifo && Charged(ts[i], f.base[i], k, reload))
  }

  /** Tasks that execute together from reload number `since` on, and what every timer showed then. */
  datatype Fairly = Fairly(members: set<nat>, base: seq<int>, since: nat)

  /** The tasks that execute now, from now on. */
  function FromNow(ts: seq<Task>, reloads: nat): Fairly
  {
    Fairly(set i: nat | 1 <= i < |ts| && ts[i].exec, seq(|ts|, i requires 0 <= i < |ts| => ts[i].timer), reloads)
  }

  predicate RoundRobin(ts: seq<Task>)
  {
    forall i :: 1 <= i < |ts| && ts[i].exec ==> !ts[i].fifo
  }

  /** Where the marks are exact and nobody executing is FIFO, a time of fairness begins. */
  lemma FairFromNow(ts: seq<Task>, reloads: nat, reload: nat, priority: int, count: nat)
    requires ExactlyRunnable(ts, priority, count) && RoundRobin(ts)
    requires forall i :: 0 <= i < |ts| ==> 0 <= ts[i].rr <= reload
    ensures FairTable(ts, FromNow(ts, reloads), 0, reload, priority)
  {}

  /** The quantum of the current task put back in the table, with its yield flag. */
  function Saved(ts: seq<Task>, c: nat, left: int, yielding: bool): seq<Task>
    requires c < |ts|
  {
    ts[c := ts[c].(rr := left, yielding := yielding)]
  }

  /** The table when the current task has used up its quantum. */
  function Spent(ts: seq<Task>, c: nat): seq<Task>
    requires c < |ts|
  {
    Saved(ts, c, 0, ts[c].yielding)
  }

  /** One expiry, from table and running task to the next. */
  ghost predicate Expires(ts: seq<Task>, c: nat, ts': seq<Task>, n: nat, reload: nat)
  {
    c < |ts| && n == Next(Spent(ts, c), c) && YieldOnly(AfterScan(Spent(ts, c), c, reload), ts')
  }

  /** The quanta after an expiry: all executing tasks have a new one, or just the one that ran has none. */
  ghost predicate QuantaAfter(ts: seq<Task>, c: nat, ts': seq<Task>, reload: nat, again: bool)
  {
    |ts'| == |ts| &&
    forall i :: 1 <= i < |ts| ==>
      ts'[i].rr == if again && ts[i].exec then reload else if i == c then 0 else ts[i].rr
  }

  /** Nobody else that executes has a quantum worth running. */
  ghost predicate OthersSpent(ts: seq<Task>, c: nat)
  {
    forall i :: 1 <= i < |ts| && i != c ==> !(ts[i].exec && ts[i].rr >= MIN_CYCLES)
  }

  /** What an expiry means for the tasks. */
  ghost predicate Preempted(ts: seq<Task>, c: nat, ts': seq<Task>, n: nat, reload: nat, again: bool)
  {
    && FirstEligible(ts, c, n) && (again <==> n == 0 && OthersSpent(ts, c)) && QuantaAfter(ts, c, ts', reload, again)
    && (ts'[n].rr >= MIN_CYCLES || ts'[n].fifo)
  }

  lemma SpentNext(ts: seq<Task>, c: nat)
    requires c < |ts|
    ensures FirstEligible(ts, c, Next(Spent(ts, c), c))
    ensures AllSpent(Spent(ts, c)) <==> OthersSpent(ts, c)
  {
    var spent := Spent(ts, c);
    assert forall j :: 0 <= j < |ts| && j != c ==> spent[j] == ts[j];
    assert spent[c].rr == 0;
  }

  lemma SpentQuanta(ts: seq<Task>, c: nat, reload: nat)
    requires c < |ts|
    ensures QuantaAfter(ts, c, AfterScan(Spent(ts, c), c, reload), reload, Reloads(Spent(ts, c), c))
  {}

  lemma ExpiryPreempts(ts: seq<Task>, c: nat, ts': seq<Task>, n: nat, reload: nat)
    requires Expires(ts, c, ts', n, reload) && reload >= MIN_CYCLES
    ensures Preempted(ts, c, ts', n, reload, Reloads(Spent(ts, c), c))
  {
    SpentNext(ts, c);
    SpentQuanta(ts, c, reload);
    ChosenHasQuantum(Spent(ts, c), c, reload);
  }

  /** An expiry changes nobody's mode, and marks nobody. */
  lemma ExpiryKinds(ts: seq<Task>, c: nat, ts': seq<Task>, n: nat, reload: nat)
    requires Expires(ts, c, ts', n, reload)
    ensures |ts'| == |ts| && n < |ts| && forall i :: 0 <= i < |ts| ==>
      ts'[i].exec == ts[i].exec && ts'[i].fifo == ts[i].fifo && (n == 0 || ts'[n].exec)
  {}

  /** The tasks but task 0 marked as the PendSV handler marks them. */
  function Marked(ts: seq<Task>, priority: int): (r: seq<Task>)
    ensures |r| == |ts|
  {
    seq(|ts|, i requires 0 <= i < |ts| => if i == 0 then ts[0] else ts[i].(exec := Runnable(ts[i], priority)))
  }

  /** The running task goes on: it is not task 0, may run, and has not asked to yield. */
  predicate GoesOn(ts: seq<Task>, c: nat, priority: int)
    requires c < |ts|
  {
    c != 0 && Runnable(ts[c], priority) && !ts[c].yielding
  }

  /** The running task asks for a switch, and perhaps to yield. */
  function Asked(ts: seq<Task>, c: nat, yielding: bool): (r: seq<Task>)
    requires c < |ts|
    ensures |r| == |ts|
  {
    if yielding then ts[c := ts[c].(yielding := true)] else ts
  }

  /** Who runs after a request for a switch, and with what in the counter. */
  ghost predicate Chosen(ts: seq<Task>, c: nat, val: int, ts': seq<Task>, n: nat, val': int, priority: int)
    requires c < |ts| && n < |ts'|
  {
    if GoesOn(ts, c, priority) then n == c && val' == val
    else FirstToRun(ts, c, n, priority) && (!ts'[n].fifo ==> val' == ts'[n].rr)
  }

  lemma MarkedNext(ts: seq<Task>, c: nat, left: int, priority: int)
    requires c < |ts|
    ensures FirstToRun(ts, c, Next(Saved(Marked(ts, priority), c, left, false), c), priority)
  {
    var saved := Saved(Marked(ts, priority), c, left, false);
    forall j | c < j < |ts| ensures Eligible(saved[j]) <==> CouldRun(ts[j], priority) {}
  }

  /** The saved quantum of the current task does not matter to who comes after it. */
  lemma SavedChosen(ts: seq<Task>, c: nat, val: int, saved: seq<Task>, ts': seq<Task>, n: nat, val': int, priority: int)
    requires c < |ts| && n < |ts'| && saved == Saved(ts, c, val, ts[c].yielding)
    requires Chosen(saved, c, val, ts', n, val', priority)
    ensures Chosen(ts, c, val, ts', n, val', priority)
  {
    assert forall j :: 0 <= j < |ts| && j != c ==> saved[j] == ts[j];
  }

  lemma MarkedGoesOn(ts: seq<Task>, c: nat, priority: int)
    requires c < |ts|
    ensures var t := Marked(ts, priority)[c]; c == 0 || !t.exec || t.yielding <==> !GoesOn(ts, c, priority)
  {}

  lemma MarkedExactly(ts: seq<Task>, priority: int, count: nat)
    requires count == Count(Marked(ts, priority), priority)
    ensures ExactlyRunnable(Marked(ts, priority), priority, count)
  {}

  /** Saving a quantum and scanning change neither who executes nor who could. */
  lemma ScanExactly(ts: seq<Task>, c: nat, left: int, yielding: bool, reload: nat, priority: int, count: nat)
    requires c < |ts| && ExactlyRunnable(ts, priority, count)
    ensures ExactlyRunnable(AfterScan(Saved(ts, c, left, yielding), c, reload), priority, count)
  {
    CountSame(ts, AfterScan(Saved(ts, c, left, yielding), c, reload), priority);
  }

  /** Once its quantum is saved, the table alone tells what is left. */
  lemma SaveSettles(ts: seq<Task>, consumed: seq<int>, c: nat, val: int, reload: nat, yielding: bool)
    requires c < |ts| && Accounts(ts, consumed, c, val, reload)
    ensures Accounts(Saved(ts, c, val, yielding), consumed, c, val, reload)
    ensures var saved := Saved(ts, c, val, yielding); Accounts(saved, consumed, c, saved[c].rr, reload)
  {}

  lemma MarkKeeps(ts: seq<Task>, consumed: seq<int>, c: nat, val: int, reload: nat, priority: int)
    requires Accounts(ts, consumed, c, val, reload)
    ensures Accounts(Marked(ts, priority), consumed, c, val, reload)
  {}

  /** A scan keeps the accounts: it starts from a table that holds every quantum and loads the counter from it. */
  lemma ScanAccounts(ts: seq<Task>, consumed: seq<int>, c: nat, reload: nat, val: int)
    requires c < |ts| && Accounts(ts, consumed, c, ts[c].rr, reload)
    requires var r := AfterScan(ts, c, reload); var n := Next(ts, c); !r[n].fifo ==> val == r[n].rr
    ensures Accounts(AfterScan(ts, c, reload), consumed, Next(ts, c), val, reload)
  {
    var r, n := AfterScan(ts, c, reload), Next(ts, c);
    forall i | 1 <= i < |ts| && r[i].used && !r[i].fifo
      ensures consumed[i] == Elapsed(r[i], Left(r, i, n, val), reload)
    {
      ScanKeepsElapsed(ts, c, i, reload);
    }
  }

  lemma ScanFair(ts: seq<Task>, c: nat, f: Fairly, k: nat, reload: nat, priority: int)
    requires c < |ts| && reload >= MIN_CYCLES && FairTable(ts, f, k, reload, priority)
    ensures FairTable(AfterScan(ts, c, reload), f, if Reloads(ts, c) then k + 1 else k, reload, priority)
  {
    var r, k' := AfterScan(ts, c, reload), if Reloads(ts, c) then k + 1 else k;
    forall i | 1 <= i < |ts|
      ensures (r[i].exec <==> i in f.members) && (Runnable(r[i], priority) <==> i in f.members)
      ensures i in f.members ==> !r[i].fifo && Charged(r[i], f.base[i], k', reload)
    {
      if i in f.members { ScanCharges(ts, c, i, f.base[i], k, reload); }
    }
  }

  lemma SaveMarkFair(ts: seq<Task>, c: nat, left: int, yielding: bool, f: Fairly, k: nat, reload: nat, priority: int)
    requires c < |ts| && 0 <= left <= reload && FairTable(ts, f, k, reload, priority)
    ensures FairTable(Saved(ts, c, left, yielding), f, k, reload, priority)
    ensures FairTable(Marked(ts, priority), f, k, reload, priority)
  {}

  /** Switching changes no task's mode, priority or readiness. */
  ghost predicate SameKind(ts: seq<Task>, ts': seq<Task>)
  {
    |ts'| == |ts| && forall i :: 0 <= i < |ts| ==>
      && ts'[i].used == ts[i].used && ts'[i].active == ts[i].active && ts'[i].stopped == ts[i].stopped
      && ts'[i].fifo == ts[i].fifo && ts'[i].priority == ts[i].priority
  }

  lemma WrapKind(ts: seq<Task>, reload: nat)
    requires ts != []
    ensures SameKind(ts, AfterWrap(ts, reload))
  {}

  lemma SavedKind(ts: seq<Task>, c: nat, left: int, yielding: bool)
    requires c < |ts|
    ensures SameKind(ts, Saved(ts, c, left, yielding))
  {}

  lemma MarkedKind(ts: seq<Task>, priority: int)
    ensures SameKind(ts, Marked(ts, priority))
  {}

  lemma ScanKind(ts: seq<Task>, c: nat, left: int, yielding: bool, reload: nat)
    requires c < |ts|
    ensures SameKind(ts, AfterScan(Saved(ts, c, left, yielding), c, reload))
  {
    SavedKind(ts, c, left, yielding);
    WrapKind(Saved(ts, c, left, yielding), reload);
  }

  // ---- supervisor calls that wait ----

  /** A supervisor call that was about to be taken when task `c` was switched from is noted in its yield flag. */
  function Parked(ts: seq<Task>, c: nat, call: bool): (r: seq<Task>)
    requires c < |ts|
    ensures |r| == |ts|
  {
    if call then ts[c := ts[c].(yielding := true)] else ts
  }

  /** A call noted for task `n` is pending again when it runs, and no longer noted. */
  function Resumed(ts: seq<Task>, n: nat): (r: seq<Task>)
    requires n < |ts|
    ensures |r| == |ts|
  {
    ts[n := ts[n].(yielding := false)]
  }

  /** The same tasks but for their yield flags. */
  ghost predicate YieldOnly(ts: seq<Task>, ts': seq<Task>)
  {
    |ts'| == |ts| && forall i :: 0 <= i < |ts| ==> ts'[i] == ts[i].(yielding := ts'[i].yielding)
  }

  lemma ParkedOnly(ts: seq<Task>, c: nat, call: bool)
    requires c < |ts|
    ensures YieldOnly(ts, Parked(ts, c, call))
  {}

  lemma ResumedOnly(ts: seq<Task>, n: nat)
    requires n < |ts|
    ensures YieldOnly(ts, Resumed(ts, n))
  {}

  lemma YieldKind(ts: seq<Task>, ts': seq<Task>, priority: int, count: nat)
    requires YieldOnly(ts, ts')
    ensures SameKind(ts, ts')
    ensures ExactlyRunnable(ts, priority, count) ==> ExactlyRunnable(ts', priority, count)
  {
    CountSame(ts, ts', priority);
  }

  lemma YieldKeeps(ts: seq<Task>, ts': seq<Task>, consumed: seq<int>, c: nat, val: int, reload: nat)
    requires YieldOnly(ts, ts') && Accounts(ts, consumed, c, val, reload)
    ensures Accounts(ts', consumed, c, val, reload)
  {}

  lemma YieldFair(ts: seq<Task>, ts': seq<Task>, f: Fairly, k: nat, reload: nat, priority: int)
    requires YieldOnly(ts, ts') && FairTable(ts, f, k, reload, priority)
    ensures FairTable(ts', f, k, reload, priority)
  {}

  /** The scan does not look at yield flags. */
  lemma {:induction false} YieldNext(ts: seq<Task>, ts': seq<Task>, c: nat)
    requires YieldOnly(ts, ts') && c < |ts|
    ensures Next(ts', c) == Next(ts, c)
    decreases |ts| - c
  {
    if c + 1 == |ts| {
    } else {
      YieldNext(ts, ts', c + 1);
    }
  }

  lemma YieldReloads(ts: seq<Task>, ts': seq<Task>, c: nat)
    requires YieldOnly(ts, ts') && c < |ts|
    ensures Reloads(ts', c) == Reloads(ts, c)
  {
    YieldNext(ts, ts', c);
  }

  lemma YieldWrap(ts: seq<Task>, ts': seq<Task>, reload: nat)
    requires YieldOnly(ts, ts') && ts != []
    ensures YieldOnly(AfterWrap(ts, reload), AfterWrap(ts', reload))
  {
    assert AllSpent(ts) <==> AllSpent(ts');
  }

  lemma YieldScan(ts: seq<Task>, ts': seq<Task>, c: nat, reload: nat)
    requires YieldOnly(ts, ts') && c < |ts|
    ensures YieldOnly(AfterScan(ts, c, reload), AfterScan(ts', c, reload))
  {
    YieldNext(ts, ts', c);
    YieldWrap(ts, ts', reload);
  }

  /** Task `i` has a call or a yield to come: the pending call is that of task `c`, which runs. */
  predicate Owes(ts: seq<Task>, c: nat, call: bool, i: nat)
    requires i < |ts|
  {
    ts[i].yielding || (i == c && call)
  }

  /** A switch takes no task's call away and gives none to another. */
  lemma CallsKept(ts: seq<Task>, c: nat, call: bool, reload: nat, i: nat)
    requires c < |ts| && i < |ts|
    ensures var parked := Parked(ts, c, call); var r := AfterScan(parked, c, reload); var n := Next(parked, c);
      Owes(Resumed(r, n), n, r[n].yielding, i) <==> Owes(ts, c, call, i)
  {
    var parked := Parked(ts, c, call);
    assert AfterScan(parked, c, reload)[i].yielding == parked[i].yielding;
  }

  lemma YieldTrans(a: seq<Task>, b: seq<Task>, c: seq<Task>)
    requires YieldOnly(a, b) && YieldOnly(b, c)
    ensures YieldOnly(a, c)
  {}

  datatype Event = Cycles(n: nat) | Expiry | Request(yielding: bool) | Call

  class Switcher {
    const table: array<Task>
    const reload: nat
    var current: nat
    var priority: int
    var execCount: nat
    /** The SysTick counter. */
    var val: int
    /** A supervisor call of the current task is about to be taken. */
    var svcall: bool

    /** Cycles each task has run since it was created. */
    ghost var consumed: seq<int>
    /** Quantum reloads so far. */
    ghost var reloads: nat

    ghost predicate Valid()
      reads `current, `val, `consumed, table
    {
      && 1 <= table.Length <= 255 && MIN_CYCLES <= reload <= MAX_RELOAD && current < table.Length
      && 0 <= val <= reload && |consumed| == table.Length
      && forall i :: 0 <= i < table.Length ==> 0 <= table[i].rr <= reload
    }

    ghost predicate Accounted()
      reads `current, `val, `consumed, table
    {
      Accounts(table[..], consumed, current, val, reload)
    }

    /** The same round-robin tasks have been executing since reload number `f.since`. */
    ghost predicate Fair(f: Fairly)
      reads `reloads, `priority, table
    {
      f.since <= reloads && FairTable(table[..], f, reloads - f.since, reload, priority)
    }

    /** `task_init`: task 0 is running and no other entry is in use. */
    constructor (total: nat, frequency: nat, interval: nat)
      requires 1 <= total <= 255
      ensures Valid() && Accounted() && fresh(table) && table.Length == total
      ensures reload == ReloadFor(frequency, interval) && current == 0 && reloads == 0
      ensures table[0].used && !table[0].fifo && forall i :: 1 <= i < total ==> !table[i].used
    {
      var cycles := ReloadFor(frequency, interval);
      table := new Task[total](i =>
        if i == 0 then Task(true, false, false, true, false, false, 0, cycles, 0)
        else Task(false, false, false, false, false, false, 0, 0, 0));
      reload, current, priority, execCount, val, svcall := cycles, 0, 0, 0, cycles, false;
      consumed, reloads := seq(total, _ => 0), 0;
    }

    /** `task_svcall_new_task`, as far as it concerns the switcher: the first free entry starts with a full quantum. */
    method NewTask() returns (tid: nat)
      requires Valid()
      modifies table, `consumed
      ensures Valid()
      ensures old(Accounted()) ==> (Accounted() <==> tid == 0 || tid != current || val == reload)
      ensures tid == 0 ==> table[..] == old(table[..]) && forall i :: 1 <= i < table.Length ==> table[i].used
      ensures tid != 0 ==> tid < table.Length && !old(table[tid].used) && forall i :: 1 <= i < tid ==> table[i].used
      ensures tid != 0 ==> consumed == old(consumed)[tid := 0]
      ensures tid != 0 ==>
        table[tid] == Task(true, false, false, false, false, false, old(table[tid].priority), reload, 0)
      ensures forall i :: 0 <= i < table.Length && i != tid ==> table[i] == old(table[i])
    {
      ghost var ts := table[..];
      var i := 1;
      while i < table.Length && table[i].used
        invariant 1 <= i <= table.Length && forall j :: 1 <= j < i ==> table[j].used
        decreases table.Length - i
      {
        i := i + 1;
      }
      if i >= table.Length {
        return 0;
      }
      table[i] := Task(true, false, false, false, false, false, table[i].priority, reload, 0);
      consumed := consumed[i := 0];
      assert table[..] == ts[i := table[i]];
      return i;
    }

    /** `task_root_delete` */
    method DeleteTask(id: nat)
      requires Valid()
      modifies table
      ensures Valid() && (old(Accounted()) ==> Accounted())
      ensures forall i :: 0 <= i < table.Length ==>
        table[i] == if i == id && id >= 1 then old(table[i]).(used := false, exec := false) else old(table[i])
    {
      ghost var ts := table[..];
      if id < table.Length && id >= 1 {
        table[id] := table[id].(used := false, exec := false);
        assert table[..] == ts[id := table[id]];
      }
    }

    /** Flags and priorities set by the kernel between switches. */
    method SetState(id: nat, active: bool, stopped: bool, yielding: bool, taskPriority: int, currentPriority: int)
      requires Valid() && id < table.Length
      modifies table, `priority
      ensures Valid() && (old(Accounted()) ==> Accounted()) && priority == currentPriority
      ensures forall i :: 0 <= i < table.Length ==> table[i] == if i != id then old(table[i])
        else old(table[i]).(active := active, stopped := stopped, yielding := yielding, priority := taskPriority)
    {
      ghost var ts := table[..];
      table[id] := table[id].(active := active, stopped := stopped, yielding := yielding, priority := taskPriority);
      priority := currentPriority;
      assert table[..] == ts[id := table[id]];
    }

    /** Tasks that have executed together have run within a quantum, and a little a reload, of each other. */
    lemma FairBound(f: Fairly, i: nat, j: nat)
      requires Valid() && Accounted() && Fair(f) && 1 <= i < table.Length && 1 <= j < table.Length
      requires i in f.members && j in f.members
      ensures (consumed[i] - f.base[i]) - (consumed[j] - f.base[j]) <= reload + (reloads - f.since) * (MIN_CYCLES - 1)
      ensures var k := reloads - f.since;
        k > 0 ==> k * (reload - MIN_CYCLES) < table[i].timer - f.base[i] <= k * reload
    {
      var ts := table[..];
      assert ts[i] == table[i] && ts[j] == table[j];
      Fairness(ts[i], f.base[i], ts[j], f.base[j], Left(ts, i, current, val), Left(ts, j, current, val),
               reloads - f.since, reload);
    }

    /** The current task runs for `cycles`; the counter of a FIFO task is not its own and may be anything. */
    method Tick(cycles: nat, other: nat)
      requires Valid() && (!table[current].fifo ==> cycles <= val) && other <= reload
      modifies `val, `consumed
      ensures Valid() && consumed == old(consumed)[current := old(consumed[current]) + cycles]
      ensures val == if table[current].fifo then other else old(val) - cycles
      ensures old(Accounted()) ==> Accounted()
    {
      consumed := consumed[current := consumed[current] + cycles];
      if table[current].fifo {
        val := other;
      } else {
        val := val - cycles;
      }
    }

    /** `task_root_gettime` */
    method GetTime(tid: nat) returns (time: int)
      requires Valid() && tid < table.Length
      ensures Accounted() && tid >= 1 && table[tid].used && !table[tid].fifo ==> time == consumed[tid]
    {
      if tid != current {
        time := table[tid].timer + (reload - table[tid].rr);
      } else {
        time := table[tid].timer + (reload - val);
      }
    }

    /** What the scan does when it reaches task 0. */
    method Wrap()
      requires Valid()
      modifies table, `reloads
      ensures table[..] == AfterWrap(old(table[..]), reload)
      ensures reloads == old(reloads) + if AllSpent(old(table[..])) then 1 else 0
    {
      ghost var ts := table[..];
      if table[0].rr < MIN_CYCLES {
        table[0] := table[0].(rr := reload, timer := table[0].timer + reload);
      }
      var i := 1;
      while i < table.Length && !(table[i].exec && table[i].rr >= MIN_CYCLES)
        invariant 1 <= i <= table.Length
        invariant forall j :: 1 <= j < i ==> !(ts[j].exec && ts[j].rr >= MIN_CYCLES)
        decreases table.Length - i
      {
        i := i + 1;
      }
      if i == table.Length {
        assert AllSpent(ts);
        reloads := reloads + 1;
        i := 1;
        while i < table.Length
          invariant 1 <= i <= table.Length && table[0] == RechargeZero(ts[0], reload)
          invariant forall j :: 1 <= j < table.Length ==> table[j] == if j < i then Recharge(ts[j], reload) else ts[j]
          modifies table
        {
          if table[i].exec {
            table[i] := table[i].(timer := table[i].timer + (reload - table[i].rr), rr := reload);
          }
          i := i + 1;
        }
      }
    }

    /** The scan of `switch_contexts`, and the load of the counter. */
    method Scan()
      requires Valid()
      modifies table, `current, `val, `reloads
      ensures current == Next(old(table[..]), old(current))
      ensures table[..] == AfterScan(old(table[..]), old(current), reload)
      ensures reloads == old(reloads) + if Reloads(old(table[..]), old(current)) then 1 else 0
      ensures val == if table[current].fifo then old(val) else table[current].rr
      ensures Valid()
    {
      ghost var ts, c := table[..], current;
      while true
        invariant c <= current < table.Length && table[..] == ts
        invariant Next(ts, current) == Next(ts, c)
        decreases table.Length - current
        modifies `current
      {
        assert Next(ts, current) == if current + 1 == |ts| then 0
                                    else if Eligible(ts[current + 1]) then current + 1 else Next(ts, current + 1);
        current := current + 1;
        if current == table.Length {
          break;
        } else if table[current].exec {
          if table[current].rr >= MIN_CYCLES || table[current].fifo {
            break;
          }
        }
      }
      if current == table.Length {
        current := 0;
        Wrap();
      }
      if !table[current].fifo {
        val := table[current].rr;
      }
    }

    /** A supervisor call about to be taken is noted for the current task, so that no other gets it. */
    method ParkCall()
      requires Valid()
      modifies table, `svcall
      ensures Valid() && !svcall && table[..] == Parked(old(table[..]), current, old(svcall))
    {
      ghost var ts := table[..];
      if svcall {
        table[current] := table[current].(yielding := true);
        svcall := false;
      }
      assert table[..] == Parked(ts, current, old(svcall));
    }

    /** A call noted for the task that now runs is pending again. */
    method ResumeCall()
      requires Valid() && !svcall
      modifies table, `svcall
      ensures Valid() && svcall == old(table[current].yielding) && table[..] == Resumed(old(table[..]), current)
    {
      ghost var ts := table[..];
      if table[current].yielding {
        svcall := true;
        table[current] := table[current].(yielding := false);
      }
      assert table[..] == Resumed(ts, current);
    }

    /** `switch_contexts`: every task keeps the supervisor call it was about to make. */
    method SwitchContexts()
      requires Valid()
      modifies table, `current, `val, `reloads, `svcall
      ensures var ts := Parked(old(table[..]), old(current), old(svcall)); var r := AfterScan(ts, old(current), reload);
        && current == Next(ts, old(current)) && svcall == r[current].yielding && table[..] == Resumed(r, current)
        && reloads == old(reloads) + (if Reloads(ts, old(current)) then 1 else 0)
        && val == if r[current].fifo then old(val) else r[current].rr
      ensures Valid()
      ensures forall i: nat :: i < table.Length ==>
        (Owes(table[..], current, svcall, i) <==> old(Owes(table[..], current, svcall, i)))
    {
      ghost var ts, c, call := table[..], current, svcall;
      ParkCall();
      Scan();
      ghost var r := table[..];
      assert table[current] == r[current];
      ResumeCall();
      forall i: nat | i < table.Length ensures Owes(table[..], current, svcall, i) <==> Owes(ts, c, call, i) {
        CallsKept(ts, c, call, reload, i);
      }
    }

    /** A switch from a table that holds the current quantum keeps the accounts and the fairness. */
    method Switch(ghost f: Fairly)
      requires Valid()
      modifies table, `current, `val, `reloads, `svcall
      ensures Valid() && reloads >= old(reloads) && current == Next(old(table[..]), old(current))
      ensures YieldOnly(AfterScan(old(table[..]), old(current), reload), table[..])
      ensures !table[current].fifo ==> val == table[current].rr
      ensures reloads == old(reloads) + if Reloads(old(table[..]), old(current)) then 1 else 0
      ensures old(Accounts(table[..], consumed, current, table[current].rr, reload)) ==> Accounted()
      ensures old(Fair(f)) ==> Fair(f)
    {
      ghost var ts, c := table[..], current;
      ghost var parked := Parked(ts, c, svcall);
      SwitchContexts();
      ParkedOnly(ts, c, old(svcall));
      YieldReloads(ts, parked, c);
      ResumedOnly(AfterScan(parked, c, reload), current);
      SwitchYields(ts, parked, c);
      if Accounts(ts, consumed, c, ts[c].rr, reload) {
        SwitchAccounts(ts, parked, c);
      }
      if old(Fair(f)) {
        SwitchFair(ts, parked, c, f, old(reloads) - f.since);
      }
    }

    lemma SwitchYields(ts: seq<Task>, parked: seq<Task>, c: nat)
      requires c < |ts| && YieldOnly(ts, parked) && YieldOnly(AfterScan(parked, c, reload), table[..])
      ensures Next(parked, c) == Next(ts, c) && YieldOnly(AfterScan(ts, c, reload), table[..])
    {
      YieldNext(ts, parked, c);
      YieldScan(ts, parked, c, reload);
      YieldTrans(AfterScan(ts, c, reload), AfterScan(parked, c, reload), table[..]);
    }

    lemma SwitchAccounts(ts: seq<Task>, parked: seq<Task>, c: nat)
      requires Valid() && c < |ts| && YieldOnly(ts, parked) && Accounts(ts, consumed, c, ts[c].rr, reload)
      requires YieldOnly(AfterScan(parked, c, reload), table[..]) && current == Next(parked, c)
      requires var t := AfterScan(parked, c, reload)[current]; !t.fifo ==> val == t.rr
      ensures Accounted()
    {
      YieldKeeps(ts, parked, consumed, c, ts[c].rr, reload);
      ScanAccounts(parked, consumed, c, reload, val);
      YieldKeeps(AfterScan(parked, c, reload), table[..], consumed, current, val, reload);
    }

    lemma SwitchFair(ts: seq<Task>, parked: seq<Task>, c: nat, f: Fairly, k: nat)
      requires Valid() && c < |ts| && YieldOnly(ts, parked) && FairTable(ts, f, k, reload, priority)
      requires YieldOnly(AfterScan(parked, c, reload), table[..]) && f.since <= reloads
      requires reloads - f.since == k + if Reloads(parked, c) then 1 else 0
      ensures Fair(f)
    {
      YieldFair(ts, parked, f, k, reload, priority);
      ScanFair(parked, c, f, k, reload, priority);
      YieldFair(AfterScan(parked, c, reload), table[..], f, reloads - f.since, reload, priority);
    }

    /**
     `cortexm_systick_handler` with the count flag set: the current task has used up its quantum, and the next eligible
     one runs, with its own quantum in the counter.
     */
    method Expire(ghost f: Fairly)
      requires Valid() && val == 0
      modifies table, `current, `val, `reloads, `svcall
      ensures Valid() && reloads >= old(reloads) && (current == 0 || table[current].exec)
      ensures Expires(old(table[..]), old(current), table[..], current, reload)
      ensures reloads <= old(reloads) + 1
      ensures Preempted(old(table[..]), old(current), table[..], current, reload, reloads > old(reloads))
      ensures !table[current].fifo ==> val == table[current].rr
      ensures old(Accounted()) ==> Accounted()
      ensures old(Fair(f)) ==> Fair(f)
    {
      ghost var ts, c := table[..], current;
      Save(table[current].yielding, f);
      Switch(f);
      ExpiryPreempts(ts, c, table[..], current, reload);
    }

    /** The PendSV handler's first part: which tasks execute, and how many. */
    method MarkExecuting()
      requires Valid()
      modifies table, `execCount
      ensures Valid() && table[..] == Marked(old(table[..]), priority)
      ensures execCount == Count(table[..], priority)
    {
      ghost var ts := table[..];
      execCount := 0;
      var i := 1;
      while i < table.Length
        invariant 1 <= i <= table.Length && table[0] == ts[0]
        invariant forall j :: 1 <= j < table.Length ==> table[j] == if j < i then Marked(ts, priority)[j] else ts[j]
        invariant execCount == Count(table[..i], priority)
      {
        ghost var done := table[..i];
        if Runnable(table[i], priority) {
          table[i] := table[i].(exec := true);
          execCount := execCount + 1;
        } else {
          table[i] := table[i].(exec := false);
        }
        assert table[..i + 1][..i] == done;
        i := i + 1;
      }
      assert table[..i] == table[..];
    }

    /** The entry of the current task rewritten with the counter value in it. */
    method Save(yielding: bool, ghost f: Fairly)
      requires Valid()
      modifies table
      ensures Valid() && table[..] == Saved(old(table[..]), current, val, yielding)
      ensures old(Accounted()) ==> Accounted()
      ensures old(Fair(f)) ==> Fair(f)
    {
      ghost var ts := table[..];
      table[current] := table[current].(rr := val, yielding := yielding);
      assert table[..] == Saved(ts, current, val, yielding);
      if Accounts(ts, consumed, current, val, reload) {
        SaveSettles(ts, consumed, current, val, reload, yielding);
      }
      if old(Fair(f)) {
        SaveMarkFair(ts, current, val, yielding, f, reloads - f.since, reload, priority);
      }
    }

    lemma MarkedFair(ts: seq<Task>, f: Fairly)
      requires Valid() && table[..] == Marked(ts, priority) && f.since <= reloads
      requires FairTable(ts, f, reloads - f.since, reload, priority)
      ensures Fair(f)
    {
      SaveMarkFair(ts, current, val, false, f, reloads - f.since, reload, priority);
    }

    /** The marking keeps the accounts, and changes nothing where the executing tasks are fixed. */
    method Mark(ghost f: Fairly)
      requires Valid()
      modifies table, `execCount
      ensures Valid() && ExactlyRunnable(table[..], priority, execCount)
      ensures table[..] == Marked(old(table[..]), priority)
      ensures SameKind(old(table[..]), table[..])
      ensures old(Accounted()) ==> Accounted()
      ensures old(Fair(f)) ==> Fair(f)
    {
      ghost var ts := table[..];
      MarkExecuting();
      MarkedExactly(ts, priority, execCount);
      MarkedKind(ts, priority);
      assert table[current] == table[..][current];
      if Accounts(ts, consumed, current, val, reload) {
        MarkKeeps(ts, consumed, current, val, reload, priority);
      }
      if old(Fair(f)) {
        MarkedFair(ts, f);
      }
    }

    /** `cortexm_pendsv_handler`, pending since `task_root_switch_context` saved the counter. */
    method PendSv(ghost f: Fairly)
      requires Valid() && table[current].rr == val
      modifies table, `current, `val, `reloads, `execCount, `svcall
      ensures Valid() && reloads >= old(reloads)
      ensures ExactlyRunnable(table[..], priority, execCount)
      ensures current == 0 || table[current].exec
      ensures old(Accounted()) ==> Accounted()
      ensures old(Fair(f)) ==> Fair(f)
      ensures RoundRobin(table[..]) ==> Fair(FromNow(table[..], reloads))
      ensures SameKind(old(table[..]), table[..])
      ensures Chosen(old(table[..]), old(current), old(val), table[..], current, val, priority)
    {
      ghost var ts := table[..];
      Mark(f);
      SwitchUnlessGoing(ts, f);
      FairNow();
    }

    /** The second part of the PendSV handler, the tasks of `ts` marked. */
    method SwitchUnlessGoing(ghost ts: seq<Task>, ghost f: Fairly)
      requires Valid() && ExactlyRunnable(table[..], priority, execCount) && table[..] == Marked(ts, priority)
      modifies table, `current, `val, `reloads, `svcall
      ensures Valid() && reloads >= old(reloads) && ExactlyRunnable(table[..], priority, execCount)
      ensures (current == 0 || table[current].exec) && SameKind(old(table[..]), table[..])
      ensures Chosen(ts, old(current), old(val), table[..], current, val, priority)
      ensures old(Accounted()) ==> Accounted()
      ensures old(Fair(f)) ==> Fair(f)
    {
      MarkedNext(ts, current, val, priority);
      MarkedGoesOn(ts, current, priority);
      assert table[current] == Marked(ts, priority)[current];
      if current == 0 || !table[current].exec || table[current].yielding {
        SwitchAway(f);
      }
    }

    /** The switch of the PendSV handler, with the yield flag of the one switched from cleared. */
    method SwitchAway(ghost f: Fairly)
      requires Valid() && ExactlyRunnable(table[..], priority, execCount)
      modifies table, `current, `val, `reloads, `svcall
      ensures Valid() && reloads >= old(reloads) && ExactlyRunnable(table[..], priority, execCount)
      ensures (current == 0 || table[current].exec) && SameKind(old(table[..]), table[..])
      ensures current == Next(Saved(old(table[..]), old(current), old(val), false), old(current))
      ensures !table[current].fifo ==> val == table[current].rr
      ensures old(Accounted()) ==> Accounted()
      ensures old(Fair(f)) ==> Fair(f)
    {
      ghost var scanned := AfterScan(Saved(table[..], current, val, false), current, reload);
      ScanExactly(table[..], current, val, false, reload, priority, execCount);
      ScanKind(table[..], current, val, false, reload);
      Save(false, f);
      Switch(f);
      YieldKind(scanned, table[..], priority, execCount);
      assert table[current].exec == scanned[current].exec;
    }

    lemma FairNow()
      requires Valid() && ExactlyRunnable(table[..], priority, execCount)
      ensures RoundRobin(table[..]) ==> Fair(FromNow(table[..], reloads))
    {
      if RoundRobin(table[..]) {
        FairFromNow(table[..], reloads, reload, priority, execCount);
      }
    }

    /** `task_root_switch_context` and the PendSV handler it makes pending. */
    method RequestSwitch(ghost f: Fairly)
      requires Valid()
      modifies table, `current, `val, `reloads, `execCount, `svcall
      ensures Valid() && reloads >= old(reloads)
      ensures ExactlyRunnable(table[..], priority, execCount)
      ensures current == 0 || table[current].exec
      ensures old(Accounted()) ==> Accounted()
      ensures old(Fair(f)) ==> Fair(f)
      ensures RoundRobin(table[..]) ==> Fair(FromNow(table[..], reloads))
      ensures SameKind(old(table[..]), table[..])
      ensures Chosen(old(table[..]), old(current), old(val), table[..], current, val, priority)
    {
      ghost var ts, c := table[..], current;
      Save(table[current].yielding, f);
      ghost var saved := table[..];
      PendSv(f);
      SavedChosen(ts, c, old(val), saved, table[..], current, val, priority);
    }

    /** The current task makes a supervisor call that is not taken at once. */
    method CallSupervisor()
      modifies `svcall
      ensures svcall
    {
      svcall := true;
    }

    /** `task_assert_yield` on the current task. */
    method AskToYield(ghost f: Fairly)
      requires Valid()
      modifies table
      ensures Valid() && table[..] == old(table[..])[current := old(table[current]).(yielding := true)]
      ensures (old(Accounted()) ==> Accounted()) && (old(Fair(f)) ==> Fair(f))
    {
      ghost var ts := table[..];
      table[current] := table[current].(yielding := true);
      assert table[..] == ts[current := table[current]];
    }

    // ---- runs ----

    /** One event: some cycles pass, the counter runs out, a switch is asked for, perhaps to yield, or a call begins. */
    method Handle(e: Event, ghost f: Fairly)
      requires Valid() && Accounted() && Fair(f)
      modifies table, `current, `val, `consumed, `reloads, `execCount, `svcall
      ensures Valid() && Accounted() && Fair(f) && reloads >= old(reloads)
      ensures e.Cycles? || (e.Expiry? && old(val) > 0) || e.Call? ==>
        table[..] == old(table[..]) && current == old(current) && svcall == (old(svcall) || e.Call?)
      ensures e.Cycles? ==>
        consumed == old(consumed)[current := old(consumed[current]) + if e.n < old(val) then e.n else old(val)]
      ensures !e.Cycles? ==> consumed == old(consumed)
      ensures e.Expiry? && old(val) == 0 ==> Expires(old(table[..]), old(current), table[..], current, reload)
      ensures e.Request? ==>
        Chosen(Asked(old(table[..]), old(current), e.yielding), old(current), old(val), table[..], current, val,
               priority)
    {
      match e
      case Cycles(n) => Tick(if n < val then n else val, val);
      case Expiry =>
        if val == 0 {
          Expire(f);
        }
      case Request(yielding) =>
        if yielding {
          AskToYield(f);
        }
        RequestSwitch(f);
      case Call => CallSupervisor();
    }

    /** The quantum of a round-robin task runs out. */
    method RunOut(ghost f: Fairly)
      requires Valid() && !table[current].fifo
      modifies table, `current, `val, `consumed, `reloads, `svcall
      ensures Valid() && Expires(old(table[..]), old(current), table[..], current, reload)
    {
      Tick(val, 0);
      Expire(f);
    }

    /** `count` quanta run out one after the other; who runs when, and the tables in between. */
    method RunOutAll(count: nat, ghost f: Fairly) returns (trace: seq<nat>, ghost tables: seq<seq<Task>>)
      requires Valid() && RoundRobin(table[..]) && !table[0].fifo && !table[current].fifo
      modifies table, `current, `val, `consumed, `reloads, `svcall
      ensures Valid() && |trace| == |tables| == count + 1
      ensures trace[0] == old(current) && tables[0] == old(table[..]) && trace[count] == current
      ensures forall k :: 0 <= k < count ==> Expires(tables[k], trace[k], tables[k + 1], trace[k + 1], reload)
    {
      trace, tables := [current], [table[..]];
      for k := 0 to count
        invariant Valid() && |trace| == |tables| == k + 1 && trace[k] == current && tables[k] == table[..]
        invariant RoundRobin(table[..]) && !table[0].fifo && !table[current].fifo
        invariant trace[0] == old(current) && tables[0] == old(table[..])
        invariant forall j :: 0 <= j < k ==> Expires(tables[j], trace[j], tables[j + 1], trace[j + 1], reload)
      {
        ghost var ts, c := table[..], current;
        RunOut(f);
        ExpiryKinds(ts, c, table[..], current, reload);
        trace, tables := trace + [current], tables + [table[..]];
      }
    }

    /**
     Over every run of cycles, expiries and switches, while nobody starts, stops or changes priority, every two of the
     tasks that execute have run within a quantum, and less than the smallest worthwhile remainder a reload, of each
     other since they began to execute together.
     */
    method RunFairly(events: seq<Event>, ghost f: Fairly)
      requires Valid() && Accounted() && Fair(f)
      modifies table, `current, `val, `consumed, `reloads, `execCount, `svcall
      ensures Valid() && Accounted() && Fair(f) && reloads >= old(reloads)
      ensures forall i, j :: 1 <= i < table.Length && 1 <= j < table.Length && i in f.members && j in f.members ==>
        (consumed[i] - f.base[i]) - (consumed[j] - f.base[j]) <= reload + (reloads - f.since) * (MIN_CYCLES - 1)
    {
      for k := 0 to |events|
        invariant Valid() && Accounted() && Fair(f) && reloads >= old(reloads)
      {
        Handle(events[k], f);
      }
      forall i, j | 1 <= i < table.Length && 1 <= j < table.Length && i in f.members && j in f.members
        ensures (consumed[i] - f.base[i]) - (consumed[j] - f.base[j]) <= reload + (reloads - f.since) * (MIN_CYCLES - 1)
      {
        FairBound(f, i, j);
      }
    }
  }

  /** A ready task of priority 0 in round-robin mode. */
  predicate Ready(t: Task)
  {
    Runnable(t, 0) && !t.fifo
  }

  /** Two tasks are created and made ready. */
  method MakeTwo(frequency: nat, interval: nat) returns (s: Switcher)
    ensures fresh(s) && fresh(s.table) && s.Valid() && s.Accounted() && s.priority == 0
    ensures s.table.Length == 3 && Ready(s.table[1]) && Ready(s.table[2])
  {
    s := new Switcher(3, frequency, interval);
    var a := s.NewTask();
    var b := s.NewTask();
    s.SetState(a, true, false, false, 0, 0);
    s.SetState(b, true, false, false, 0, 0);
  }

  lemma TwoMembers(ts: seq<Task>, reloads: nat)
    requires |ts| == 3 && ts[1].exec && ts[2].exec && !ts[1].fifo && !ts[2].fifo
    ensures FromNow(ts, reloads).members == {1, 2} && RoundRobin(ts)
  {}

  /** Two tasks made ready, and a switch asked for: from then on they execute together, fairly. */
  method BootTwo(frequency: nat, interval: nat) returns (s: Switcher, ghost f: Fairly)
    ensures fresh(s) && fresh(s.table) && s.Valid() && s.Accounted() && s.Fair(f) && f.members == {1, 2}
  {
    s := MakeTwo(frequency, interval);
    ghost var ts := s.table[..];
    assert Ready(ts[1]) && Ready(ts[2]);
    s.RequestSwitch(FromNow(ts, 0));
    ghost var ts' := s.table[..];
    assert Runnable(ts'[1], 0) && Runnable(ts'[2], 0);
    TwoMembers(ts', s.reloads);
    f := FromNow(ts', s.reloads);
  }
}
