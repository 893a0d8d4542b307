/** Whole runs of the processor: a handler inserted on a task undoes itself, however deep others nest inside it. */
module HandlerRuns {
  import opened HandlerStack

  /** The running task after a command. */
  function Current(current: nat, cmd: Command): nat
  {
    if cmd.Switching? then cmd.next else current
  }

  /** How many contexts a command adds to those of task `tid`, which is in use. */
  function Deeper(current: nat, cmd: Command, tid: nat): int
  {
    match cmd
    case Interrupting(t, _) => if t == tid then 1 else 0
    case Restoring => if current == tid then -1 else 0
    case _ => 0
  }

  /**
   `depth` handlers deep on task `tid`, the commands end handlers on it only that began after the first, and leave
   just the first, with `tid` running. Other tasks may be interrupted, restored, deleted, started and switched to at
   will.
   */
  predicate WellNested(cmds: seq<Command>, tid: nat, current: nat, depth: int)
    decreases |cmds|
  {
    depth >= 1 &&
    if cmds == [] then depth == 1 && current == tid
    else
      var cmd := cmds[0];
      cmd != Deleting(tid) && WellNested(cmds[1..], tid, Current(current, cmd), depth + Deeper(current, cmd, tid))
  }

  /** A chain that changes at its end only. */
  lemma Ends(chain: seq<Context>, x: Context, d: nat)
    requires chain != []
    ensures d < |chain| ==> (chain + [x])[..d] == chain[..d] && After(chain, Run(x))[..d] == chain[..d]
    ensures d < |After(chain, Restore)| ==> After(chain, Restore)[..d] == chain[..d]
  {}

  /** The contexts of task `tid` but the innermost stay as they are, and there are `more` of them. */
  ghost predicate OuterSame(m: Machine, m': Machine, tid: nat, more: int, d: nat)
    requires tid < |m.stacked|
  {
    && |m'.stacked| == |m.stacked| && |Chain(m', tid)| == |Chain(m, tid)| + more
    && (d < |Chain(m, tid)| && d < |Chain(m', tid)| ==> Chain(m', tid)[..d] == Chain(m, tid)[..d])
  }

  lemma OneInterrupt(g: Regions, restore: Word, m: Machine, m': Machine, cmd: Command, tid: nat, d: nat)
    requires MachineOk(g, m) && Does(g, restore, m, m', cmd) && tid < |m.used| && m.used[tid] && cmd.Interrupting?
    ensures OuterSame(m, m', tid, Deeper(m.current, cmd, tid), d)
  {
    if cmd.tid == tid {
      var x :| Changes(m, m', tid, Chain(m, tid) + [x]) && Inserted(x, Chain(m, tid), cmd.handler, restore);
      Ends(Chain(m, tid), x, d);
    }
  }

  lemma OneCode(g: Regions, restore: Word, m: Machine, m': Machine, cmd: Command, tid: nat, d: nat)
    requires Layout(g, m) && Does(g, restore, m, m', cmd) && tid < |m.used| && (cmd.Computing? || cmd.Restoring?)
    ensures OuterSame(m, m', tid, Deeper(m.current, cmd, tid), d)
  {
    Ends(Chain(m, m.current), if cmd.Computing? then cmd.context else Live(m), d);
  }

  lemma OneOther(g: Regions, restore: Word, m: Machine, m': Machine, cmd: Command, tid: nat, d: nat)
    requires Layout(g, m) && Does(g, restore, m, m', cmd) && tid < |m.used| && m.used[tid]
    requires cmd.Switching? || cmd.Starting? || cmd.Deleting?
    ensures OuterSame(m, m', tid, Deeper(m.current, cmd, tid), d)
  {}

  /** What one command does to the contexts of a task in use that it does not delete. */
  lemma OneCommand(g: Regions, restore: Word, m: Machine, m': Machine, cmd: Command, tid: nat, d: nat)
    requires MachineOk(g, m) && Does(g, restore, m, m', cmd) && tid < |m.used| && m.used[tid]
    requires cmd != Deleting(tid)
    ensures tid < |m'.used| && m'.used[tid] && m'.current == Current(m.current, cmd)
    ensures OuterSame(m, m', tid, Deeper(m.current, cmd, tid), d)
  {
    DoesPlanned(g, restore, m, m', cmd);
    match cmd
    case Interrupting(_, _) => OneInterrupt(g, restore, m, m', cmd, tid, d);
    case Computing(_, _) => OneCode(g, restore, m, m', cmd, tid, d);
    case Restoring => OneCode(g, restore, m, m', cmd, tid, d);
    case _ => OneOther(g, restore, m, m', cmd, tid, d);
  }

  /** While the commands nest, the contexts outside the handler at depth `d` stay. */
  lemma {:induction false} OuterKept(g: Regions, restore: Word, ms: seq<Machine>, cmds: seq<Command>, tid: nat, d: nat)
    requires IsRun(g, restore, ms, cmds) && tid < |ms[0].used| && ms[0].used[tid] && |Chain(ms[0], tid)| > d
    requires WellNested(cmds, tid, ms[0].current, |Chain(ms[0], tid)| - d)
    ensures var last := ms[|cmds|];
      && last.current == tid < |last.stacked| && |last.used| == |last.stacked| && last.used[tid]
      && |Chain(last, tid)| == d + 1 && Chain(last, tid)[..d] == Chain(ms[0], tid)[..d]
    decreases |cmds|
  {
    assert MachineOk(g, ms[0]);
    if cmds == [] {
    } else {
      assert MachineOk(g, ms[1]) && Does(g, restore, ms[0], ms[1], cmds[0]);
      OneCommand(g, restore, ms[0], ms[1], cmds[0], tid, d);
      OuterKept(g, restore, ms[1..], cmds[1..], tid, d);
    }
  }

  /** Part of a run is a run. */
  lemma Part(g: Regions, restore: Word, ms: seq<Machine>, cmds: seq<Command>, i: nat, j: nat)
    requires IsRun(g, restore, ms, cmds) && i <= j <= |cmds|
    ensures IsRun(g, restore, ms[i..j + 1], cmds[i..j])
  {
    var part := ms[i..j + 1];
    forall k | 0 <= k < j - i ensures Does(g, restore, part[k], part[k + 1], cmds[i..j][k]) {
      assert cmds[i..j][k] == cmds[i + k];
      assert MachineOk(g, ms[i + k]) && Does(g, restore, ms[i + k], ms[i + k + 1], cmds[i + k]);
    }
  }

  /** A handler is put on task `tid`, and it is made to run. */
  function Entering(current: nat, tid: nat, h: Handler): seq<Command>
  {
    if tid == current then [Interrupting(tid, h)] else [Interrupting(tid, h), Switching(tid)]
  }

  lemma InsertedLast(g: Regions, restore: Word, m: Machine, m': Machine, tid: nat, h: Handler)
    requires MachineOk(g, m) && Does(g, restore, m, m', Interrupting(tid, h)) && tid < |m.used| && m.used[tid]
    ensures |m'.stacked| == |m.stacked| && Chain(m', tid) != []
    ensures Enters(Chain(m', tid)[|Chain(m', tid)| - 1].hw, h, restore)
  {
    var x :| Changes(m, m', tid, Chain(m, tid) + [x]) && Inserted(x, Chain(m, tid), h, restore);
    assert (Chain(m, tid) + [x])[|Chain(m, tid)|] == x;
  }

  /** The innermost context of a task that is switched to is live. */
  lemma SwitchedTo(g: Regions, restore: Word, m: Machine, m': Machine, tid: nat)
    requires Layout(g, m) && Does(g, restore, m, m', Switching(tid)) && tid < |m.stacked| && Chain(m, tid) != []
    ensures m'.current == tid && Live(m') == Chain(m, tid)[|Chain(m, tid)| - 1]
  {
    assert Chain(m', tid) == Chain(m, tid);
  }

  lemma EntersMeans(hw: seq<Word>, h: Handler, restore: Word)
    requires Enters(hw, h, restore)
    ensures |hw| == 8 && |h.args| == 4 && hw[..4] == h.args
    ensures hw[5] == restore && hw[6] == h.pc && hw[7] == 0x2100_0000
  {}

  /** Then the processor is at the handler's first instruction, with its arguments, and returns to `task_restore`. */
  lemma HandlerStarts(g: Regions, restore: Word, ms: seq<Machine>, tid: nat, h: Handler)
    requires ms != [] && IsRun(g, restore, ms, Entering(ms[0].current, tid, h)) && tid < |ms[0].used| && ms[0].used[tid]
    ensures var last := ms[|ms| - 1];
      && last.current == tid && |last.hw| == 8 && |h.args| == 4 && last.hw[..4] == h.args
      && last.hw[5] == restore && last.hw[6] == h.pc && last.hw[7] == 0x2100_0000
  {
    var cmds, last := Entering(ms[0].current, tid, h), ms[|ms| - 1];
    assert MachineOk(g, ms[0]) && MachineOk(g, ms[1]) && Does(g, restore, ms[0], ms[1], cmds[0]);
    InsertedLast(g, restore, ms[0], ms[1], tid, h);
    assert last.current == tid && Enters(last.hw, h, restore) by {
      if tid != ms[0].current {
        assert Does(g, restore, ms[1], ms[2], cmds[1]);
        SwitchedTo(g, restore, ms[1], ms[2], tid);
      }
    }
    EntersMeans(last.hw, h, restore);
  }

  /** A new task that is switched to runs with the frame made for it, on an empty stack. */
  lemma TaskStarts(g: Regions, restore: Word, ms: seq<Machine>, tid: nat, frame: seq<Word>)
    requires IsRun(g, restore, ms, [Starting(tid, frame), Switching(tid)])
    ensures tid < |g.high| && ms[2].current == tid && ms[2].hw == frame && ms[2].psp == g.high[tid]
  {
    var cmds := [Starting(tid, frame), Switching(tid)];
    assert MachineOk(g, ms[0]) && MachineOk(g, ms[1]) && MachineOk(g, ms[2]);
    assert Does(g, restore, ms[0], ms[1], cmds[0]) && Does(g, restore, ms[1], ms[2], cmds[1]);
    var x :| Changes(ms[0], ms[1], tid, [x]) && x.hw == frame && x.psp == g.high[tid];
    assert Chain(ms[2], tid) == [x];
  }

  /** The commands from a handler's insertion on task `tid` to its end. */
  function Handling(tid: nat, h: Handler, inside: seq<Command>): seq<Command>
  {
    [Interrupting(tid, h)] + inside + [Restoring]
  }

  /** Inserting the handler leaves the contexts outside it. */
  lemma HandlerBegins(g: Regions, restore: Word, m: Machine, m': Machine, tid: nat, h: Handler)
    requires MachineOk(g, m) && MachineOk(g, m') && Does(g, restore, m, m', Interrupting(tid, h))
    requires tid < |m.used| && m.used[tid]
    ensures tid < |m'.used| && m'.used[tid] && m'.current == m.current && Chain(m, tid) != []
    ensures |Chain(m', tid)| == |Chain(m, tid)| + 1 && Chain(m', tid)[..|Chain(m, tid)|] == Chain(m, tid)
  {
    OneCommand(g, restore, m, m', Interrupting(tid, h), tid, 0);
    var x :| Changes(m, m', tid, Chain(m, tid) + [x]) && Inserted(x, Chain(m, tid), h, restore);
  }

  /** Ending it makes the innermost of them live. */
  lemma HandlerEnds(g: Regions, restore: Word, m: Machine, m': Machine, tid: nat, outer: seq<Context>)
    requires MachineOk(g, m) && MachineOk(g, m') && Does(g, restore, m, m', Restoring) && m.current == tid
    requires outer != [] && |Chain(m, tid)| == |outer| + 1 && Chain(m, tid)[..|outer|] == outer
    ensures m'.current == tid < |m'.stacked| && Chain(m', tid) == outer && Live(m') == outer[|outer| - 1]
  {
    assert Chain(m', tid) == After(Chain(m, tid), Restore);
  }

  /**
   A handler is inserted on a task in use, running or not, the machine does anything that nests, on this task and the
   others, and the handler ends: it is then in exactly the contexts it was in, and runs with exactly the stack
   pointer and registers of the point where it was interrupted.
   */
  lemma HandlerUndone(g: Regions, restore: Word, ms: seq<Machine>, tid: nat, h: Handler, inside: seq<Command>)
    requires IsRun(g, restore, ms, Handling(tid, h, inside)) && tid < |ms[0].used| && ms[0].used[tid]
    requires WellNested(inside, tid, ms[0].current, 1)
    ensures var first, last := ms[0], ms[|inside| + 2];
      && last.current == tid < |last.stacked| && tid < |first.stacked| && Chain(first, tid) != []
      && Chain(last, tid) == Chain(first, tid) && Live(last) == Chain(first, tid)[|Chain(first, tid)| - 1]
  {
    var cmds, n := Handling(tid, h, inside), |inside|;
    assert cmds[0] == Interrupting(tid, h) && cmds[n + 1] == Restoring;
    assert MachineOk(g, ms[0]) && MachineOk(g, ms[1]) && Does(g, restore, ms[0], ms[1], cmds[0]);
    HandlerBegins(g, restore, ms[0], ms[1], tid, h);
    var outer, middle := Chain(ms[0], tid), ms[1..n + 2];
    assert IsRun(g, restore, middle, inside) by {
      Part(g, restore, ms, cmds, 1, n + 1);
      assert cmds[1..n + 1] == inside;
    }
    assert middle[0] == ms[1] && middle[n] == ms[n + 1];
    OuterKept(g, restore, middle, inside, tid, |outer|);
    assert MachineOk(g, ms[n + 1]) && MachineOk(g, ms[n + 2]) && Does(g, restore, ms[n + 1], ms[n + 2], cmds[n + 1]);
    HandlerEnds(g, restore, ms[n + 1], ms[n + 2], tid, outer);
  }
}
