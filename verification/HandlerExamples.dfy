/** A run of the processor from its start, with handlers nested on two tasks, code run in them and switches between. */
module HandlerExamples {
  import opened HandlerStack
  import opened HandlerRuns

  /** Stacks of a hundred words for two tasks; one word of memory belongs to neither. */
  function Stacks(): Regions
  {
    Regions([0, 100], [100, 200])
  }

  const WORDS: nat := 201

  function Eight(w: Word): seq<Word>
  {
    [w, w, w, w, w, w, w, w]
  }

  const HANDLER := Handler(1000, [1, 2, 3, 4])

  /** Code that leaves the stack pointer at `psp`. */
  function Code(writes: map<nat, Word>, psp: nat): Command
  {
    Computing(writes, Context(psp, Eight(5), Eight(6)))
  }

  /**
   Task 1 is started; a handler on task 0 runs code and puts one on task 1, which does the same to itself; all of them
   end.
   */
  function Nested(): seq<Command>
  {
    [Starting(1, Eight(7)), Interrupting(0, HANDLER), Code(map[70 := 1], 60), Interrupting(1, HANDLER), Switching(1),
     Code(map[160 := 2, 170 := 3], 150), Interrupting(1, HANDLER), Code(map[120 := 4], 134), Restoring,
     Code(map[], 184), Restoring, Switching(0), Code(map[], 84), Restoring]
  }

  function Twos(current: nat, first: seq<int>, second: seq<int>): Plan
  {
    Plan(current, [true, true], [first, second], WORDS)
  }

  /** The stack pointers along the way. */
  function Plans(): seq<Plan>
  {
    [Plan(0, [true, false], [[100], []], WORDS), Twos(0, [100], [200]), Twos(0, [100, 84], [200]),
     Twos(0, [100, 60], [200]), Twos(0, [100, 60], [200, 184]), Twos(1, [100, 60], [200, 184]),
     Twos(1, [100, 60], [200, 150]), Twos(1, [100, 60], [200, 150, 134]), Twos(1, [100, 60], [200, 150, 134]),
     Twos(1, [100, 60], [200, 150]), Twos(1, [100, 60], [200, 184]), Twos(1, [100, 60], [200]),
     Twos(0, [100, 60], [200]), Twos(0, [100, 84], [200]), Twos(0, [100], [200])]
  }

  predicate Leads(g: Regions, p: Plan, cmd: Command, p': Plan)
  {
    && |g.low| == |g.high| == |p.used| && p.current < |g.low|
    && Can(g, p, cmd) && Planned(g, p, cmd) == p'
  }

  /** Commands that lead from plan to plan can be carried out. */
  lemma {:induction false} CanFollow(g: Regions, ps: seq<Plan>, cmds: seq<Command>)
    requires |ps| == |cmds| + 1 && forall k :: 0 <= k < |cmds| ==> Leads(g, ps[k], cmds[k], ps[k + 1])
    ensures CanRun(g, ps[0], cmds)
    decreases |cmds|
  {
    if cmds == [] {
    } else {
      assert Leads(g, ps[0], cmds[0], ps[1]);
      forall k | 0 <= k < |cmds| - 1 ensures Leads(g, ps[1..][k], cmds[1..][k], ps[1..][k + 1]) {
        assert Leads(g, ps[k + 1], cmds[k + 1], ps[k + 2]);
      }
      CanFollow(g, ps[1..], cmds[1..]);
    }
  }

  lemma FirstSteps(k: nat)
    requires k < 4
    ensures Leads(Stacks(), Plans()[k], Nested()[k], Plans()[k + 1])
  {
    assert [100] + [84] == [100, 84] && [100] + [60] == [100, 60] && [200] + [184] == [200, 184];
    assert [100, 84][..1] == [100];
  }

  lemma MiddleSteps(k: nat)
    requires 4 <= k < 8
    ensures Leads(Stacks(), Plans()[k], Nested()[k], Plans()[k + 1])
  {
    assert [200] + [150] == [200, 150] && [200, 150] + [134] == [200, 150, 134];
    assert [200, 184][..1] == [200] && [200, 150, 134][..2] == [200, 150];
  }

  lemma LastSteps(k: nat)
    requires 8 <= k < 14
    ensures Leads(Stacks(), Plans()[k], Nested()[k], Plans()[k + 1])
  {
    assert [200, 150, 134][..2] == [200, 150] && [200, 150][..1] == [200] && [200, 184][..1] == [200];
    assert [100, 60][..1] == [100] && [100, 84][..1] == [100];
    assert [200] + [184] == [200, 184] && [100] + [84] == [100, 84];
  }

  lemma NestedLeads()
    ensures |Plans()| == |Nested()| + 1 == 15
    ensures forall k :: 0 <= k < |Nested()| ==> Leads(Stacks(), Plans()[k], Nested()[k], Plans()[k + 1])
  {
    forall k | 0 <= k < |Nested()| ensures Leads(Stacks(), Plans()[k], Nested()[k], Plans()[k + 1]) {
      if k < 4 {
        FirstSteps(k);
      } else if k < 8 {
        MiddleSteps(k);
      } else {
        LastSteps(k);
      }
    }
  }

  lemma NestedCanRun()
    ensures CanRun(Stacks(), Plans()[0], Nested())
  {
    NestedLeads();
    CanFollow(Stacks(), Plans(), Nested());
  }

  /** Commands before `rest` nest if who runs and how deep the handlers are say so, step by step. */
  lemma {:induction false} NestFollow(cmds: seq<Command>, rest: seq<Command>, tid: nat, current: seq<nat>,
                                      depth: seq<int>)
    requires |current| == |depth| == |cmds| + 1 && WellNested(rest, tid, current[|cmds|], depth[|cmds|])
    requires forall k :: 0 <= k < |cmds| ==> depth[k] >= 1 && cmds[k] != Deleting(tid)
    requires forall k :: 0 <= k < |cmds| ==>
      current[k + 1] == Current(current[k], cmds[k]) && depth[k + 1] == depth[k] + Deeper(current[k], cmds[k], tid)
    ensures WellNested(cmds + rest, tid, current[0], depth[0])
    decreases |cmds|
  {
    if cmds == [] {
      assert cmds + rest == rest;
    } else {
      assert (cmds + rest)[1..] == cmds[1..] + rest;
      NestFollow(cmds[1..], rest, tid, current[1..], depth[1..]);
    }
  }

  /** What happens between the insertion of the handler on task 0 and its end, and of the outer one on task 1. */
  function InFirst(): seq<Command>
  {
    Nested()[2..13]
  }

  function InSecond(): seq<Command>
  {
    Nested()[4..10]
  }

  lemma NestedAt()
    ensures |Nested()| == 14 && Nested()[1] == Interrupting(0, HANDLER) && Nested()[2].Computing?
    ensures Nested()[3] == Nested()[6] == Interrupting(1, HANDLER) && Nested()[4] == Switching(1)
    ensures Nested()[5].Computing? && Nested()[7].Computing? && Nested()[8] == Restoring && Nested()[9].Computing?
    ensures Nested()[10] == Restoring && Nested()[11] == Switching(0) && Nested()[12].Computing?
    ensures Nested()[13] == Restoring
  {}

  lemma FirstWell()
    ensures WellNested(InFirst(), 0, 0, 1)
  {
    FirstEndsWell();
    NestedAt();
    var a, b := Nested()[2..8], Nested()[8..13];
    NestFollow(a, b, 0, [0, 0, 0, 1, 1, 1, 1], [1, 1, 1, 1, 1, 1, 1]);
    assert a + b == InFirst();
  }

  lemma FirstEndsWell()
    ensures WellNested(Nested()[8..13], 0, 1, 1)
  {
    NestedAt();
    var b := Nested()[8..13];
    NestFollow(b, [], 0, [1, 1, 1, 1, 0, 0], [1, 1, 1, 1, 1, 1]);
    assert b + [] == b;
  }

  lemma SecondWell()
    ensures WellNested(InSecond(), 1, 0, 1)
  {
    NestedAt();
    NestFollow(InSecond(), [], 1, [0, 1, 1, 1, 1, 1, 1], [1, 1, 1, 2, 2, 1, 1]);
    assert InSecond() + [] == InSecond();
  }

  lemma Handled(cmds: seq<Command>, i: nat, j: nat, tid: nat)
    requires i + 2 <= j <= |cmds| && cmds[i] == Interrupting(tid, HANDLER) && cmds[j - 1] == Restoring
    ensures cmds[i..j] == Handling(tid, HANDLER, cmds[i + 1..j - 1])
  {}

  /** A processor just set up has the first of the plans. */
  lemma FirstPlan(m: Machine)
    requires m.current == 0 && |m.stacked| == 2 && |m.ram| == WORDS && m.used == [true, false]
    requires Chain(m, 0) == [Live(m)] && Chain(m, 1) == [] && m.psp == 100
    ensures PlanOf(m) == Plans()[0]
  {
    var tops := PlanOf(m).tops;
    assert tops[0] == Pointers([Live(m)]) == [100] && tops[1] == Pointers([]) == [];
    assert tops == [[100], []];
  }

  lemma UndoneAt(g: Regions, restore: Word, ms: seq<Machine>, cmds: seq<Command>, tid: nat, i: nat,
                 inside: seq<Command>)
    requires IsRun(g, restore, ms, cmds) && i + |inside| + 2 <= |cmds| && tid < |ms[i].used| && ms[i].used[tid]
    requires cmds[i..i + |inside| + 2] == Handling(tid, HANDLER, inside)
    requires WellNested(inside, tid, ms[i].current, 1)
    ensures var j := i + |inside| + 2;
      && ms[j].current == tid < |ms[j].stacked| && tid < |ms[i].stacked|
      && Chain(ms[j], tid) == Chain(ms[i], tid)
  {
    var j := i + |inside| + 2;
    Part(g, restore, ms, cmds, i, j);
    HandlerUndone(g, restore, ms[i..j + 1], tid, HANDLER, inside);
  }

  /** The machines of a run have the plans. */
  lemma {:induction false} RunFollows(g: Regions, restore: Word, ms: seq<Machine>, ps: seq<Plan>, cmds: seq<Command>,
                                      k: nat)
    requires IsRun(g, restore, ms, cmds) && |ps| == |ms| && PlanOf(ms[0]) == ps[0] && k < |ms|
    requires forall i :: 0 <= i < |cmds| ==> Leads(g, ps[i], cmds[i], ps[i + 1])
    ensures PlanOf(ms[k]) == ps[k]
    decreases k
  {
    if k == 0 {
    } else {
      RunFollows(g, restore, ms, ps, cmds, k - 1);
      assert MachineOk(g, ms[k - 1]) && Does(g, restore, ms[k - 1], ms[k], cmds[k - 1]);
      DoesPlanned(g, restore, ms[k - 1], ms[k], cmds[k - 1]);
      assert Leads(g, ps[k - 1], cmds[k - 1], ps[k]);
    }
  }

  /** Who runs and who is in use when the two outer handlers begin. */
  lemma BeforeHandlers(g: Regions, restore: Word, ms: seq<Machine>)
    requires g == Stacks() && IsRun(g, restore, ms, Nested()) && PlanOf(ms[0]) == Plans()[0]
    ensures ms[1].current == ms[3].current == 0 && ms[1].used == ms[3].used == [true, true]
  {
    NestedLeads();
    RunFollows(g, restore, ms, Plans(), Nested(), 1);
    RunFollows(g, restore, ms, Plans(), Nested(), 3);
  }

  /** The handlers leave no trace in the contexts of either task. */
  ghost predicate NoTrace(ms: seq<Machine>)
  {
    && |ms| == 15 && ms[14].current == 0
    && |ms[1].stacked| == |ms[14].stacked| == |ms[3].stacked| == |ms[11].stacked| == 2
    && Chain(ms[14], 0) == Chain(ms[1], 0) && Chain(ms[11], 1) == Chain(ms[3], 1)
  }

  /** A handler inserted by command `i` and ended by command `j - 1`. */
  lemma HandlerAt(g: Regions, restore: Word, ms: seq<Machine>, cmds: seq<Command>, tid: nat, i: nat, j: nat)
    requires IsRun(g, restore, ms, cmds) && i + 2 <= j <= |cmds| && tid < |ms[i].used| && ms[i].used[tid]
    requires cmds[i] == Interrupting(tid, HANDLER) && cmds[j - 1] == Restoring
    requires WellNested(cmds[i + 1..j - 1], tid, ms[i].current, 1)
    ensures |ms[i].stacked| == |ms[j].stacked| == |g.low| && ms[j].current == tid < |g.low|
    ensures Chain(ms[j], tid) == Chain(ms[i], tid)
  {
    Handled(cmds, i, j, tid);
    UndoneAt(g, restore, ms, cmds, tid, i, cmds[i + 1..j - 1]);
    assert MachineOk(g, ms[i]) && MachineOk(g, ms[j]);
  }

  lemma FirstUndone(g: Regions, restore: Word, ms: seq<Machine>, cmds: seq<Command>)
    requires g == Stacks() && cmds == Nested() && IsRun(g, restore, ms, cmds)
    requires ms[1].current == 0 && ms[1].used == [true, true]
    ensures |ms[1].stacked| == |ms[14].stacked| == 2 && ms[14].current == 0 && Chain(ms[14], 0) == Chain(ms[1], 0)
  {
    FirstWell();
    NestedAt();
    HandlerAt(g, restore, ms, cmds, 0, 1, 14);
  }

  lemma SecondUndone(g: Regions, restore: Word, ms: seq<Machine>, cmds: seq<Command>)
    requires g == Stacks() && cmds == Nested() && IsRun(g, restore, ms, cmds)
    requires ms[3].current == 0 && ms[3].used == [true, true]
    ensures |ms[3].stacked| == |ms[11].stacked| == 2 && Chain(ms[11], 1) == Chain(ms[3], 1)
  {
    SecondWell();
    NestedAt();
    HandlerAt(g, restore, ms, cmds, 1, 3, 11);
  }

  lemma NestedUndone(g: Regions, restore: Word, ms: seq<Machine>)
    requires g == Stacks() && IsRun(g, restore, ms, Nested()) && PlanOf(ms[0]) == Plans()[0]
    ensures NoTrace(ms)
  {
    BeforeHandlers(g, restore, ms);
    FirstUndone(g, restore, ms, Nested());
    SecondUndone(g, restore, ms, Nested());
  }

  method SetUp(restore: Word) returns (cpu: Cpu)
    ensures fresh(cpu) && cpu.Valid() && cpu.regions == Stacks() && cpu.restore == restore
    ensures PlanOf(cpu.State()) == Plans()[0]
  {
    cpu := new Cpu(Stacks(), restore, seq(WORDS, _ => 0));
    assert cpu.used == [true, false];
    FirstPlan(cpu.State());
  }

  /**
   From a processor just set up the whole run is carried out. Both tasks are then in the contexts they were in before
   the handlers, and task 0 runs on with the stack pointer and registers it had.
   */
  method RunNested(restore: Word) returns (cpu: Cpu, ghost ms: seq<Machine>)
    ensures fresh(cpu) && cpu.Valid() && cpu.regions == Stacks() && cpu.restore == restore
    ensures IsRun(Stacks(), restore, ms, Nested()) && ms[14] == cpu.State() && NoTrace(ms)
  {
    cpu := SetUp(restore);
    NestedCanRun();
    ms := cpu.ExecuteAll(Nested());
    NestedUndone(Stacks(), restore, ms);
  }
}
