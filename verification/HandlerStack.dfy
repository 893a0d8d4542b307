/**
 Context frames on task stacks: exception entry and return, context save and load, the
 insertion of handlers with `task_interrupt`, their removal with `task_restore`, and
 context switches. Addresses count 32-bit words.
 */
module HandlerStack {

  type Word = int

  const FRAME: nat := 8
  const DEFAULT_PSR: Word := 0x2100_0000

  /** A thread context: stack pointer, hardware frame (r0-r3, r12, lr, pc, psr), software frame (r4-r11). */
  datatype Context = Context(psp: nat, hw: seq<Word>, sw: seq<Word>)

  datatype Handler = Handler(pc: Word, args: seq<Word>)

  /**
   Registers with which a handler starts: its arguments in r0 to r3, 0 in r12, the address it returns to in lr, its own
   in pc, and the processor's default status.
   */
  predicate Enters(hw: seq<Word>, h: Handler, restore: Word)
  {
    && |hw| == 8 && |h.args| == 4
    && hw[0] == h.args[0] && hw[1] == h.args[1] && hw[2] == h.args[2] && hw[3] == h.args[3] && hw[4] == 0
    && hw[5] == restore && hw[6] == h.pc && hw[7] == 0x2100_0000
  }

  /** The hardware frame written for a handler; it returns into `task_restore`. */
  function HandlerFrame(h: Handler, restore: Word): (f: seq<Word>)
    requires |h.args| == 4
    ensures |f| == FRAME
  {
    [h.args[0], h.args[1], h.args[2], h.args[3], 0, restore, h.pc, DEFAULT_PSR]
  }

  lemma FrameEnters(h: Handler, restore: Word)
    requires |h.args| == 4
    ensures Enters(HandlerFrame(h, restore), h, restore)
  {}

  // ---- frames in memory ----

  function Load(ram: seq<Word>, at: nat): (f: seq<Word>)
    requires at + FRAME <= |ram|
    ensures |f| == FRAME
  {
    ram[at..at + FRAME]
  }

  function Store(ram: seq<Word>, at: nat, f: seq<Word>): (r: seq<Word>)
    requires at + FRAME <= |ram| && |f| == FRAME
    ensures |r| == |ram| && Load(r, at) == f
    ensures forall a :: 0 <= a < |ram| && !(at <= a < at + FRAME) ==> r[a] == ram[a]
  {
    ram[..at] + f + ram[at + FRAME..]
  }

  /** Same words in the range from `lo` up to `hi`. */
  ghost predicate SameIn(ram: seq<Word>, ram': seq<Word>, lo: nat, hi: nat)
  {
    |ram'| == |ram| && forall a :: lo <= a < hi && a < |ram| ==> ram'[a] == ram[a]
  }

  /** Where the next frame of a stack holding the contexts `cs` goes, below. */
  function Bound(cs: seq<Context>, high: nat): int
  {
    if cs == [] then high else cs[|cs| - 1].psp - 2 * FRAME
  }

  /** The frames of a context are in memory right below its stack pointer. */
  ghost predicate FrameAt(ram: seq<Word>, c: Context)
  {
    2 * FRAME <= c.psp <= |ram| && Load(ram, c.psp - 2 * FRAME) == c.sw && Load(ram, c.psp - FRAME) == c.hw
  }

  /** Each context is in memory, and each below the one before. */
  ghost predicate Stacked(ram: seq<Word>, cs: seq<Context>, low: nat, high: nat)
    decreases |cs|
  {
    if cs == [] then low <= high <= |ram|
    else
      var c, rest := cs[|cs| - 1], cs[..|cs| - 1];
      FrameAt(ram, c) && low <= c.psp - 2 * FRAME && c.psp <= Bound(rest, high) && Stacked(ram, rest, low, high)
  }

  lemma FrameSame(ram: seq<Word>, ram': seq<Word>, c: Context)
    requires FrameAt(ram, c) && SameIn(ram, ram', c.psp - 2 * FRAME, c.psp)
    ensures FrameAt(ram', c)
  {
    assert Load(ram', c.psp - 2 * FRAME) == Load(ram, c.psp - 2 * FRAME);
    assert Load(ram', c.psp - FRAME) == Load(ram, c.psp - FRAME);
  }

  lemma {:induction false} StackedBound(ram: seq<Word>, cs: seq<Context>, low: nat, high: nat)
    requires Stacked(ram, cs, low, high)
    ensures low <= Bound(cs, high) <= high <= |ram|
    decreases |cs|
  {
    if cs == [] {
    } else {
      StackedBound(ram, cs[..|cs| - 1], low, high);
    }
  }

  /** Only words above the bound matter. */
  lemma {:induction false} StackedSame(ram: seq<Word>, ram': seq<Word>, cs: seq<Context>, low: nat, high: nat)
    requires Stacked(ram, cs, low, high) && 0 <= Bound(cs, high) && SameIn(ram, ram', Bound(cs, high), high)
    ensures Stacked(ram', cs, low, high)
    decreases |cs|
  {
    if cs == [] {
    } else {
      StackedBound(ram, cs[..|cs| - 1], low, high);
      StackedSame(ram, ram', cs[..|cs| - 1], low, high);
      FrameSame(ram, ram', cs[|cs| - 1]);
    }
  }

  /** Two frames written below the bound make one more context. */
  lemma StackedPush(ram: seq<Word>, ram': seq<Word>, cs: seq<Context>, c: Context, low: nat, high: nat)
    requires Stacked(ram, cs, low, high) && low <= c.psp - 2 * FRAME && c.psp <= Bound(cs, high)
    requires SameIn(ram, ram', c.psp, high) && FrameAt(ram', c)
    ensures Stacked(ram', cs + [c], low, high) && Bound(cs + [c], high) == c.psp - 2 * FRAME
  {
    StackedSame(ram, ram', cs, low, high);
    assert (cs + [c])[..|cs|] == cs;
  }

  // ---- the processor and the table of tasks ----

  /** Stack memory of each task. */
  datatype Regions = Regions(low: seq<nat>, high: seq<nat>)

  /**
   The live registers, the memory, the stack pointer and in-use flag of each task table entry,
   and the contexts stacked in each task's memory, outermost first.
   */
  datatype Machine = Machine(ram: seq<Word>, psp: nat, hw: seq<Word>, sw: seq<Word>, current: nat,
                             sp: seq<nat>, used: seq<bool>, stacked: seq<seq<Context>>)

  ghost predicate Layout(g: Regions, m: Machine)
  {
    && |g.low| == |g.high| == |m.sp| == |m.used| == |m.stacked|
    && m.current < |g.low| && |m.hw| == FRAME && |m.sw| == FRAME
    && (forall t, u :: 0 <= t < |g.low| && 0 <= u < |g.low| && t != u ==>
          g.high[t] <= g.low[u] || g.high[u] <= g.low[t])
  }

  ghost predicate TaskOk(g: Regions, m: Machine, t: nat)
    requires Layout(g, m) && t < |g.low|
  {
    && Stacked(m.ram, m.stacked[t], g.low[t], g.high[t])
    && if t == m.current then g.low[t] <= m.psp <= Bound(m.stacked[t], g.high[t])
       else m.stacked[t] != [] && m.sp[t] == Bound(m.stacked[t], g.high[t])
  }

  /** Task `t` has contexts: it runs, or its table entry is in use. */
  predicate Alive(m: Machine, t: nat)
    requires t < |m.used|
  {
    t == m.current || m.used[t]
  }

  ghost predicate MachineOk(g: Regions, m: Machine)
  {
    Layout(g, m) && forall t :: 0 <= t < |g.low| && Alive(m, t) ==> TaskOk(g, m, t)
  }

  function Live(m: Machine): Context
  {
    Context(m.psp, m.hw, m.sw)
  }

  /** The contexts of task `t`, outermost first; the last is the one it is in. */
  function Chain(m: Machine, t: nat): seq<Context>
    requires t < |m.stacked|
  {
    if t == m.current then m.stacked[t] + [Live(m)] else m.stacked[t]
  }

  /** What code does to the contexts of its task: it changes the innermost one, or ends it. */
  datatype Act = Run(context: Context) | Restore

  function After(chain: seq<Context>, a: Act): seq<Context>
    requires chain != []
  {
    match a
    case Run(c) => chain[..|chain| - 1] + [c]
    case Restore => chain[..|chain| - 1]
  }

  /** Task `tid` gets `c` as its innermost context; the contexts of the other tasks are untouched. */
  ghost predicate Grows(m: Machine, m': Machine, tid: nat, c: Context)
  {
    |m'.stacked| == |m.stacked| &&
    forall t :: 0 <= t < |m.stacked| ==> Chain(m', t) == if t == tid then Chain(m, t) + [c] else Chain(m, t)
  }

  ghost predicate SameChains(m: Machine, m': Machine)
  {
    |m'.stacked| == |m.stacked| && forall t :: 0 <= t < |m.stacked| ==> Chain(m', t) == Chain(m, t)
  }

  /** Words written only inside the stack of task `w` below its stacked contexts. */
  ghost predicate WritesBelow(g: Regions, m: Machine, ram': seq<Word>, w: nat)
    requires Layout(g, m) && w < |g.low|
  {
    && |ram'| == |m.ram|
    && forall a :: 0 <= a < |ram'| && !(g.low[w] <= a < Bound(m.stacked[w], g.high[w])) ==> ram'[a] == m.ram[a]
  }

  /** Such writes leave every stacked context in place, of every task. */
  lemma WritesBelowKeep(g: Regions, m: Machine, ram': seq<Word>, w: nat, t: nat)
    requires MachineOk(g, m) && w < |g.low| && t < |g.low| && Alive(m, w) && Alive(m, t) && WritesBelow(g, m, ram', w)
    ensures Stacked(ram', m.stacked[t], g.low[t], g.high[t])
    ensures g.low[t] <= Bound(m.stacked[t], g.high[t]) <= g.high[t] <= |m.ram|
  {
    assert TaskOk(g, m, t) && TaskOk(g, m, w);
    StackedBound(m.ram, m.stacked[t], g.low[t], g.high[t]);
    StackedBound(m.ram, m.stacked[w], g.low[w], g.high[w]);
    StackedSame(m.ram, ram', m.stacked[t], g.low[t], g.high[t]);
  }

  /** Running code of the current task: any registers, any words below its stacked contexts. */
  lemma WorkOk(g: Regions, m: Machine, m': Machine)
    requires MachineOk(g, m) && |m'.hw| == FRAME && |m'.sw| == FRAME && WritesBelow(g, m, m'.ram, m.current)
    requires g.low[m.current] <= m'.psp <= Bound(m.stacked[m.current], g.high[m.current])
    requires m' == m.(ram := m'.ram, psp := m'.psp, hw := m'.hw, sw := m'.sw)
    ensures MachineOk(g, m')
  {
    forall t | 0 <= t < |g.low| && Alive(m', t) ensures TaskOk(g, m', t) {
      assert TaskOk(g, m, t);
      WritesBelowKeep(g, m, m'.ram, m.current, t);
    }
  }

  /** Pushing a context on a stack, in the memory of task `w`. */
  lemma PushOk(g: Regions, m: Machine, ram': seq<Word>, w: nat, c: Context)
    requires MachineOk(g, m) && w < |g.low| && Alive(m, w) && WritesBelow(g, m, ram', w) && FrameAt(ram', c)
    requires g.low[w] <= c.psp - 2 * FRAME && c.psp <= Bound(m.stacked[w], g.high[w])
    requires SameIn(m.ram, ram', c.psp, g.high[w])
    ensures Stacked(ram', m.stacked[w] + [c], g.low[w], g.high[w])
    ensures Bound(m.stacked[w] + [c], g.high[w]) == c.psp - 2 * FRAME
    ensures forall t :: 0 <= t < |g.low| && t != w && Alive(m, t) ==> Stacked(ram', m.stacked[t], g.low[t], g.high[t])
  {
    assert TaskOk(g, m, w);
    WritesBelowKeep(g, m, ram', w, w);
    StackedPush(m.ram, ram', m.stacked[w], c, g.low[w], g.high[w]);
    forall t | 0 <= t < |g.low| && t != w && Alive(m, t) ensures Stacked(ram', m.stacked[t], g.low[t], g.high[t]) {
      WritesBelowKeep(g, m, ram', w, t);
    }
  }

  /** The live context is stacked and a new one takes its place below it. */
  lemma SelfOk(g: Regions, m: Machine, m': Machine)
    requires MachineOk(g, m) && WritesBelow(g, m, m'.ram, m.current) && FrameAt(m'.ram, Live(m))
    requires SameIn(m.ram, m'.ram, m.psp, g.high[m.current])
    requires |m'.hw| == FRAME && |m'.sw| == FRAME && g.low[m.current] <= m'.psp == m.psp - 2 * FRAME
    requires m'.current == m.current && m'.sp == m.sp && m'.used == m.used
    requires m'.stacked == m.stacked[m.current := m.stacked[m.current] + [Live(m)]]
    ensures MachineOk(g, m') && Grows(m, m', m.current, Live(m'))
  {
    assert TaskOk(g, m, m.current);
    PushOk(g, m, m'.ram, m.current, Live(m));
    forall t | 0 <= t < |g.low| && Alive(m', t) ensures TaskOk(g, m', t) {
      assert TaskOk(g, m, t);
    }
  }

  /** A context is stacked on another task. */
  lemma OtherOk(g: Regions, m: Machine, m': Machine, tid: nat, c: Context)
    requires MachineOk(g, m) && tid < |g.low| && tid != m.current && m.used[tid]
    requires WritesBelow(g, m, m'.ram, tid) && FrameAt(m'.ram, c)
    requires c.psp == m.sp[tid] && g.low[tid] <= c.psp - 2 * FRAME
    requires m' == m.(ram := m'.ram, sp := m.sp[tid := c.psp - 2 * FRAME],
                      stacked := m.stacked[tid := m.stacked[tid] + [c]])
    ensures MachineOk(g, m')
    ensures Grows(m, m', tid, c)
  {
    assert TaskOk(g, m, tid);
    PushOk(g, m, m'.ram, tid, c);
    forall t | 0 <= t < |g.low| && Alive(m', t) ensures TaskOk(g, m', t) {
      assert TaskOk(g, m, t);
    }
  }

  /** A frame written on another stack does not touch the frames just saved on the current one. */
  lemma OtherStack(g: Regions, m: Machine, ram': seq<Word>, tid: nat)
    requires MachineOk(g, m) && tid < |g.low| && tid != m.current && m.used[tid]
    requires g.low[tid] <= m.sp[tid] - 2 * FRAME
    requires FrameAt(m.ram, Live(m)) && g.low[m.current] <= m.psp - 2 * FRAME && |ram'| == |m.ram|
    requires forall a :: 0 <= a < |ram'| && !(m.sp[tid] - FRAME <= a < m.sp[tid]) ==> ram'[a] == m.ram[a]
    ensures WritesBelow(g, m, ram', tid) && FrameAt(ram', Live(m))
  {
    assert TaskOk(g, m, tid) && TaskOk(g, m, m.current);
    Room(g, m, tid);
    Room(g, m, m.current);
    FrameSame(m.ram, ram', Live(m));
  }

  /** The innermost stacked context of the current task becomes live. */
  lemma PopOk(g: Regions, m: Machine, m': Machine)
    requires MachineOk(g, m) && m.stacked[m.current] != []
    requires var cs := m.stacked[m.current]; var top := cs[|cs| - 1];
      m' == m.(psp := top.psp, hw := top.hw, sw := top.sw, stacked := m.stacked[m.current := cs[..|cs| - 1]])
    ensures MachineOk(g, m')
  {
    assert TaskOk(g, m, m.current);
    forall t | 0 <= t < |g.low| && Alive(m', t) ensures TaskOk(g, m', t) {
      assert TaskOk(g, m, t);
    }
  }

  /** All contexts of task `t` are in memory. */
  ghost predicate Saved(g: Regions, m: Machine, t: nat)
    requires Layout(g, m) && t < |g.low|
  {
    Stacked(m.ram, m.stacked[t], g.low[t], g.high[t]) && m.stacked[t] != [] && m.sp[t] == Bound(m.stacked[t], g.high[t])
  }

  lemma SaveOk(g: Regions, m: Machine, m': Machine)
    requires MachineOk(g, m) && WritesBelow(g, m, m'.ram, m.current) && FrameAt(m'.ram, Live(m))
    requires SameIn(m.ram, m'.ram, m.psp, g.high[m.current]) && g.low[m.current] <= m.psp - 2 * FRAME
    requires m' == m.(ram := m'.ram, sp := m.sp[m.current := m.psp - 2 * FRAME],
                      stacked := m.stacked[m.current := m.stacked[m.current] + [Live(m)]])
    ensures Layout(g, m')
    ensures forall t :: 0 <= t < |g.low| ==> m'.stacked[t] == Chain(m, t) && (Alive(m, t) ==> Saved(g, m', t))
  {
    assert TaskOk(g, m, m.current);
    PushOk(g, m, m'.ram, m.current, Live(m));
    forall t | 0 <= t < |g.low| && Alive(m, t) ensures Saved(g, m', t) {
      assert TaskOk(g, m, t);
    }
  }

  lemma ResumeOk(g: Regions, m: Machine, m': Machine, next: nat)
    requires Layout(g, m) && next < |g.low| && Saved(g, m, next)
    requires forall t :: 0 <= t < |g.low| && m.used[t] ==> Saved(g, m, t)
    requires var cs := m.stacked[next]; cs != [] && var top := cs[|cs| - 1];
      m' == m.(current := next, psp := top.psp, hw := top.hw, sw := top.sw,
               stacked := m.stacked[next := cs[..|cs| - 1]])
    ensures MachineOk(g, m') && forall t :: 0 <= t < |g.low| ==> Chain(m', t) == m.stacked[t]
  {
    assert Saved(g, m, next);
    var cs := m.stacked[next];
    assert cs == cs[..|cs| - 1] + [cs[|cs| - 1]];
    forall t | 0 <= t < |g.low| && Alive(m', t) ensures TaskOk(g, m', t) {
      assert Saved(g, m, t);
    }
  }

  lemma Room(g: Regions, m: Machine, t: nat)
    requires MachineOk(g, m) && t < |g.low| && Alive(m, t)
    ensures g.low[t] <= Bound(m.stacked[t], g.high[t]) <= g.high[t] <= |m.ram|
    ensures if t == m.current then g.low[t] <= m.psp <= Bound(m.stacked[t], g.high[t])
            else m.stacked[t] != [] && m.sp[t] == Bound(m.stacked[t], g.high[t])
  {
    assert TaskOk(g, m, t);
    StackedBound(m.ram, m.stacked[t], g.low[t], g.high[t]);
  }

  /** Memory after the live context has been pushed below its stack pointer. */
  ghost predicate Pushed(m: Machine, ram': seq<Word>)
  {
    && |ram'| == |m.ram| && FrameAt(ram', Live(m))
    && forall a :: 0 <= a < |ram'| && !(m.psp - 2 * FRAME <= a < m.psp) ==> ram'[a] == m.ram[a]
  }

  /** Words are written on the stacks of tasks `t` and `u` only. */
  ghost predicate WritesOn(g: Regions, m: Machine, m': Machine, t: nat, u: nat)
    requires t < |g.low| == |g.high| && u < |g.low|
  {
    |m'.ram| == |m.ram| && forall a ::
      0 <= a < |m.ram| && !(g.low[t] <= a < g.high[t]) && !(g.low[u] <= a < g.high[u]) ==> m'.ram[a] == m.ram[a]
  }

  /** Pushed and popped again: nothing has changed but words below the stack. */
  lemma PushedOk(g: Regions, m: Machine, ram': seq<Word>)
    requires MachineOk(g, m) && Pushed(m, ram') && g.low[m.current] <= m.psp - 2 * FRAME
    ensures MachineOk(g, m.(ram := ram')) && SameChains(m, m.(ram := ram'))
    ensures WritesOn(g, m, m.(ram := ram'), m.current, m.current)
  {
    Room(g, m, m.current);
    WorkOk(g, m, m.(ram := ram'));
  }

  lemma SelfInserted(g: Regions, m: Machine, ram1: seq<Word>, frame: seq<Word>, m': Machine)
    requires MachineOk(g, m) && Pushed(m, ram1) && g.low[m.current] <= m.psp - 3 * FRAME && |frame| == FRAME
    requires m' == m.(ram := Store(ram1, m.psp - 3 * FRAME, frame), psp := m.psp - 2 * FRAME, hw := frame,
                      stacked := m.stacked[m.current := m.stacked[m.current] + [Live(m)]])
    ensures MachineOk(g, m') && Grows(m, m', m.current, Live(m')) && WritesOn(g, m, m', m.current, m.current)
  {
    Room(g, m, m.current);
    FrameSame(ram1, m'.ram, Live(m));
    SelfOk(g, m, m');
  }

  lemma OtherInserted(g: Regions, m: Machine, ram1: seq<Word>, frame: seq<Word>, tid: nat, c: Context, m': Machine)
    requires MachineOk(g, m) && Pushed(m, ram1) && g.low[m.current] <= m.psp - 2 * FRAME && |frame| == FRAME
    requires tid < |g.low| && tid != m.current && m.used[tid]
    requires g.low[tid] <= m.sp[tid] - 2 * FRAME && m.sp[tid] <= |ram1|
    requires m'.ram == Store(ram1, m.sp[tid] - FRAME, frame)
    requires c == Context(m.sp[tid], frame, Load(m'.ram, m.sp[tid] - 2 * FRAME))
    requires m' == m.(ram := m'.ram, sp := m.sp[tid := m.sp[tid] - 2 * FRAME],
                      stacked := m.stacked[tid := m.stacked[tid] + [c]])
    ensures MachineOk(g, m') && FrameAt(m'.ram, Live(m))
    ensures Grows(m, m', tid, c) && WritesOn(g, m, m', m.current, tid)
  {
    var m1 := m.(ram := ram1);
    PushedOk(g, m, ram1);
    OtherStack(g, m1, m'.ram, tid);
    OtherOk(g, m1, m', tid, c);
    Room(g, m, m.current);
    Room(g, m, tid);
  }

  /** A handler context: it starts the handler, with a stack pointer below the context it interrupts. */
  ghost predicate Inserted(c: Context, before: seq<Context>, h: Handler, restore: Word)
  {
    before != [] && Enters(c.hw, h, restore) && c.psp == before[|before| - 1].psp - 2 * FRAME
  }

  /** Frames written in the memory of a free entry touch no other task. */
  lemma StartOk(g: Regions, m: Machine, tid: nat, c: Context, m': Machine)
    requires MachineOk(g, m) && tid < |g.low| && !Alive(m, tid) && FrameAt(m'.ram, c)
    requires c.psp == g.high[tid] <= |m.ram| && g.low[tid] <= c.psp - 2 * FRAME && |m'.ram| == |m.ram|
    requires forall a :: 0 <= a < |m.ram| && !(c.psp - FRAME <= a < c.psp) ==> m'.ram[a] == m.ram[a]
    requires m' == m.(ram := m'.ram, sp := m.sp[tid := c.psp - 2 * FRAME], used := m.used[tid := true],
                      stacked := m.stacked[tid := [c]])
    ensures MachineOk(g, m')
  {
    forall t | 0 <= t < |g.low| && Alive(m', t) ensures TaskOk(g, m', t) {
      if t == tid {
        assert [c][..0] == [];
      } else {
        assert TaskOk(g, m, t);
        StackedBound(m.ram, m.stacked[t], g.low[t], g.high[t]);
        StackedSame(m.ram, m'.ram, m.stacked[t], g.low[t], g.high[t]);
      }
    }
  }

  // ---- commands ----

  /**
   What the processor is made to do: a handler inserted, code run that writes some words and leaves some registers, a
   handler ended, a task switch, a new task, a task deleted.
   */
  datatype Command =
    | Interrupting(tid: nat, handler: Handler)
    | Computing(writes: map<nat, Word>, context: Context)
    | Restoring
    | Switching(next: nat)
    | Starting(tid: nat, frame: seq<Word>)
    | Deleting(tid: nat)

  /** Memory with some words written. */
  function Written(ram: seq<Word>, writes: map<nat, Word>): (r: seq<Word>)
    ensures |r| == |ram|
  {
    seq(|ram|, a requires 0 <= a < |ram| => if a in writes then writes[a] else ram[a])
  }

  // ---- what can be carried out ----

  /**
   All that decides which commands can be carried out: who runs, which entries are in use, the stack pointers of the
   contexts of each task, and the size of memory. What memory holds does not matter.
   */
  datatype Plan = Plan(current: nat, used: seq<bool>, tops: seq<seq<int>>, words: nat)

  function Pointers(cs: seq<Context>): (r: seq<int>)
    ensures |r| == |cs|
  {
    seq(|cs|, i requires 0 <= i < |cs| => cs[i].psp)
  }

  function PlanOf(m: Machine): Plan
  {
    Plan(m.current, m.used, seq(|m.stacked|, t requires 0 <= t < |m.stacked| => Pointers(Chain(m, t))), |m.ram|)
  }

  function Tops(p: Plan, t: nat): seq<int>
  {
    if t < |p.tops| then p.tops[t] else []
  }

  /** The stack pointer a task runs with, or will when it runs again. */
  function Top(p: Plan, t: nat): int
  {
    var ps := Tops(p, t);
    if ps == [] then 0 else ps[|ps| - 1]
  }

  /** Where the stacked contexts of the running task end. */
  function Floor(g: Regions, p: Plan): int
  {
    var ps := Tops(p, p.current);
    if |ps| > 1 then ps[|ps| - 2] - 2 * FRAME else if p.current < |g.high| then g.high[p.current] else 0
  }

  predicate InUse(p: Plan, t: nat)
  {
    t < |p.used| && p.used[t]
  }

  /** There is room on the stacks, code keeps to its own stack, and what is restored or resumed is there. */
  predicate Can(g: Regions, p: Plan, cmd: Command)
    requires |g.low| == |g.high| == |p.used| && p.current < |g.low|
  {
    var low, top := g.low[p.current], Top(p, p.current);
    match cmd
    case Interrupting(tid, h) =>
      && |h.args| == 4 && low + 3 * FRAME <= top
      && (tid != p.current && InUse(p, tid) ==> g.low[tid] + 4 * FRAME <= Top(p, tid))
    case Computing(writes, c) =>
      && |c.hw| == FRAME && |c.sw| == FRAME && low <= c.psp <= Floor(g, p)
      && forall a :: a in writes ==> low <= a < Floor(g, p)
    case Restoring => |Tops(p, p.current)| > 1 && top == Floor(g, p) && low + FRAME <= top
    case Switching(next) => (next == p.current || InUse(p, next)) && low + 2 * FRAME <= top
    case Starting(tid, frame) =>
      && tid < |p.used| && tid != p.current && !p.used[tid] && |frame| == FRAME
      && g.high[tid] <= p.words && g.low[tid] + 2 * FRAME <= g.high[tid]
    case Deleting(_) => true
  }

  /** The stack pointers of task `t` become `ps`. */
  function WithTops(p: Plan, t: nat, ps: seq<int>): Plan
  {
    if t < |p.tops| then p.(tops := p.tops[t := ps]) else p
  }

  /** The plan after a command. */
  function Planned(g: Regions, p: Plan, cmd: Command): Plan
  {
    var mine := Tops(p, p.current);
    var outer := if mine == [] then [] else mine[..|mine| - 1];
    match cmd
    case Interrupting(tid, h) =>
      if InUse(p, tid) then WithTops(p, tid, Tops(p, tid) + [Top(p, tid) - 2 * FRAME])
      else if tid == p.current then WithTops(p, tid, outer + [Top(p, tid) - FRAME])
      else p
    case Computing(writes, c) => WithTops(p, p.current, outer + [c.psp])
    case Restoring => WithTops(p, p.current, outer)
    case Switching(next) => p.(current := next)
    case Starting(tid, frame) =>
      if tid < |p.used| && tid < |g.high| then
        WithTops(p, tid, [g.high[tid]]).(used := p.used[tid := true])
      else p
    case Deleting(tid) => if 1 <= tid < |p.used| then p.(used := p.used[tid := false]) else p
  }

  /** Each of the commands can be carried out when its turn comes. */
  predicate CanRun(g: Regions, p: Plan, cmds: seq<Command>)
    decreases |cmds|
  {
    cmds != [] ==>
      && |g.low| == |g.high| == |p.used| && p.current < |g.low|
      && Can(g, p, cmds[0]) && CanRun(g, Planned(g, p, cmds[0]), cmds[1..])
  }

  /** What a plan says about the machine. */
  lemma PlanSays(g: Regions, m: Machine)
    requires MachineOk(g, m)
    ensures var p := PlanOf(m);
      && p.current < |p.tops| && Top(p, m.current) == m.psp
      && Floor(g, p) == Bound(m.stacked[m.current], g.high[m.current])
      && |Tops(p, m.current)| == |m.stacked[m.current]| + 1
      && forall t :: 0 <= t < |m.sp| && t != m.current && m.used[t] ==> Top(p, t) - 2 * FRAME == m.sp[t]
  {
    forall t | 0 <= t < |m.sp| && t != m.current && m.used[t] ensures Top(PlanOf(m), t) - 2 * FRAME == m.sp[t] {
      assert TaskOk(g, m, t);
    }
  }

  // ---- what a command does ----

  /** The contexts of task `t` become `chain`; those of the other tasks are untouched. */
  ghost predicate Changes(m: Machine, m': Machine, t: nat, chain: seq<Context>)
  {
    |m'.stacked| == |m.stacked| &&
    forall u :: 0 <= u < |m.stacked| ==> Chain(m', u) == if u == t then chain else Chain(m, u)
  }

  /** What the command does to the contexts of every task, and to memory. */
  ghost predicate Does(g: Regions, restore: Word, m: Machine, m': Machine, cmd: Command)
    requires Layout(g, m)
  {
    var c, mine := m.current, Chain(m, m.current);
    match cmd
    case Interrupting(tid, h) =>
      && m'.current == c && m'.used == m.used && |h.args| == 4
      && WritesOn(g, m, m', c, if tid < |m.used| then tid else c)
      && if tid < |m.used| && m.used[tid] then
           exists x :: Changes(m, m', tid, Chain(m, tid) + [x]) && Inserted(x, Chain(m, tid), h, restore)
         else if tid == c then
           FRAME <= m.psp && Changes(m, m', tid, After(mine, Run(Context(m.psp - FRAME, m.sw, m.sw))))
         else SameChains(m, m')
    case Computing(writes, x) =>
      && m'.current == c && m'.used == m.used && m'.ram == Written(m.ram, writes)
      && Changes(m, m', c, After(mine, Run(x)))
    case Restoring =>
      && m'.current == c && m'.used == m.used && WritesOn(g, m, m', c, c)
      && Changes(m, m', c, After(mine, Restore))
    case Switching(next) =>
      m'.current == next && m'.used == m.used && WritesOn(g, m, m', c, c) && SameChains(m, m')
    case Starting(tid, frame) =>
      && m'.current == c && tid < |m.used| && !Alive(m, tid) && m'.used == m.used[tid := true]
      && WritesOn(g, m, m', tid, tid)
      && exists x :: Changes(m, m', tid, [x]) && x.hw == frame && x.psp == g.high[tid]
    case Deleting(tid) =>
      && m'.current == c && m'.ram == m.ram && SameChains(m, m')
      && m'.used == if 1 <= tid < |m.used| then m.used[tid := false] else m.used
  }

  lemma GrowsDoes(g: Regions, restore: Word, m: Machine, m': Machine, tid: nat, c: Context, h: Handler)
    requires Layout(g, m) && tid < |m.used| && m.used[tid] && |h.args| == 4
    requires m'.current == m.current && m'.used == m.used && Grows(m, m', tid, c)
    requires Inserted(c, Chain(m, tid), h, restore) && WritesOn(g, m, m', m.current, tid)
    ensures Does(g, restore, m, m', Interrupting(tid, h))
  {
    assert Changes(m, m', tid, Chain(m, tid) + [c]);
  }

  /** A handler put on the stack of another task in use. */
  lemma OtherDoes(g: Regions, restore: Word, m: Machine, ram1: seq<Word>, tid: nat, h: Handler, c: Context, m': Machine)
    requires MachineOk(g, m) && Pushed(m, ram1) && g.low[m.current] <= m.psp - 2 * FRAME && |h.args| == 4
    requires tid < |g.low| && tid != m.current && m.used[tid]
    requires g.low[tid] <= m.sp[tid] - 2 * FRAME && m.sp[tid] <= |ram1|
    requires m'.ram == Store(ram1, m.sp[tid] - FRAME, HandlerFrame(h, restore))
    requires c == Context(m.sp[tid], HandlerFrame(h, restore), Load(m'.ram, m.sp[tid] - 2 * FRAME))
    requires m' == m.(ram := m'.ram, sp := m.sp[tid := m.sp[tid] - 2 * FRAME],
                      stacked := m.stacked[tid := m.stacked[tid] + [c]])
    ensures MachineOk(g, m') && FrameAt(m'.ram, Live(m)) && Does(g, restore, m, m', Interrupting(tid, h))
  {
    Room(g, m, tid);
    OtherInserted(g, m, ram1, HandlerFrame(h, restore), tid, c, m');
    FrameEnters(h, restore);
    GrowsDoes(g, restore, m, m', tid, c, h);
  }

  /** The innermost stacked context made live again, after the frame of the supervisor call was written below it. */
  lemma RestoreDoes(g: Regions, restore: Word, m: Machine, ram1: seq<Word>, top: Context, m': Machine)
    requires MachineOk(g, m) && WritesBelow(g, m, ram1, m.current) && m.stacked[m.current] != []
    requires var cs := m.stacked[m.current]; top == cs[|cs| - 1] && m' == m.(ram := ram1, psp := top.psp, hw := top.hw,
      sw := top.sw, stacked := m.stacked[m.current := cs[..|cs| - 1]])
    ensures MachineOk(g, m') && Does(g, restore, m, m', Restoring)
  {
    var cs := m.stacked[m.current];
    Room(g, m, m.current);
    WorkOk(g, m, m.(ram := ram1));
    PopOk(g, m.(ram := ram1), m');
    assert cs == cs[..|cs| - 1] + [top];
  }

  /** Every chain stacked by `m`, then the innermost context of one made live. */
  lemma SwitchDoes(g: Regions, restore: Word, m: Machine, m1: Machine, m': Machine)
    requires Layout(g, m) && WritesOn(g, m, m1, m.current, m.current) && m'.ram == m1.ram && m'.used == m.used
    requires |m1.stacked| == |m.stacked| == |m'.stacked|
    requires forall t :: 0 <= t < |m.stacked| ==> m1.stacked[t] == Chain(m, t)
    requires forall t :: 0 <= t < |m.stacked| ==> Chain(m', t) == m1.stacked[t]
    ensures Does(g, restore, m, m', Switching(m'.current))
  {}

  /** No handler for a free entry. */
  lemma NoneDoes(g: Regions, restore: Word, m: Machine, ram1: seq<Word>, tid: nat, h: Handler)
    requires MachineOk(g, m) && Pushed(m, ram1) && g.low[m.current] <= m.psp - 2 * FRAME && |h.args| == 4
    requires tid < |g.low| && tid != m.current && !m.used[tid]
    ensures MachineOk(g, m.(ram := ram1)) && Does(g, restore, m, m.(ram := ram1), Interrupting(tid, h))
  {
    PushedOk(g, m, ram1);
  }

  lemma ChangesTops(m: Machine, m': Machine, t: nat, chain: seq<Context>)
    requires Changes(m, m', t, chain) && t < |m.stacked|
    ensures PlanOf(m').tops == PlanOf(m).tops[t := Pointers(chain)]
  {}

  lemma SameTops(m: Machine, m': Machine)
    requires SameChains(m, m')
    ensures PlanOf(m').tops == PlanOf(m).tops
  {}

  lemma PointersSnoc(cs: seq<Context>, c: Context)
    ensures Pointers(cs + [c]) == Pointers(cs) + [c.psp]
    ensures cs != [] ==> Pointers(cs[..|cs| - 1]) == Pointers(cs)[..|cs| - 1]
  {}

  /** The running task's innermost context is replaced, or ended. */
  lemma InnermostPlanned(m: Machine, m': Machine, x: Context)
    requires m.current < |m.stacked|
    ensures var p, mine := PlanOf(m), Chain(m, m.current); var outer := Tops(p, m.current)[..|mine| - 1];
      && (Changes(m, m', m.current, After(mine, Run(x))) ==> PlanOf(m').tops == p.tops[m.current := outer + [x.psp]])
      && (Changes(m, m', m.current, After(mine, Restore)) ==> PlanOf(m').tops == p.tops[m.current := outer])
  {
    var mine := Chain(m, m.current);
    PointersSnoc(mine, x);
    PointersSnoc(mine[..|mine| - 1], x);
    if Changes(m, m', m.current, After(mine, Run(x))) {
      ChangesTops(m, m', m.current, After(mine, Run(x)));
    }
    if Changes(m, m', m.current, After(mine, Restore)) {
      ChangesTops(m, m', m.current, After(mine, Restore));
    }
  }

  /** A plan that differs in the stack pointers of one task. */
  lemma PlanFrom(m: Machine, m': Machine, t: nat, ps: seq<int>)
    requires t < |m.stacked| && m'.current == m.current && m'.used == m.used && |m'.ram| == |m.ram|
    requires PlanOf(m').tops == PlanOf(m).tops[t := ps]
    ensures PlanOf(m') == WithTops(PlanOf(m), t, ps)
  {}

  lemma ComputePlanned(g: Regions, restore: Word, m: Machine, m': Machine, cmd: Command)
    requires Layout(g, m) && cmd.Computing? && Does(g, restore, m, m', cmd)
    ensures PlanOf(m') == Planned(g, PlanOf(m), cmd)
  {
    InnermostPlanned(m, m', cmd.context);
    PlanFrom(m, m', m.current, Tops(PlanOf(m), m.current)[..|Chain(m, m.current)| - 1] + [cmd.context.psp]);
  }

  lemma RestorePlanned(g: Regions, restore: Word, m: Machine, m': Machine, cmd: Command)
    requires Layout(g, m) && cmd.Restoring? && Does(g, restore, m, m', cmd)
    ensures PlanOf(m') == Planned(g, PlanOf(m), cmd)
  {
    InnermostPlanned(m, m', Live(m));
    PlanFrom(m, m', m.current, Tops(PlanOf(m), m.current)[..|Chain(m, m.current)| - 1]);
  }

  lemma StartPlanned(g: Regions, restore: Word, m: Machine, m': Machine, cmd: Command)
    requires Layout(g, m) && cmd.Starting? && Does(g, restore, m, m', cmd)
    ensures PlanOf(m') == Planned(g, PlanOf(m), cmd)
  {
    var x :| Changes(m, m', cmd.tid, [x]) && x.hw == cmd.frame && x.psp == g.high[cmd.tid];
    ChangesTops(m, m', cmd.tid, [x]);
    assert Pointers([x]) == [g.high[cmd.tid]];
  }

  lemma SamePlanned(g: Regions, restore: Word, m: Machine, m': Machine, cmd: Command)
    requires Layout(g, m) && (cmd.Switching? || cmd.Deleting?) && Does(g, restore, m, m', cmd)
    ensures PlanOf(m') == Planned(g, PlanOf(m), cmd)
  {
    SameTops(m, m');
  }

  /** What a command does to a machine is what it does to the plan. */
  lemma DoesPlanned(g: Regions, restore: Word, m: Machine, m': Machine, cmd: Command)
    requires MachineOk(g, m) && Does(g, restore, m, m', cmd)
    ensures PlanOf(m') == Planned(g, PlanOf(m), cmd)
  {
    match cmd
    case Interrupting(_, _) => InterruptPlanned(g, restore, m, m', cmd);
    case Computing(_, _) => ComputePlanned(g, restore, m, m', cmd);
    case Restoring => RestorePlanned(g, restore, m, m', cmd);
    case Starting(_, _) => StartPlanned(g, restore, m, m', cmd);
    case _ => SamePlanned(g, restore, m, m', cmd);
  }

  lemma InsertedPlanned(m: Machine, m': Machine, tid: nat, x: Context)
    requires tid < |m.stacked| && Chain(m, tid) != [] && Changes(m, m', tid, Chain(m, tid) + [x])
    requires x.psp == Chain(m, tid)[|Chain(m, tid)| - 1].psp - 2 * FRAME
    ensures PlanOf(m').tops == PlanOf(m).tops[tid := Tops(PlanOf(m), tid) + [Top(PlanOf(m), tid) - 2 * FRAME]]
  {
    ChangesTops(m, m', tid, Chain(m, tid) + [x]);
    PointersSnoc(Chain(m, tid), x);
  }

  lemma InterruptPlanned(g: Regions, restore: Word, m: Machine, m': Machine, cmd: Command)
    requires Layout(g, m) && cmd.Interrupting? && Does(g, restore, m, m', cmd)
    ensures PlanOf(m') == Planned(g, PlanOf(m), cmd)
  {
    var tid := cmd.tid;
    if tid < |m.used| && m.used[tid] {
      InsertPlanned(g, restore, m, m', cmd);
    } else if tid == m.current {
      FreePlanned(g, restore, m, m', cmd);
    } else {
      SameTops(m, m');
    }
  }

  lemma TopLive(m: Machine)
    requires m.current < |m.stacked|
    ensures Top(PlanOf(m), m.current) == m.psp
    ensures |Tops(PlanOf(m), m.current)| == |Chain(m, m.current)| > 0
  {}

  lemma FreedWith(g: Regions, restore: Word, m: Machine, m': Machine, cmd: Command)
    requires Layout(g, m) && cmd.Interrupting? && Does(g, restore, m, m', cmd)
    requires cmd.tid == m.current && !m.used[cmd.tid]
    ensures m'.current == m.current && m'.used == m.used && |m'.ram| == |m.ram| && FRAME <= m.psp
    ensures Changes(m, m', m.current, After(Chain(m, m.current), Run(Context(m.psp - FRAME, m.sw, m.sw))))
  {}

  lemma FreeTops(m: Machine, m': Machine, x: Context)
    requires m.current < |m.stacked| && FRAME <= m.psp && x.psp == m.psp - FRAME
    requires m'.current == m.current && m'.used == m.used && |m'.ram| == |m.ram|
    requires Changes(m, m', m.current, After(Chain(m, m.current), Run(x)))
    ensures var p, t := PlanOf(m), m.current; var ps := Tops(p, t);
      ps != [] && PlanOf(m') == WithTops(p, t, ps[..|ps| - 1] + [Top(p, t) - FRAME])
  {
    TopLive(m);
    InnermostPlanned(m, m', x);
    PlanFrom(m, m', m.current, Tops(PlanOf(m), m.current)[..|Chain(m, m.current)| - 1] + [x.psp]);
  }

  lemma FreePlanned(g: Regions, restore: Word, m: Machine, m': Machine, cmd: Command)
    requires Layout(g, m) && cmd.Interrupting? && Does(g, restore, m, m', cmd)
    requires cmd.tid == m.current && !m.used[cmd.tid]
    ensures PlanOf(m') == Planned(g, PlanOf(m), cmd)
  {
    FreedWith(g, restore, m, m', cmd);
    FreeTops(m, m', Context(m.psp - FRAME, m.sw, m.sw));
  }

  lemma InsertedWith(g: Regions, restore: Word, m: Machine, m': Machine, cmd: Command) returns (x: Context)
    requires Layout(g, m) && cmd.Interrupting? && Does(g, restore, m, m', cmd)
    requires cmd.tid < |m.used| && m.used[cmd.tid]
    ensures Chain(m, cmd.tid) != [] && Changes(m, m', cmd.tid, Chain(m, cmd.tid) + [x])
    ensures x.psp == Chain(m, cmd.tid)[|Chain(m, cmd.tid)| - 1].psp - 2 * FRAME
  {
    x :| Changes(m, m', cmd.tid, Chain(m, cmd.tid) + [x]) && Inserted(x, Chain(m, cmd.tid), cmd.handler, restore);
  }

  lemma InsertPlanned(g: Regions, restore: Word, m: Machine, m': Machine, cmd: Command)
    requires Layout(g, m) && cmd.Interrupting? && Does(g, restore, m, m', cmd)
    requires cmd.tid < |m.used| && m.used[cmd.tid]
    ensures PlanOf(m') == Planned(g, PlanOf(m), cmd)
  {
    var x := InsertedWith(g, restore, m, m', cmd);
    InsertedPlanned(m, m', cmd.tid, x);
    PlanFrom(m, m', cmd.tid, Tops(PlanOf(m), cmd.tid) + [Top(PlanOf(m), cmd.tid) - 2 * FRAME]);
  }

  /** `ms` are the states of a machine that carries out the commands. */
  ghost predicate IsRun(g: Regions, restore: Word, ms: seq<Machine>, cmds: seq<Command>)
  {
    && |ms| == |cmds| + 1 && (forall k :: 0 <= k < |ms| ==> MachineOk(g, ms[k]))
    && forall k :: 0 <= k < |cmds| ==> Does(g, restore, ms[k], ms[k + 1], cmds[k])
  }

  class Cpu {
    const regions: Regions
    /** The address of `task_restore`. */
    const restore: Word

    var ram: seq<Word>
    var psp: nat
    var hw: seq<Word>
    var sw: seq<Word>
    var current: nat
    /** `sos_task_table[i].sp`, and whether task `i` is in use. */
    var sp: seq<nat>
    var used: seq<bool>
    ghost var stacked: seq<seq<Context>>

    ghost function State(): Machine
      reads this
    {
      Machine(ram, psp, hw, sw, current, sp, used, stacked)
    }

    ghost predicate Valid()
      reads this
    {
      MachineOk(regions, State())
    }

    /** Task 0 runs on an empty stack, and no other entry is in use. */
    constructor (g: Regions, address: Word, memory: seq<Word>)
      requires 0 < |g.low| == |g.high| && forall t :: 0 <= t < |g.low| ==> g.low[t] <= g.high[t] <= |memory|
      requires forall t, u :: 0 <= t < |g.low| && 0 <= u < |g.low| && t != u ==>
        g.high[t] <= g.low[u] || g.high[u] <= g.low[t]
      ensures Valid() && regions == g && restore == address && ram == memory && current == 0 && psp == g.high[0]
      ensures used == seq(|g.low|, t => t == 0)
      ensures forall t :: 0 <= t < |g.low| ==> Chain(State(), t) == if t == 0 then [Live(State())] else []
    {
      regions, restore, ram, current := g, address, memory, 0;
      psp, hw, sw := g.high[0], seq(FRAME, _ => 0), seq(FRAME, _ => 0);
      sp, used := seq(|g.low|, _ => 0), seq(|g.low|, i => i == 0);
      stacked := seq(|g.low|, _ => []);
    }

    /** `task_svcall_new_task`, as far as it concerns the stack: the hardware frame is written at its top. */
    method StartTask(tid: nat, frame: seq<Word>)
      requires Valid() && Can(regions, PlanOf(State()), Starting(tid, frame))
      modifies `ram, `sp, `used, `stacked
      ensures Valid() && Does(regions, restore, old(State()), State(), Starting(tid, frame))
    {
      ghost var m := State();
      assert regions.low[tid] + 2 * FRAME <= regions.high[tid] <= |ram|;
      ram := Store(ram, regions.high[tid] - FRAME, frame);
      sp := sp[tid := regions.high[tid] - FRAME - FRAME];
      used := used[tid := true];
      ghost var c := Context(regions.high[tid], frame, Load(ram, regions.high[tid] - 2 * FRAME));
      stacked := stacked[tid := [c]];
      StartOk(regions, m, tid, c, State());
      assert Changes(m, State(), tid, [c]);
    }

    /** `task_root_delete`: the entry is free, and a task that runs on goes on running. */
    method DeleteTask(tid: nat)
      requires Valid()
      modifies `used
      ensures Valid() && Does(regions, restore, old(State()), State(), Deleting(tid))
    {
      ghost var m := State();
      if tid < |used| && tid >= 1 {
        used := used[tid := false];
      }
      forall t | 0 <= t < |regions.low| && Alive(State(), t) ensures TaskOk(regions, State(), t) {
        assert TaskOk(regions, m, t);
      }
    }

    /** The current task runs. */
    method Work(writes: map<nat, Word>, c: Context)
      requires Valid() && Can(regions, PlanOf(State()), Computing(writes, c))
      modifies `ram, `psp, `hw, `sw
      ensures Valid() && Does(regions, restore, old(State()), State(), Computing(writes, c))
    {
      ghost var m := State();
      PlanSays(regions, m);
      ram, psp, hw, sw := Written(ram, writes), c.psp, c.hw, c.sw;
      WorkOk(regions, m, State());
    }

    /** Exception entry, then `task_save_context`. */
    method PushContext()
      requires |hw| == FRAME && |sw| == FRAME && 2 * FRAME <= psp <= |ram|
      modifies `ram, `psp
      ensures psp == old(psp) - 2 * FRAME && |ram| == |old(ram)|
      ensures FrameAt(ram, Context(old(psp), hw, sw))
      ensures forall a :: 0 <= a < |ram| && !(psp <= a < old(psp)) ==> ram[a] == old(ram)[a]
    {
      psp := psp - FRAME;
      ram := Store(ram, psp, hw);
      ghost var ram1 := ram;
      psp := psp - FRAME;
      ram := Store(ram, psp, sw);
      assert Load(ram, psp + FRAME) == Load(ram1, psp + FRAME);
    }

    /** `task_load_context`, then exception return: the context whose frames start at the stack pointer becomes live. */
    method PopContext(ghost c: Context)
      requires FrameAt(ram, c) && psp == c.psp - 2 * FRAME
      modifies `psp, `hw, `sw
      ensures psp == c.psp && hw == c.hw && sw == c.sw
    {
      sw := Load(ram, psp);
      psp := psp + FRAME;
      hw := Load(ram, psp);
      psp := psp + FRAME;
    }

    /** `task_root_interrupt_call`; true when `tid` is not the current one. */
    method RootInterruptCall(tid: nat, h: Handler) returns (other: bool)
      requires tid < |used| == |sp| && |h.args| == 4 && psp <= |ram| && (tid == current ==> FRAME <= psp)
      requires tid != current && used[tid] ==> 2 * FRAME <= sp[tid] <= |ram|
      modifies `ram, `psp, `sp
      ensures other <==> tid != current
      ensures !used[tid] ==> ram == old(ram) && psp == old(psp) && sp == old(sp)
      ensures used[tid] && !other ==>
        psp == old(psp) - FRAME && sp == old(sp) && ram == Store(old(ram), psp, HandlerFrame(h, restore))
      ensures used[tid] && other ==>
        && psp == old(psp) && sp == old(sp)[tid := old(sp[tid]) - 2 * FRAME]
        && ram == Store(old(ram), old(sp[tid]) - FRAME, HandlerFrame(h, restore))
    {
      if used[tid] {
        var frame;
        if tid == current {
          psp := psp - FRAME;
          frame := psp;
        } else {
          frame := sp[tid] - FRAME;
          sp := sp[tid := sp[tid] - (FRAME + FRAME)];
        }
        ram := Store(ram, frame, HandlerFrame(h, restore));
      }
      return tid != current;
    }

    /**
     `task_svcall_interrupt` on the current task: the saved context stays on the stack under the handler. If the entry
     of the current task is not in use there is no handler, and what was saved first is taken for the hardware frame.
     */
    method SvcallInterruptCurrent(h: Handler)
      requires Valid() && |h.args| == 4 && regions.low[current] <= psp - 3 * FRAME
      modifies this
      ensures Valid() && Does(regions, restore, old(State()), State(), Interrupting(current, h))
    {
      ghost var m := State();
      Room(regions, m, current);
      PushContext();
      ghost var ram1 := ram;
      assert Pushed(m, ram1);
      var other := RootInterruptCall(current, h);
      hw := Load(ram, psp);
      psp := psp + FRAME;
      if used[current] {
        stacked := stacked[current := stacked[current] + [Live(m)]];
        SelfInserted(regions, m, ram1, HandlerFrame(h, restore), State());
        FrameEnters(h, restore);
        GrowsDoes(regions, restore, m, State(), current, Live(State()), h);
      } else {
        WorkOk(regions, m, State());
      }
    }

    /** The live context saved, and the frame of a handler put on the stack of another task in use. */
    method SaveAndInsert(tid: nat, h: Handler)
      requires Valid() && |h.args| == 4 && regions.low[current] <= psp - 2 * FRAME && tid < |sp| && tid != current
      requires used[tid] && regions.low[tid] <= sp[tid] - 2 * FRAME
      modifies `ram, `psp, `sp, `stacked
      ensures psp == old(psp) - 2 * FRAME && FrameAt(ram, old(Live(State())))
      ensures var m' := State().(psp := old(psp));
        MachineOk(regions, m') && Does(regions, restore, old(State()), m', Interrupting(tid, h))
    {
      ghost var m := State();
      Room(regions, m, current);
      Room(regions, m, tid);
      PushContext();
      ghost var ram1 := ram;
      assert Pushed(m, ram1);
      var other := RootInterruptCall(tid, h);
      ghost var c := Context(m.sp[tid], HandlerFrame(h, restore), Load(ram, m.sp[tid] - 2 * FRAME));
      stacked := stacked[tid := stacked[tid] + [c]];
      OtherDoes(regions, restore, m, ram1, tid, h, c, State().(psp := m.psp));
    }

    /** The live context saved, and nothing inserted for a free entry. */
    method SaveOnly(tid: nat, h: Handler)
      requires Valid() && |h.args| == 4 && regions.low[current] <= psp - 2 * FRAME && tid < |sp| && tid != current
      requires !used[tid]
      modifies `ram, `psp, `sp
      ensures psp == old(psp) - 2 * FRAME && FrameAt(ram, old(Live(State())))
      ensures var m' := State().(psp := old(psp));
        MachineOk(regions, m') && Does(regions, restore, old(State()), m', Interrupting(tid, h))
    {
      ghost var m := State();
      Room(regions, m, current);
      PushContext();
      assert Pushed(m, ram);
      NoneDoes(regions, restore, m, ram, tid, h);
      var other := RootInterruptCall(tid, h);
      assert State().(psp := m.psp) == m.(ram := ram);
    }

    /** `task_svcall_interrupt` on another task: the current context is loaded back. */
    method SvcallInterruptOther(tid: nat, h: Handler)
      requires Valid() && |h.args| == 4 && regions.low[current] <= psp - 2 * FRAME && tid < |sp| && tid != current
      requires used[tid] ==> regions.low[tid] <= sp[tid] - 2 * FRAME
      modifies this
      ensures Valid() && Does(regions, restore, old(State()), State(), Interrupting(tid, h))
    {
      ghost var m := State();
      if used[tid] {
        SaveAndInsert(tid, h);
      } else {
        SaveOnly(tid, h);
      }
      ghost var m' := State().(psp := m.psp);
      PopContext(Live(m));
      assert State() == m';
    }

    /** `task_interrupt`: the handler becomes the innermost context of its task. */
    method TaskInterrupt(tid: nat, h: Handler) returns (result: int)
      requires Valid() && Can(regions, PlanOf(State()), Interrupting(tid, h))
      modifies this
      ensures Valid() && Does(regions, restore, old(State()), State(), Interrupting(tid, h))
      ensures result == if tid < |sp| then 0 else -1
    {
      PlanSays(regions, State());
      result := -1;
      if tid < |sp| {
        if tid == current {
          SvcallInterruptCurrent(h);
        } else {
          SvcallInterruptOther(tid, h);
        }
        result := 0;
      }
    }

    /** `task_restore`, called when a handler has returned: the interrupted context is live again. */
    method TaskRestore()
      requires Valid() && Can(regions, PlanOf(State()), Restoring)
      modifies this
      ensures Valid() && Does(regions, restore, old(State()), State(), Restoring)
    {
      ghost var m := State();
      Room(regions, m, current);
      PlanSays(regions, m);
      ghost var cs := stacked[current];
      ghost var top := cs[|cs| - 1];
      psp := psp - FRAME;
      ram := Store(ram, psp, hw);
      psp := psp + FRAME;
      WorkOk(regions, m, m.(ram := ram));
      assert TaskOk(regions, m.(ram := ram), current);
      PopContext(top);
      stacked := stacked[current := cs[..|cs| - 1]];
      RestoreDoes(regions, restore, m, ram, top, State());
    }

    /** The first part of a switch: the live context is stacked, and its stack pointer put in the table. */
    method SaveTask()
      requires Valid() && regions.low[current] <= psp - 2 * FRAME
      modifies `ram, `psp, `sp, `stacked
      ensures Layout(regions, State()) && WritesOn(regions, old(State()), State(), current, current)
      ensures forall t :: 0 <= t < |sp| ==>
        stacked[t] == old(Chain(State(), t)) && (old(Alive(State(), t)) ==> Saved(regions, State(), t))
    {
      ghost var m := State();
      Room(regions, m, current);
      PushContext();
      sp := sp[current := psp];
      stacked := stacked[current := stacked[current] + [Live(m)]];
      SaveOk(regions, m, m.(ram := ram, sp := sp, stacked := stacked));
      ghost var m1 := m.(ram := ram, sp := sp, stacked := stacked);
      forall t | 0 <= t < |sp| && Alive(m, t) ensures Saved(regions, State(), t) {
        assert Saved(regions, m1, t);
      }
    }

    /** The second part: the innermost context of the chosen task is loaded. */
    method ResumeTask(next: nat)
      requires Layout(regions, State()) && next < |sp| && Saved(regions, State(), next)
      requires forall t :: 0 <= t < |sp| && used[t] ==> Saved(regions, State(), t)
      modifies `current, `psp, `hw, `sw, `stacked
      ensures Valid() && current == next
      ensures |stacked| == |old(stacked)| && forall t :: 0 <= t < |sp| ==> Chain(State(), t) == old(stacked)[t]
    {
      ghost var m1 := State();
      ghost var cs := stacked[next];
      StackedBound(ram, cs, regions.low[next], regions.high[next]);
      current := next;
      psp := sp[next];
      PopContext(cs[|cs| - 1]);
      stacked := stacked[next := cs[..|cs| - 1]];
      ResumeOk(regions, m1, State(), next);
    }

    /** `switch_contexts`: the live context is stacked and another task's becomes live. */
    method SwitchTo(next: nat)
      requires Valid() && Can(regions, PlanOf(State()), Switching(next))
      modifies this
      ensures Valid() && Does(regions, restore, old(State()), State(), Switching(next))
    {
      ghost var m := State();
      PlanSays(regions, m);
      SaveTask();
      ghost var m1 := State();
      ResumeTask(next);
      SwitchDoes(regions, restore, m, m1, State());
    }

    method Execute(cmd: Command)
      requires Valid() && Can(regions, PlanOf(State()), cmd)
      modifies this
      ensures Valid() && Does(regions, restore, old(State()), State(), cmd)
    {
      match cmd
      case Interrupting(tid, h) => var result := TaskInterrupt(tid, h);
      case Computing(writes, c) => Work(writes, c);
      case Restoring => TaskRestore();
      case Switching(next) => SwitchTo(next);
      case Starting(tid, frame) => StartTask(tid, frame);
      case Deleting(tid) => DeleteTask(tid);
    }

    /** Any commands that can be carried out, one after the other, with the states in between. */
    method ExecuteAll(cmds: seq<Command>) returns (ghost ms: seq<Machine>)
      requires Valid() && CanRun(regions, PlanOf(State()), cmds)
      modifies this
      ensures IsRun(regions, restore, ms, cmds) && ms[0] == old(State()) && ms[|cmds|] == State()
      decreases |cmds|
    {
      ms := [State()];
      if cmds != [] {
        ghost var m := State();
        Execute(cmds[0]);
        DoesPlanned(regions, restore, m, State(), cmds[0]);
        ghost var later := ExecuteAll(cmds[1..]);
        ms := [m] + later;
      }
    }
  }
}
