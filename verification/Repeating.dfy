/** A step repeated until it does not complete at once, as the switchboard's pump repeats its transactions. */
module Repeating {

  datatype Outcome = Moved | Waits | Fails(code: int)

  /** Up to `left` steps, until one does not move; also how many there were. */
  function Repeat<T>(step: T -> (T, Outcome), x: T, left: nat): (T, Outcome, nat)
    requires left > 0
    decreases left
  {
    var (y, o) := step(x);
    if o.Moved? && left > 1 then
      var (z, p, n) := Repeat(step, y, left - 1);
      (z, p, n + 1)
    else (y, o, 1)
  }

  /** The first `n` steps all move. */
  predicate Moves<T>(step: T -> (T, Outcome), x: T, n: nat)
    decreases n
  {
    n == 0 || (step(x).1.Moved? && Moves(step, step(x).0, n - 1))
  }

  function After<T>(step: T -> (T, Outcome), x: T, n: nat): T
    decreases n
  {
    if n == 0 then x else After(step, step(x).0, n - 1)
  }

  /** After `n` steps that move comes one that does not. */
  predicate Stalls<T>(step: T -> (T, Outcome), x: T, n: nat)
  {
    Moves(step, x, n) && !step(After(step, x, n)).1.Moved?
  }

  /** When all steps before the last one allowed move, all are made. */
  lemma {:induction false} RepeatMoves<T>(step: T -> (T, Outcome), x: T, left: nat)
    requires left > 0 && Moves(step, x, left - 1)
    ensures var (y, o) := step(After(step, x, left - 1)); Repeat(step, x, left) == (y, o, left)
    decreases left
  {
    if left == 1 {
    } else {
      RepeatMoves(step, step(x).0, left - 1);
    }
  }

  /** Otherwise it ends with the first that does not. */
  lemma {:induction false} RepeatStalls<T>(step: T -> (T, Outcome), x: T, left: nat, m: nat)
    requires m < left && Stalls(step, x, m)
    ensures var (y, o) := step(After(step, x, m)); Repeat(step, x, left) == (y, o, m + 1)
    decreases left
  {
    if m == 0 {
    } else {
      RepeatStalls(step, step(x).0, left - 1, m - 1);
    }
  }

  lemma {:induction false} MovesOrStalls<T>(step: T -> (T, Outcome), x: T, n: nat) returns (m: nat)
    ensures Moves(step, x, n) || (m < n && Stalls(step, x, m))
    decreases n
  {
    if n == 0 || !step(x).1.Moved? {
      m := 0;
    } else {
      m := MovesOrStalls(step, step(x).0, n - 1);
      m := m + 1;
    }
  }

  /** How it ends: `m` steps that move and one more, which stalls or is the last allowed. */
  lemma RepeatEnds<T>(step: T -> (T, Outcome), x: T, left: nat) returns (m: nat)
    requires left > 0
    ensures m < left && Moves(step, x, m) && (Moves(step, x, left - 1) <==> m + 1 == left)
    ensures m + 1 < left ==> Stalls(step, x, m)
    ensures var (y, o) := step(After(step, x, m)); Repeat(step, x, left) == (y, o, m + 1)
  {
    m := MovesOrStalls(step, x, left - 1);
    if Moves(step, x, left - 1) {
      m := left - 1;
      RepeatMoves(step, x, left);
    } else {
      RepeatStalls(step, x, left, m);
    }
  }

  /** Only one number of steps before the stall is possible. */
  lemma {:induction false} StallsOnce<T>(step: T -> (T, Outcome), x: T, m: nat, n: nat)
    requires Stalls(step, x, m)
    ensures Moves(step, x, n) <==> n <= m
    decreases n
  {
    if n == 0 || m == 0 {
    } else {
      StallsOnce(step, step(x).0, m - 1, n - 1);
    }
  }
}
