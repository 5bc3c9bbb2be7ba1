/** Repeating a step: the runs of a state machine. */
module Iteration {

  function Iterate<T>(step: T -> T, x: T, n: nat): (r: T)
    decreases n
  {
    if n == 0 then x else Iterate(step, step(x), n - 1)
  }

  lemma {:induction false} IterateAdds<T>(step: T -> T, x: T, m: nat, n: nat)
    ensures Iterate(step, x, m + n) == Iterate(step, Iterate(step, x, m), n)
    decreases m
  {
    if m > 0 {
      IterateAdds(step, step(x), m - 1, n);
    }
  }

  /** A state that a step leaves alone is never left. */
  lemma {:induction false} IterateFixed<T>(step: T -> T, x: T, n: nat)
    requires step(x) == x
    ensures Iterate(step, x, n) == x
    decreases n
  {
    if n > 0 {
      IterateFixed(step, x, n - 1);
    }
  }
}
