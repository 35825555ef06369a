/** Runs of a deterministic loop over positions, where position 0 means that the loop has ended. */
module Loops {
  ghost function After(next: nat -> nat, pos: nat, n: nat): nat
    decreases n
  {
    if n == 0 || pos == 0 then pos else After(next, next(pos), n - 1)
  }

  lemma {:induction false} TurnsAdd(next: nat -> nat, pos: nat, m: nat, n: nat)
    ensures After(next, pos, m + n) == After(next, After(next, pos, m), n)
    decreases m
  {
    if m > 0 && pos > 0 {
      TurnsAdd(next, next(pos), m - 1, n);
    }
  }

  /** A loop that comes back to where it started after `k` turns never ends. */
  lemma {:induction false} ReturnsRepeat(next: nat -> nat, pos: nat, k: nat, n: nat)
    requires pos > 0 && k > 0 && After(next, pos, k) == pos
    ensures After(next, pos, n) > 0
    decreases n
  {
    if n <= k {
      TurnsAdd(next, pos, n, k - n);
    } else {
      TurnsAdd(next, pos, k, n - k);
      ReturnsRepeat(next, pos, k, n - k);
    }
  }
}
