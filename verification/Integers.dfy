/** Products of integers, kept closed so that the solver meets them only in their laws. */
module Integers {
  function Times(n: int, q: int): int { n * q }

  lemma Distributes(n: int, q: int, q': int)
    ensures Times(n, q + q') == Times(n, q) + Times(n, q') && Times(n, 0) == 0 && Times(n, 1) == n
  {
  }

  lemma {:induction false} AtLeastOnce(n: int, d: int)
    requires n >= 0 && d >= 1
    ensures Times(n, d) >= n
    decreases d
  {
    Distributes(n, d - 1, 1);
    hide Times;
    if d > 1 {
      AtLeastOnce(n, d - 1);
    }
  }
}
