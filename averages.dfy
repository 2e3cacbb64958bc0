/** Averages of real values, kept apart so that the multiplications and
    divisions they need stay out of the proofs about posts. */
module Averages {

  /** A total divided by a positive count. */
  function Average(total: real, n: nat): real
    requires n > 0
  {
    total / (n as real)
  }

  /** x added to itself n times. */
  function Repeat(x: real, n: nat): real
  {
    if n == 0 then 0.0 else x + Repeat(x, n - 1)
  }

  lemma {:induction false} RepeatIsProduct(x: real, n: nat)
    ensures Repeat(x, n) == x * (n as real)
  {
    if n > 0 {
      RepeatIsProduct(x, n - 1);
      assert x * (n as real) == x * ((n - 1) as real) + x;
    }
  }

  /** The average, added once per counted value, gives back the total. */
  lemma AverageRepeated(total: real, n: nat)
    requires n > 0
    ensures Repeat(Average(total, n), n) == total
  {
    RepeatIsProduct(Average(total, n), n);
    AverageTimesCount(total, n);
  }

  lemma AverageTimesCount(total: real, n: nat)
    requires n > 0
    ensures Average(total, n) * (n as real) == total
  {
  }

  /** An average of n values that each lie in [lo, hi] lies in [lo, hi]. */
  lemma AverageWithin(total: real, n: nat, lo: real, hi: real)
    requires n > 0 && Repeat(lo, n) <= total <= Repeat(hi, n)
    ensures lo <= Average(total, n) <= hi
  {
    RepeatIsProduct(lo, n);
    RepeatIsProduct(hi, n);
    DivideWithin(total, n as real, lo, hi);
  }

  lemma DivideWithin(total: real, c: real, lo: real, hi: real)
    requires c > 0.0 && lo * c <= total <= hi * c
    ensures lo <= total / c <= hi
  {
  }
}
