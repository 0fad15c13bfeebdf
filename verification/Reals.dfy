/** Real multiplication and division, kept apart so that proofs elsewhere need not open products. */
module Reals {

  function Times(a: real, b: real): real {
    a * b
  }

  lemma DivMonotone(a: real, b: real, d: real)
    requires a <= b && d > 0.0
    ensures a / d <= b / d
    ensures a < b ==> a / d < b / d
  {
  }

  lemma QuotientBounds(sum: real, d: real, lo: real, hi: real)
    requires d > 0.0 && Times(lo, d) <= sum <= Times(hi, d)
    ensures lo <= sum / d <= hi
  {
  }

  lemma TimesOneMore(x: real, n: nat)
    ensures Times(x, (n + 1) as real) == Times(x, n as real) + x
    ensures Times(x, 0.0) == 0.0
  {
  }
}
