/** Relative change rates, and the one sequential fold every history in the manager is meant to compute. */
module Rates {
  import opened Reals
  import opened Words

  /** The change rate stored for a floating-point metric. */
  function Rate(now: real, last: real): real {
    if last == 0.0 then 0.0 else (now - last) / last
  }

  /** The change rate stored for an unsigned 64-bit counter. */
  function RateU64(now: nat, last: nat): real {
    if last == 0 then 0.0 else (Sub64(now, last) as real) / (last as real)
  }

  /** One stored sample: its floating-point columns and its unsigned columns.  A column that is absent is zero,
      so FRESH is a value-initialised history struct. */
  datatype Sample = Sample(f: seq<real>, u: seq<nat>)

  /** The change-rate columns written beside a sample. */
  datatype RateRow = RateRow(f: seq<real>, u: seq<real>)

  const FRESH := Sample([], [])

  function FloatAt(s: Sample, k: nat): real {
    if k < |s.f| then s.f[k] else 0.0
  }

  function CounterAt(s: Sample, k: nat): nat {
    if k < |s.u| then s.u[k] else 0
  }

  /** The rate columns computed from a sample and the one stored before it. */
  function RatesOf(curr: Sample, last: Sample): RateRow {
    RateRow(seq(|curr.f|, k requires 0 <= k < |curr.f| => Rate(curr.f[k], FloatAt(last, k))),
            seq(|curr.u|, k requires 0 <= k < |curr.u| => RateU64(curr.u[k], CounterAt(last, k))))
  }

  /** The sample that precedes the k-th one of a history. */
  function Before(xs: seq<Sample>, k: nat): Sample
    requires k <= |xs|
  {
    if k == 0 then FRESH else xs[k - 1]
  }

  /** The rates of a history: every sample against its predecessor, the first against zeros. */
  function Chain(xs: seq<Sample>): (rs: seq<RateRow>)
    ensures |rs| == |xs|
  {
    seq(|xs|, k requires 0 <= k < |xs| => RatesOf(xs[k], Before(xs, k)))
  }

  /** One host alone, one sample at a time: emit rate(curr, last), then last := curr. */
  function FoldRates(last: Sample, xs: seq<Sample>): seq<RateRow>
    decreases xs
  {
    if xs == [] then [] else [RatesOf(xs[0], last)] + FoldRates(xs[0], xs[1..])
  }

  lemma {:induction false} FoldAt(last: Sample, xs: seq<Sample>, k: nat)
    requires k < |xs|
    ensures |FoldRates(last, xs)| == |xs|
    ensures FoldRates(last, xs)[k] == RatesOf(xs[k], if k == 0 then last else xs[k - 1])
    decreases xs
  {
    if |xs| > 1 {
      FoldAt(xs[0], xs[1..], if k == 0 then 0 else k - 1);
    }
  }

  /** Chain is that fold started from zeros. */
  lemma ChainIsFold(xs: seq<Sample>)
    ensures Chain(xs) == FoldRates(FRESH, xs)
  {
    if xs != [] {
      FoldAt(FRESH, xs, 0);
    }
    forall k | 0 <= k < |xs|
      ensures |FoldRates(FRESH, xs)| == |xs| && Chain(xs)[k] == FoldRates(FRESH, xs)[k]
    {
      FoldAt(FRESH, xs, k);
    }
  }

  /** A longer history extends the rates of a shorter one and changes none of them. */
  lemma ChainPrefix(xs: seq<Sample>, ys: seq<Sample>)
    requires xs <= ys
    ensures Chain(xs) <= Chain(ys)
  {
  }

  lemma ChainSnoc(xs: seq<Sample>, x: Sample)
    ensures Chain(xs + [x]) == Chain(xs) + [RatesOf(x, Before(xs, |xs|))]
  {
  }

  /** The growth factor a rate row stores for column k. */
  function Factor(r: RateRow, k: nat): real {
    1.0 + (if k < |r.f| then r.f[k] else 0.0)
  }

  /** The product of the growth factors stored for column k. */
  function Growth(rs: seq<RateRow>, k: nat): real {
    if rs == [] then 1.0 else Times(Growth(rs[..|rs| - 1], k), Factor(rs[|rs| - 1], k))
  }

  /** The growth factors stored for column k multiply to the last value divided by the first. */
  ghost predicate Compounds(xs: seq<Sample>, k: nat)
    requires xs != [] && k < |xs[0].f| && k < |xs[|xs| - 1].f|
  {
    Times(Growth(Chain(xs), k), xs[0].f[k]) == xs[|xs| - 1].f[k]
  }

  /** Rates compound back to the values: over a history whose k-th column is never zero the product of
      (1 + rate) is the last value divided by the first. */
  lemma RatesCompound(xs: seq<Sample>, k: nat)
    requires xs != []
    requires forall x | x in xs :: k < |x.f| && x.f[k] != 0.0
    ensures Growth(Chain(xs), k) == xs[|xs| - 1].f[k] / xs[0].f[k]
  {
    GrowthCompounds(xs, k);
    assert xs[0] in xs;
    QuotientOf(Growth(Chain(xs), k), xs[0].f[k], xs[|xs| - 1].f[k]);
  }

  lemma QuotientOf(g: real, a: real, b: real)
    requires a != 0.0 && Times(g, a) == b
    ensures g == b / a
  {
  }

  lemma {:induction false} GrowthCompounds(xs: seq<Sample>, k: nat)
    requires xs != []
    requires forall x | x in xs :: k < |x.f| && x.f[k] != 0.0
    ensures xs[0] in xs && xs[|xs| - 1] in xs && Compounds(xs, k)
  {
    var init, x := xs[..|xs| - 1], xs[|xs| - 1];
    assert init + [x] == xs && x in xs;
    if init == [] {
      GrowthNext(init, x, k);
    } else {
      assert forall y | y in init :: y in xs;
      GrowthCompounds(init, k);
      CompoundsNext(init, x, k);
    }
  }

  lemma CompoundsNext(init: seq<Sample>, x: Sample, k: nat)
    requires init != [] && k < |x.f| && k < |init[0].f| && k < |init[|init| - 1].f|
    requires init[|init| - 1].f[k] != 0.0 && Compounds(init, k)
    ensures Compounds(init + [x], k)
  {
    GrowthNext(init, x, k);
    CompoundStep(init[0].f[k], init[|init| - 1].f[k], x.f[k], Growth(Chain(init), k));
  }

  lemma GrowthNext(init: seq<Sample>, x: Sample, k: nat)
    requires k < |x.f|
    ensures Growth(Chain(init + [x]), k) ==
            Times(Growth(Chain(init), k), 1.0 + Rate(x.f[k], FloatAt(Before(init, |init|), k)))
  {
    var last := Before(init, |init|);
    ChainSnoc(init, x);
    GrowthSnoc(Chain(init), RatesOf(x, last), k);
    FactorOf(x, last, k);
  }

  lemma FactorOf(curr: Sample, last: Sample, k: nat)
    requires k < |curr.f|
    ensures Factor(RatesOf(curr, last), k) == 1.0 + Rate(curr.f[k], FloatAt(last, k))
  {
  }

  lemma GrowthSnoc(rs: seq<RateRow>, r: RateRow, k: nat)
    ensures Growth(rs + [r], k) == Times(Growth(rs, k), Factor(r, k))
  {
  }

  lemma CompoundStep(a: real, b: real, z: real, g: real)
    requires b != 0.0 && Times(g, a) == b
    ensures Times(Times(g, 1.0 + Rate(z, b)), a) == z
  {
    var q := 1.0 + (z - b) / b;
    assert q * b == z;
    assert (g * q) * a == (g * a) * q;
  }

  /** Every rate column is computed from its own column of the two samples, in order. */
  lemma RateColumns(curr: Sample, last: Sample)
    ensures |RatesOf(curr, last).f| == |curr.f| && |RatesOf(curr, last).u| == |curr.u|
    ensures forall k | 0 <= k < |curr.f| && FloatAt(last, k) == 0.0 :: RatesOf(curr, last).f[k] == 0.0
    ensures forall k | 0 <= k < |curr.u| && CounterAt(last, k) == 0 :: RatesOf(curr, last).u[k] == 0.0
    ensures forall k | 0 <= k < |curr.f| ::
              (1.0 + RatesOf(curr, last).f[k]) * FloatAt(last, k) == if FloatAt(last, k) == 0.0 then 0.0 else curr.f[k]
    ensures forall k | 0 <= k < |curr.u| ::
              RatesOf(curr, last).u[k] * CounterAt(last, k) as real
              == if CounterAt(last, k) == 0 then 0.0 else Sub64(curr.u[k], CounterAt(last, k)) as real
  {
  }

  /** A 64-bit counter's rate is its relative change exactly when the counter did not fall (or started at zero):
      a fall is subtracted without sign and shows up as a rise. */
  lemma CounterRateExact(now: nat, last: nat)
    requires now < TWO64 && last < TWO64
    ensures RateU64(now, last) == Rate(now as real, last as real) <==> (last == 0 || last <= now)
    ensures RateU64(now, last) >= 0.0
  {
  }
}
