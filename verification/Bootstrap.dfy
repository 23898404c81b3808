/** Interpolated percentiles and the paired bootstrap of `interstellar/stats.py`. The random
    generator is an arbitrary table of draws. */
module Bootstrap {
  import opened Common
  import opened Resamples
  import SignFlip

  datatype Note = NoNote | InsufficientSamples | LowConfidence | NoDecidedPairs | InsufficientDecidedPairs

  datatype Boot = Boot(mean: Option<real>, lo: Option<real>, hi: Option<real>, level: real, n: nat, note: Note, distinct: Option<nat>)

  const CI_LEVEL := 0.95
  const MIN_SAMPLES_FOR_CI := 10
  const LOW_CONFIDENCE_CI := 20

  // --- percentiles -------------------------------------------------------------

  predicate LeqReal(a: real, b: real) { a <= b }

  predicate Ascending(v: seq<real>) { SortedBy(LeqReal, v) }

  function SortReals(v: seq<real>): (r: seq<real>)
    ensures Ascending(r) && multiset(r) == multiset(v) && |r| == |v|
  {
    SortSorts(LeqReal, v);
    Sort(LeqReal, v)
  }

  function Ceiling(k: real): int { -((-k).Floor) }

  /** Linear interpolation at the fractional index `k`. */
  function Interpolate(v: seq<real>, k: real): real
    requires 0.0 <= k <= (|v| - 1) as real
  {
    var f, c := k.Floor, Ceiling(k);
    if f == c then v[f]
    else v[f] * (c as real - k) + v[c] * (k - f as real)
  }

  function Percentile(v: seq<real>, pct: real): Option<real>
    requires 0.0 <= pct <= 100.0
  {
    if v == [] then None
    else if |v| == 1 then Some(v[0])
    else Some(Interpolate(v, FractionalIndex((|v| - 1) as real, pct / 100.0)))
  }

  function FractionalIndex(last: real, q: real): (k: real)
    requires last >= 0.0 && 0.0 <= q <= 1.0
    ensures 0.0 <= k <= last
  {
    Nonnegative(last, q);
    Nonnegative(last, 1.0 - q);
    last * q
  }

  lemma Nonnegative(x: real, y: real)
    requires x >= 0.0 && y >= 0.0
    ensures x * y >= 0.0
  {
  }

  /** A weighted mean of two ordered values lies between them. */
  lemma {:induction false} WeightedWithin(a: real, b: real, u: real, t: real)
    requires a <= b && u + t == 1.0 && u >= 0.0 && t >= 0.0
    ensures a <= a * u + b * t <= b
  {
    Nonnegative(b - a, t);
    Nonnegative(b - a, u);
    Whole(a, u, t);
    Whole(b, u, t);
    assert (b - a) * t == b * t - a * t && (b - a) * u == b * u - a * u;
  }

  /** The interpolated value lies between the two neighbours it mixes. */
  lemma {:induction false} InterpolateWithin(v: seq<real>, k: real)
    requires Ascending(v) && 0.0 <= k <= (|v| - 1) as real
    ensures v[k.Floor] <= Interpolate(v, k) <= v[Ceiling(k)]
  {
    var f, c := k.Floor, Ceiling(k);
    if f != c {
      assert c == f + 1;
      assert LeqReal(v[f], v[c]);
      WeightedWithin(v[f], v[c], c as real - k, k - f as real);
    }
  }

  lemma Whole(x: real, u: real, t: real)
    requires u + t == 1.0
    ensures x * u + x * t == x
  {
    assert x * u + x * t == x * (u + t);
  }

  /** More weight on the larger value gives a larger mean. */
  lemma {:induction false} WeightedMonotone(a: real, b: real, u: real, s: real, v: real, t: real)
    requires a <= b && u + s == 1.0 && v + t == 1.0 && s <= t
    ensures a * u + b * s <= a * v + b * t
  {
    Whole(a, u, s);
    Whole(a, v, t);
    Nonnegative(b - a, t - s);
    assert (b - a) * (t - s) == b * t - b * s - (a * t - a * s);
  }

  lemma {:induction false} InterpolateMonotone(v: seq<real>, j: real, k: real)
    requires Ascending(v) && 0.0 <= j <= k <= (|v| - 1) as real
    ensures Interpolate(v, j) <= Interpolate(v, k)
  {
    InterpolateWithin(v, j);
    InterpolateWithin(v, k);
    if Ceiling(j) <= k.Floor {
      assert LeqReal(v[Ceiling(j)], v[k.Floor]) || Ceiling(j) == k.Floor;
    } else {
      var f := j.Floor;
      assert f == k.Floor && Ceiling(j) == f + 1;
      if Ceiling(k) == f + 1 {
        assert LeqReal(v[f], v[f + 1]);
        WeightedMonotone(v[f], v[f + 1], (f + 1) as real - j, j - f as real, (f + 1) as real - k, k - f as real);
      }
    }
  }

  lemma IndexMonotone(last: real, p: real, q: real)
    requires last >= 0.0 && 0.0 <= p <= q <= 1.0
    ensures FractionalIndex(last, p) <= FractionalIndex(last, q)
  {
    Nonnegative(last, q - p);
  }

  /** A percentile is within any bounds on the sample, and grows with the percentage. */
  lemma {:induction false} PercentileOrder(v: seq<real>, p: real, q: real, a: real, b: real)
    requires v != [] && Ascending(v) && 0.0 <= p <= q <= 100.0
    requires forall x | x in v :: a <= x <= b
    ensures a <= Percentile(v, p).value <= Percentile(v, q).value <= b
  {
    assert v[0] in v;
    if |v| > 1 {
      var n := (|v| - 1) as real;
      var j, k := FractionalIndex(n, p / 100.0), FractionalIndex(n, q / 100.0);
      IndexMonotone(n, p / 100.0, q / 100.0);
      InterpolateMonotone(v, j, k);
      InterpolateWithin(v, j);
      InterpolateWithin(v, k);
      assert v[j.Floor] in v && v[Ceiling(k)] in v;
    }
  }

  /** The piecewise linear function through the points `(i, v[i])`. */
  function LinearAt(v: seq<real>, x: real): real
    requires 0.0 <= x <= (|v| - 1) as real
  {
    var i := x.Floor;
    if i == |v| - 1 then v[i] else v[i] + (x - i as real) * (v[i + 1] - v[i])
  }

  lemma SlopeForm(a: real, b: real, u: real, t: real)
    requires u + t == 1.0
    ensures a * u + b * t == a + t * (b - a)
  {
    Whole(a, u, t);
    assert t * (b - a) == b * t - a * t;
  }

  lemma {:induction false} InterpolateLinear(v: seq<real>, k: real)
    requires 0.0 <= k <= (|v| - 1) as real
    ensures Interpolate(v, k) == LinearAt(v, k)
  {
    var f := k.Floor;
    if Ceiling(k) == f {
      assert k == f as real;
      assert f < |v| - 1 ==> (k - f as real) * (v[f + 1] - v[f]) == 0.0;
    } else {
      assert Ceiling(k) == f + 1 && f < |v| - 1;
      SlopeForm(v[f], v[f + 1], (f + 1) as real - k, k - f as real);
    }
  }

  /** The share of the way from the first index to the last. */
  function Along(v: seq<real>, pct: real): (x: real)
    requires v != [] && 0.0 <= pct <= 100.0
    ensures 0.0 <= x <= (|v| - 1) as real
  {
    FractionalIndex((|v| - 1) as real, pct / 100.0)
  }

  /** A percentile is read off the line through the sample, at its share of the index range. */
  lemma {:induction false} PercentileIsLinear(v: seq<real>, pct: real)
    requires v != [] && 0.0 <= pct <= 100.0
    ensures Along(v, pct) == (|v| - 1) as real * (pct / 100.0) && Percentile(v, pct) == Some(LinearAt(v, Along(v, pct)))
  {
    if |v| > 1 { InterpolateLinear(v, Along(v, pct)); } else { assert Along(v, pct) == 0.0 * (pct / 100.0) == 0.0; }
  }

  // --- resampling ----------------------------------------------------------------

  /** `rng(n)` is the table of index draws a seeded generator makes for `n` items. */
  ghost predicate ValidRng(rng: nat -> seq<seq<nat>>) {
    forall n: nat :: ValidDraws(n, rng(n))
  }

  ghost predicate ValidDraws(n: nat, draws: seq<seq<nat>>) {
    forall k | 0 <= k < |draws| :: ValidDraw(n, draws[k])
  }

  predicate ValidDraw(n: nat, draw: seq<nat>) {
    |draw| == n && forall i | 0 <= i < |draw| :: draw[i] < n
  }

  function Pick<T>(items: seq<T>, draw: seq<nat>): (r: seq<T>)
    requires ValidDraw(|items|, draw)
    ensures |r| == |items| && forall i | 0 <= i < |items| :: r[i] == items[draw[i]]
  {
    seq(|draw|, i requires 0 <= i < |draw| => items[draw[i]])
  }

  function ResampleMeans(deltas: seq<real>, draws: seq<seq<nat>>): (r: seq<real>)
    requires deltas != [] && ValidDraws(|deltas|, draws)
    ensures |r| == |draws| && forall k | 0 <= k < |draws| :: r[k] == SignFlip.Mean(Pick(deltas, draws[k]))
  {
    if draws == [] then []
    else
      var k := |draws| - 1;
      ResampleMeans(deltas, draws[..k]) + [SignFlip.Mean(Pick(deltas, draws[k]))]
  }

  /** The interval a paired bootstrap reports, sample-size gating included. */
  function BootstrapSpec(deltas: seq<real>, draws: seq<seq<nat>>): Boot
    requires ValidDraws(|deltas|, draws)
  {
    var n := |deltas|;
    if n == 0 then Boot(None, None, None, CI_LEVEL, 0, InsufficientSamples, None)
    else if n < MIN_SAMPLES_FOR_CI then Boot(Some(SignFlip.Mean(deltas)), None, None, CI_LEVEL, n, InsufficientSamples, DistinctResamples(n))
    else
      var means := SortReals(ResampleMeans(deltas, draws));
      Boot(Some(SignFlip.Mean(deltas)), Percentile(means, 2.5), Percentile(means, 97.5), CI_LEVEL, n,
           if n < LOW_CONFIDENCE_CI then LowConfidence else NoNote, DistinctResamples(n))
  }

  method PairedBootstrap(deltas: seq<real>, draws: seq<seq<nat>>) returns (r: Boot)
    requires ValidDraws(|deltas|, draws)
    ensures r == BootstrapSpec(deltas, draws)
  {
    var n := |deltas|;
    if n == 0 { return Boot(None, None, None, CI_LEVEL, 0, InsufficientSamples, None); }
    var mean := SignFlip.Mean(deltas);
    if n < MIN_SAMPLES_FOR_CI { return Boot(Some(mean), None, None, CI_LEVEL, n, InsufficientSamples, DistinctResamples(n)); }
    var means := [];
    for k := 0 to |draws|
      invariant means == ResampleMeans(deltas, draws[..k])
    {
      assert draws[..k + 1][..k] == draws[..k];
      var resample := [];
      for i := 0 to n
        invariant resample == Pick(deltas, draws[k])[..i]
      {
        resample := resample + [deltas[draws[k][i]]];
      }
      assert resample == Pick(deltas, draws[k]);
      means := means + [SignFlip.Mean(resample)];
    }
    assert draws[..|draws|] == draws;
    means := SortReals(means);
    r := Boot(Some(mean), Percentile(means, 2.5), Percentile(means, 97.5), CI_LEVEL, n,
              if n < LOW_CONFIDENCE_CI then LowConfidence else NoNote, DistinctResamples(n));
  }

  // --- the interval stays inside the data -------------------------------------------

  ghost predicate Within(v: seq<real>, a: real, b: real) { forall x | x in v :: a <= x <= b }

  lemma {:induction false} SumWithin(d: seq<real>, a: real, b: real)
    requires Within(d, a, b)
    ensures |d| as real * a <= SignFlip.Sum(d) <= |d| as real * b
  {
    hide Within;
    if d != [] {
      var k := |d| - 1;
      WithinInit(d, a, b);
      SumWithin(d[..k], a, b);
      OneMore(k, a);
      OneMore(k, b);
    }
  }

  lemma WithinInit(d: seq<real>, a: real, b: real)
    requires d != [] && Within(d, a, b)
    ensures Within(d[..|d| - 1], a, b) && a <= d[|d| - 1] <= b
  {
    assert d[|d| - 1] in d;
    var init := d[..|d| - 1];
    forall x | x in init ensures a <= x <= b { assert x in d; }
  }

  lemma OneMore(k: nat, x: real)
    ensures (k + 1) as real * x == k as real * x + x
  {
    assert (k + 1) as real == k as real + 1.0;
  }

  lemma {:induction false} MeanWithin(d: seq<real>, a: real, b: real)
    requires d != [] && Within(d, a, b)
    ensures a <= SignFlip.Mean(d) <= b
  {
    SumWithin(d, a, b);
    QuotientWithin(SignFlip.Sum(d), |d| as real, a, b);
  }

  lemma QuotientWithin(s: real, n: real, a: real, b: real)
    requires n > 0.0 && n * a <= s <= n * b
    ensures a <= s / n <= b
  {
    var q := s / n;
    assert q * n == s;
    assert n * (q - a) >= 0.0 && n * (b - q) >= 0.0;
  }

  lemma {:induction false} ResamplesWithin(deltas: seq<real>, draws: seq<seq<nat>>, a: real, b: real)
    requires deltas != [] && ValidDraws(|deltas|, draws) && Within(deltas, a, b)
    ensures Within(ResampleMeans(deltas, draws), a, b)
  {
    if draws != [] {
      var k := |draws| - 1;
      ResamplesWithin(deltas, draws[..k], a, b);
      var picked := Pick(deltas, draws[k]);
      forall x | x in picked ensures a <= x <= b {
        var i :| 0 <= i < |picked| && picked[i] == x;
        assert deltas[draws[k][i]] in deltas;
      }
      MeanWithin(picked, a, b);
    }
  }

  lemma SortedWithin(v: seq<real>, a: real, b: real)
    requires Within(v, a, b)
    ensures Within(SortReals(v), a, b)
  {
    forall x | x in SortReals(v) ensures a <= x <= b {
      assert x in multiset(SortReals(v));
      assert x in v;
    }
  }

  /** For every table of draws the reported interval lies inside the range of the deltas, and it
      is reported exactly from ten samples on (given at least one iteration). */
  lemma {:induction false} IntervalWithinData(deltas: seq<real>, draws: seq<seq<nat>>, a: real, b: real)
    requires ValidDraws(|deltas|, draws) && Within(deltas, a, b)
    ensures var r := BootstrapSpec(deltas, draws);
            && (r.lo.Some? <==> r.hi.Some?)
            && (r.lo.Some? <==> |deltas| >= MIN_SAMPLES_FOR_CI && draws != [])
            && (r.lo.Some? ==> a <= r.lo.value <= r.hi.value <= b)
  {
    if |deltas| >= MIN_SAMPLES_FOR_CI && draws != [] {
      var means := ResampleMeans(deltas, draws);
      ResamplesWithin(deltas, draws, a, b);
      SortedWithin(means, a, b);
      PercentileOrder(SortReals(means), 2.5, 97.5, a, b);
    }
  }

  /** A positive lower bound, or a positive mean, needs a positive delta. */
  lemma {:induction false} PositiveNeedsPositive(deltas: seq<real>, draws: seq<seq<nat>>)
    requires ValidDraws(|deltas|, draws)
    requires var r := BootstrapSpec(deltas, draws);
             (r.lo.Some? && r.lo.value > 0.0) || (r.mean.Some? && r.mean.value > 0.0)
    ensures exists i :: 0 <= i < |deltas| && deltas[i] > 0.0
  {
    if forall i | 0 <= i < |deltas| :: deltas[i] <= 0.0 {
      var a := LowerBound(deltas);
      assert Within(deltas, a, 0.0);
      IntervalWithinData(deltas, draws, a, 0.0);
      if deltas != [] { MeanWithin(deltas, a, 0.0); }
    }
  }

  ghost function LowerBound(v: seq<real>): (a: real)
    ensures forall x | x in v :: a <= x
  {
    if v == [] then 0.0
    else
      var a := LowerBound(v[1..]);
      assert forall x | x in v :: x == v[0] || x in v[1..];
      if a <= v[0] then a else v[0]
  }

  /** What a bootstrap reports, field by field. The interval is read off the ascending arrangement of
      the resamples' means, at 2.5 and 97.5 percent. */
  lemma {:induction false} BootstrapReports(deltas: seq<real>, draws: seq<seq<nat>>, sorted: seq<real>)
    requires ValidDraws(|deltas|, draws)
    requires deltas != [] ==> Ascending(sorted) && multiset(sorted) == multiset(ResampleMeans(deltas, draws))
    ensures var r, n := BootstrapSpec(deltas, draws), |deltas|;
            && r.n == n && r.level == 0.95
            && r.mean == (if n == 0 then None else Some(SignFlip.Sum(deltas) / n as real))
            && r.note == (if n < 10 then InsufficientSamples else if n < 20 then LowConfidence else NoNote)
            && r.distinct == DistinctResamples(n)
            && (n < 10 || draws == [] ==> r.lo.None? && r.hi.None?)
            && (n >= 10 && draws != [] ==>
                  && sorted != []
                  && r.lo == Some(LinearAt(sorted, Along(sorted, 2.5))) && r.hi == Some(LinearAt(sorted, Along(sorted, 97.5))))
  {
    hide LinearAt, Along, Interpolate, SortReals;
    if deltas != [] {
      var means := ResampleMeans(deltas, draws);
      SameArrangement(sorted, SortReals(means));
      SameSize(sorted, means);
      if draws != [] {
        PercentileIsLinear(sorted, 2.5);
        PercentileIsLinear(sorted, 97.5);
      }
    }
  }

  lemma SameArrangement(a: seq<real>, b: seq<real>)
    requires Ascending(a) && Ascending(b) && multiset(a) == multiset(b)
    ensures a == b
  {
    SortedUnique(LeqReal, a, b);
  }
}
