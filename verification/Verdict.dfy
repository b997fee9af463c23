/**
 * The threshold protocol that judges candidate runs against a baseline. It is written twice in
 * the repository: `classify` in scripts/media-evidence-candidates.py and `verdict` in
 * scripts/media-evidence-lazy.py. Both are modelled over exact reals, with the square root as a
 * parameter, and both are proved equal to one reference that uses neither division nor roots.
 */
module Verdict {
  import opened Basics
  import opened Statistics

  datatype Measure = Unavailable | Value(v: real)

  datatype Judgement = Inconclusive | Improvement | Regression

  datatype Comparison =
    | NotComparable
    | Compared(baselineMedian: real, candidateMedian: real, baselineCv: Option<real>, verdict: Judgement)

  datatype LazyComparison =
    | StatisticsError   // a median of no data
    | ZeroBaseline      // reported as inconclusive
    | Judged(baseline: real, candidate: real, change: real, cv: real, verdict: Judgement)

  ghost predicate IsSquareRoot(sqrt: real -> real) {
    forall x :: x >= 0.0 ==> sqrt(x) >= 0.0 && sqrt(x) * sqrt(x) == x
  }

  function Larger(a: real, b: real): real {
    if a >= b then a else b
  }

  function Values(s: seq<Measure>): (r: seq<real>)
    requires Unavailable !in s
    ensures |r| == |s|
  {
    seq(|s|, i requires 0 <= i < |s| => (assert s[i] in s; s[i].v))
  }

  function Measured(s: seq<real>): (r: seq<Measure>)
    ensures Unavailable !in r && Values(r) == s
  {
    var r := seq(|s|, i requires 0 <= i < |s| => Value(s[i]));
    assert forall m :: m in r ==> m.Value?;
    r
  }

  // The division below is well formed for every input: no baseline with a coefficient of
  // variation at or below 20% has a median that is zero or negative.
  function Classify(sqrt: real -> real, baseline: seq<Measure>, candidate: seq<Measure>): Comparison
    requires IsSquareRoot(sqrt)
  {
    if Unavailable in baseline || Unavailable in candidate || baseline == [] || candidate == [] then
      NotComparable
    else
      var base, cand := Values(baseline), Values(candidate);
      var baseMedian, candMedian := Median(base), Median(cand);
      var mean := Mean(base);
      var cv := if |base| > 1 && mean > 0.0 then Some(sqrt(Variance(base)) / mean) else None;
      if cv.None? || cv.value > 0.20 then
        Compared(baseMedian, candMedian, cv, Inconclusive)
      else
        assert baseMedian > 0.0 by { SteadyBaselinePositive(sqrt, base); }
        Compared(baseMedian, candMedian, cv, ClassifyChange(baseMedian, candMedian, Maximum(cand), cv.value))
  }

  function ClassifyChange(baseMedian: real, candMedian: real, worst: real, cv: real): Judgement
    requires baseMedian != 0.0
  {
    var change := (baseMedian - candMedian) / baseMedian;
    if change >= Larger(0.10, 2.0 * cv) && worst <= baseMedian then Improvement
    else if -change >= Larger(0.05, 2.0 * cv) then Regression
    else Inconclusive
  }

  function LazyVerdict(sqrt: real -> real, candidate: seq<real>, reference: seq<real>): LazyComparison
    requires IsSquareRoot(sqrt)
  {
    if reference == [] then StatisticsError
    else
      var baseMedian := Median(reference);
      if baseMedian == 0.0 || Mean(reference) == 0.0 then ZeroBaseline
      else
        var cv := if |reference| > 1 then sqrt(Variance(reference)) / Mean(reference) else 0.0;
        if candidate == [] then StatisticsError
        else
          var median := Median(candidate);
          var change := (median - baseMedian) / baseMedian;
          Judged(baseMedian, median, change, cv, LazyChange(change, Maximum(candidate), baseMedian, cv))
  }

  function LazyChange(change: real, worst: real, baseMedian: real, cv: real): Judgement {
    if cv > 0.20 then Inconclusive
    else if -change >= Larger(0.10, 2.0 * cv) && worst <= baseMedian then Improvement
    else if change >= Larger(0.05, 2.0 * cv) then Regression
    else Inconclusive
  }

  function Outcome(c: LazyComparison): Judgement
    requires !c.StatisticsError?
  {
    if c.ZeroBaseline? then Inconclusive else c.verdict
  }

  // ---- what is reported ----

  // A coefficient of variation: the deviation it stands for, squared, is the variance.
  ghost predicate IsCv(s: seq<real>, cv: real)
    requires |s| > 1
  {
    (cv * Mean(s)) * (cv * Mean(s)) == Variance(s) && cv * Mean(s) >= 0.0
  }

  lemma CvOf(sqrt: real -> real, s: seq<real>)
    requires IsSquareRoot(sqrt) && |s| > 1 && Mean(s) != 0.0
    ensures IsCv(s, sqrt(Variance(s)) / Mean(s))
  {
    var root, mean := sqrt(Variance(s)), Mean(s);
    assert (root / mean) * mean == root;
  }

  lemma ClassifyReports(sqrt: real -> real, baseline: seq<Measure>, candidate: seq<Measure>)
    requires IsSquareRoot(sqrt)
    ensures var r := Classify(sqrt, baseline, candidate);
            && (r.NotComparable? <==>
                Unavailable in baseline || Unavailable in candidate || baseline == [] || candidate == [])
            && (r.Compared? ==>
                  var base := Values(baseline);
                  && IsMedian(base, r.baselineMedian) && IsMedian(Values(candidate), r.candidateMedian)
                  && (r.baselineCv.Some? <==> |base| > 1 && Mean(base) > 0.0)
                  && (r.baselineCv.Some? ==> IsCv(base, r.baselineCv.value)))
  {
    var r := Classify(sqrt, baseline, candidate);
    if r.Compared? {
      var base := Values(baseline);
      MedianIff(base, r.baselineMedian);
      MedianIff(Values(candidate), r.candidateMedian);
      if |base| > 1 && Mean(base) > 0.0 { CvOf(sqrt, base); }
    }
  }

  // Which result `verdict` gives.
  lemma LazyKinds(sqrt: real -> real, candidate: seq<real>, reference: seq<real>)
    requires IsSquareRoot(sqrt)
    ensures var r := LazyVerdict(sqrt, candidate, reference);
            var zero := reference != [] && (IsMedian(reference, 0.0) || Mean(reference) == 0.0);
            && (r.ZeroBaseline? <==> zero)
            && (r.Judged? <==> reference != [] && !zero && candidate != [])
  {
    if reference != [] { MedianIff(reference, 0.0); }
  }

  lemma LazyReports(sqrt: real -> real, candidate: seq<real>, reference: seq<real>)
    requires IsSquareRoot(sqrt) && LazyVerdict(sqrt, candidate, reference).Judged?
    ensures var r := LazyVerdict(sqrt, candidate, reference);
            && reference != [] && candidate != [] && r.baseline != 0.0
            && IsMedian(reference, r.baseline) && IsMedian(candidate, r.candidate)
            && r.change == (r.candidate - r.baseline) / r.baseline
  {
    MedianIff(reference, Median(reference));
    MedianIff(candidate, Median(candidate));
  }

  lemma LazyCv(sqrt: real -> real, candidate: seq<real>, reference: seq<real>)
    requires IsSquareRoot(sqrt) && LazyVerdict(sqrt, candidate, reference).Judged?
    ensures var cv := LazyVerdict(sqrt, candidate, reference).cv;
            if |reference| > 1 then IsCv(reference, cv) else cv == 0.0
  {
    if |reference| > 1 { CvOf(sqrt, reference); }
  }

  // ---- the frozen protocol, without division or roots ----

  // A gap of d on a baseline median m is at least the given share of m, and at least twice the
  // coefficient of variation; the second comparison is squared.
  ghost predicate Exceeds(d: real, m: real, share: real, mean: real, variance: real) {
    && d >= share * m
    && (d * mean) * (d * mean) >= 4.0 * variance * (m * m)
  }

  ghost predicate Steady(base: seq<real>) {
    |base| > 1 && Mean(base) > 0.0 && 25.0 * Variance(base) <= Mean(base) * Mean(base)
  }

  ghost function Protocol(base: seq<real>, cand: seq<real>): Judgement
    requires base != [] && cand != []
  {
    if !Steady(base) then Inconclusive
    else
      ProtocolChange(Median(base), Median(cand), Maximum(cand), Mean(base), Variance(base))
  }

  ghost function ProtocolChange(m: real, c: real, worst: real, mean: real, variance: real): Judgement {
    if Exceeds(m - c, m, 0.10, mean, variance) && worst <= m then Improvement
    else if Exceeds(c - m, m, 0.05, mean, variance) then Regression
    else Inconclusive
  }

  // ---- the proofs ----

  // cv <= 20% says that 25 times the variance is within the squared mean.
  lemma SquaredCv(s: real, mean: real)
    requires s >= 0.0 && mean > 0.0
    ensures s / mean > 0.20 <==> 25.0 * (s * s) > mean * mean
  {
    assert s / mean > 0.20 <==> 5.0 * s > mean by {
      assert s == (s / mean) * mean;
    }
    if 5.0 * s > mean {
      assert (5.0 * s) * (5.0 * s) > mean * mean;
    } else {
      assert (5.0 * s) * (5.0 * s) <= mean * mean;
    }
  }

  lemma SteadyPositiveMedian(base: seq<real>)
    requires Steady(base)
    ensures Median(base) > 0.0
  {
    if Median(base) <= 0.0 {
      LowMedianHighVariance(base);
      TooSpread(Mean(base), Mean(base), Variance(base));
    }
  }

  lemma TooSpread(a: real, b: real, variance: real)
    requires a > 0.0 && b > 0.0 && 2.0 * variance >= a * b
    ensures 25.0 * variance > a * b
  {
  }

  lemma RootOf(sqrt: real -> real, v: real) returns (s: real)
    requires IsSquareRoot(sqrt) && v >= 0.0
    ensures s == sqrt(v) && s >= 0.0 && s * s == v
  {
    s := sqrt(v);
  }

  lemma SteadyMeansLowCv(base: seq<real>, s: real)
    requires |base| > 1 && Mean(base) > 0.0 && s >= 0.0 && s * s == Variance(base)
    ensures Steady(base) <==> s / Mean(base) <= 0.20
  {
    SquaredCv(s, Mean(base));
  }

  lemma SteadyBaselinePositive(sqrt: real -> real, base: seq<real>)
    requires IsSquareRoot(sqrt) && |base| > 1 && Mean(base) > 0.0
    requires sqrt(Variance(base)) / Mean(base) <= 0.20
    ensures Steady(base) && Median(base) > 0.0
  {
    SquaredCv(sqrt(Variance(base)), Mean(base));
    SteadyPositiveMedian(base);
  }

  lemma SquareOrder(a: real, b: real)
    requires a >= 0.0 && b >= 0.0
    ensures a >= b <==> a * a >= b * b
  {
    if a > b { SquareStrict(b, a); } else if b > a { SquareStrict(a, b); }
  }

  lemma SquareStrict(a: real, b: real)
    requires 0.0 <= a < b
    ensures a * a < b * b
  {
    PositiveProduct(b - a, b + a);
    assert b * b - a * a == (b - a) * (b + a);
  }

  lemma PositiveProduct(a: real, b: real)
    requires a > 0.0 && b > 0.0
    ensures a * b > 0.0
  {
  }

  lemma DivideOrder(a: real, b: real, k: real)
    requires b > 0.0
    ensures a / b >= k <==> a >= k * b
  {
  }

  // The relative comparison in the code is the squared comparison of the protocol.
  lemma ExceedsIsThreshold(d: real, m: real, share: real, mean: real, s: real)
    requires m > 0.0 && mean > 0.0 && s >= 0.0 && share > 0.0
    ensures d / m >= Larger(share, 2.0 * (s / mean)) <==> Exceeds(d, m, share, mean, s * s)
  {
    DivideOrder(d, m, share);
    if d >= share * m {
      assert d > 0.0;
      var k := 2.0 * (s / mean);
      DivideOrder(d, m, k);
      assert d >= k * m <==> d * mean >= 2.0 * s * m by {
        assert k * mean == 2.0 * s;
        assert (k * m) * mean == 2.0 * s * m;
        DivideOrder(d * mean, mean, k * m);
        assert (d * mean) / mean == d;
      }
      SquareOrder(d * mean, 2.0 * s * m);
      assert (2.0 * s * m) * (2.0 * s * m) == 4.0 * (s * s) * (m * m);
    }
  }

  lemma ThresholdsAgree(m: real, c: real, worst: real, mean: real, s: real)
    requires m > 0.0 && mean > 0.0 && s >= 0.0
    ensures ClassifyChange(m, c, worst, s / mean) == ProtocolChange(m, c, worst, mean, s * s)
    ensures s / mean <= 0.20 ==>
              LazyChange((c - m) / m, worst, m, s / mean) == ProtocolChange(m, c, worst, mean, s * s)
  {
    ExceedsIsThreshold(m - c, m, 0.10, mean, s);
    ExceedsIsThreshold(c - m, m, 0.05, mean, s);
    Negated(m - c, m);
  }

  lemma Negated(d: real, m: real)
    requires m != 0.0
    ensures -(d / m) == (-d) / m
  {
  }

  lemma ClassifyIsProtocol(sqrt: real -> real, base: seq<real>, cand: seq<real>)
    requires IsSquareRoot(sqrt) && base != [] && cand != []
    ensures var r := Classify(sqrt, Measured(base), Measured(cand));
            r.Compared? && r.verdict == Protocol(base, cand)
  {
    var r := Classify(sqrt, Measured(base), Measured(cand));
    if |base| > 1 && Mean(base) > 0.0 {
      var s := RootOf(sqrt, Variance(base));
      SteadyMeansLowCv(base, s);
      if Steady(base) {
        SteadyPositiveMedian(base);
        ThresholdsAgree(Median(base), Median(cand), Maximum(cand), Mean(base), s);
        assert r.verdict == ClassifyChange(Median(base), Median(cand), Maximum(cand), s / Mean(base));
      }
    }
  }

  lemma LazyVerdictIsProtocol(sqrt: real -> real, base: seq<real>, cand: seq<real>)
    requires IsSquareRoot(sqrt) && |base| > 1 && cand != [] && Mean(base) >= 0.0
    ensures var r := LazyVerdict(sqrt, cand, base);
            !r.StatisticsError? && Outcome(r) == Protocol(base, cand)
  {
    var s := RootOf(sqrt, Variance(base));
    if Steady(base) { SteadyPositiveMedian(base); }
    if Median(base) != 0.0 && Mean(base) != 0.0 {
      SteadyMeansLowCv(base, s);
      if Steady(base) {
        ThresholdsAgree(Median(base), Median(cand), Maximum(cand), Mean(base), s);
      }
    }
  }

  // The two implementations give one verdict on two or more baseline values whose mean is not
  // negative, which covers every series of non-negative measurements.
  lemma ImplementationsAgree(sqrt: real -> real, base: seq<real>, cand: seq<real>)
    requires IsSquareRoot(sqrt) && |base| > 1 && cand != []
    requires Mean(base) >= 0.0 || forall x :: x in base ==> x >= 0.0
    ensures var c, v := Classify(sqrt, Measured(base), Measured(cand)), LazyVerdict(sqrt, cand, base);
            c.Compared? && !v.StatisticsError? && c.verdict == Outcome(v)
  {
    if forall x :: x in base ==> x >= 0.0 { NonNegativeMean(base); }
    ClassifyIsProtocol(sqrt, base, cand);
    LazyVerdictIsProtocol(sqrt, base, cand);
  }

  lemma NonNegativeMean(s: seq<real>)
    requires s != [] && forall x :: x in s ==> x >= 0.0
    ensures Mean(s) >= 0.0
  {
    NonNegativeSum(s);
    assert SumOf(x => x, s) / |s| as real >= 0.0;
  }

  lemma {:induction false} NonNegativeSum(s: seq<real>)
    requires forall x :: x in s ==> x >= 0.0
    ensures SumOf(x => x, s) >= 0.0
  {
    if s != [] {
      assert s[0] in s && forall x :: x in s[1..] ==> x in s;
      NonNegativeSum(s[1..]);
    }
  }

  // On a single non-negative baseline value the two differ exactly when the candidate passes a
  // threshold: `classify` has no variation to judge by, `verdict` takes it to be zero.
  lemma SingleBaselineAgreement(sqrt: real -> real, base: seq<real>, cand: seq<real>)
    requires IsSquareRoot(sqrt) && |base| == 1 && base[0] >= 0.0 && cand != []
    ensures var c, v := Classify(sqrt, Measured(base), Measured(cand)), LazyVerdict(sqrt, cand, base);
            && c.Compared? && !v.StatisticsError?
            && (c.verdict == Outcome(v) <==>
                base[0] == 0.0 || !PassesThreshold(base[0], Median(cand), Maximum(cand)))
  {
    SingletonClassify(sqrt, base, cand);
    SingletonLazy(sqrt, base, cand);
  }

  ghost predicate PassesThreshold(b: real, c: real, worst: real) {
    c >= 1.05 * b || (c <= 0.90 * b && worst <= b)
  }

  lemma SingletonClassify(sqrt: real -> real, base: seq<real>, cand: seq<real>)
    requires IsSquareRoot(sqrt) && |base| == 1 && cand != []
    ensures var c := Classify(sqrt, Measured(base), Measured(cand));
            c.Compared? && c.verdict == Inconclusive
  {
  }

  lemma SingletonLazy(sqrt: real -> real, base: seq<real>, cand: seq<real>)
    requires IsSquareRoot(sqrt) && |base| == 1 && base[0] >= 0.0 && cand != []
    ensures var v := LazyVerdict(sqrt, cand, base);
            && !v.StatisticsError?
            && (Outcome(v) == Inconclusive <==>
                base[0] == 0.0 || !PassesThreshold(base[0], Median(cand), Maximum(cand)))
  {
    SingletonStatistics(base);
    if base[0] > 0.0 { SingletonChange(base[0], Median(cand), Maximum(cand)); }
  }

  lemma SingletonStatistics(base: seq<real>)
    requires |base| == 1
    ensures Mean(base) == base[0] && Median(base) == base[0]
  {
    assert SumOf(x => x, base) == base[0];
    assert Ascending(base) == base;
  }

  lemma SingletonChange(b: real, c: real, worst: real)
    requires b > 0.0
    ensures LazyChange((c - b) / b, worst, b, 0.0) == Inconclusive
            <==> !PassesThreshold(b, c, worst)
  {
    Negated(c - b, b);
    DivideOrder(b - c, b, 0.10);
    DivideOrder(c - b, b, 0.05);
  }
}
