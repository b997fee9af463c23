/**
 * Median, mean and sample variance over exact reals, as Python's `statistics` module defines
 * them, with the order-statistic facts that the threshold protocol and the timing model rest on.
 */
module Statistics {
  import opened Sorting

  predicate RealLe(x: real, y: real) {
    x <= y
  }

  function Ascending(s: seq<real>): (r: seq<real>)
    ensures multiset(r) == multiset(s) && |r| == |s|
  {
    Sort(RealLe, s)
  }

  function Median(s: seq<real>): real
    requires s != []
  {
    var t := Ascending(s);
    var n := |t|;
    if n % 2 == 1 then t[n / 2] else (t[n / 2 - 1] + t[n / 2]) / 2.0
  }

  function SumOf(f: real -> real, s: seq<real>): real {
    if s == [] then 0.0 else f(s[0]) + SumOf(f, s[1..])
  }

  function Mean(s: seq<real>): real
    requires s != []
  {
    SumOf(x => x, s) / |s| as real
  }

  function SquaredGap(x: real, c: real): (r: real)
    ensures r >= 0.0
  {
    (x - c) * (x - c)
  }

  function SquaresAround(s: seq<real>, c: real): (r: real)
    ensures r >= 0.0
  {
    var f := x => SquaredGap(x, c);
    SumAtLeast(f, s, 0, 0.0);
    SumOf(f, s)
  }

  function Variance(s: seq<real>): (v: real)
    requires |s| > 1
    ensures v >= 0.0
  {
    SquaresAround(s, Mean(s)) / (|s| - 1) as real
  }

  function Maximum(s: seq<real>): (m: real)
    requires s != []
    ensures m in s && forall x :: x in s ==> x <= m
  {
    if |s| == 1 then s[0]
    else
      var m := Maximum(s[1..]);
      assert s == [s[0]] + s[1..];
      if s[0] >= m then s[0] else m
  }

  lemma AscendingSorted(s: seq<real>)
    ensures Sorted(RealLe, Ascending(s))
    ensures forall i, j :: 0 <= i <= j < |s| ==> Ascending(s)[i] <= Ascending(s)[j]
    ensures forall x :: x in Ascending(s) <==> x in s
  {
    SortSorts(RealLe, s);
    SortMembers(RealLe, s);
    forall i, j | 0 <= i <= j < |s| ensures Ascending(s)[i] <= Ascending(s)[j] {
      assert i < j ==> RealLe(Ascending(s)[i], Ascending(s)[j]);
    }
  }

  // The median of a sequence lies between any bounds of its members.
  lemma MedianBetween(s: seq<real>, lo: real, hi: real)
    requires s != [] && forall x :: x in s ==> lo <= x <= hi
    ensures lo <= Median(s) <= hi
  {
    var t := Ascending(s);
    AscendingSorted(s);
    assert t[|t| / 2] in t;
    assert |t| % 2 == 0 ==> t[|t| / 2 - 1] in t;
  }

  // ---- what rank and median mean, without sorting ----

  // How many entries satisfy `p`.
  ghost function Count(p: real -> bool, s: seq<real>): (n: nat)
    ensures n <= |s|
  {
    if s == [] then 0 else (if p(s[0]) then 1 else 0) + Count(p, s[1..])
  }

  ghost function CountBelow(s: seq<real>, v: real): nat {
    Count(x => x < v, s)
  }

  ghost function CountUpTo(s: seq<real>, v: real): nat {
    Count(x => x <= v, s)
  }

  lemma {:induction false} InsertCount(p: real -> bool, x: real, s: seq<real>)
    ensures Count(p, Insert(RealLe, x, s)) == (if p(x) then 1 else 0) + Count(p, s)
  {
    if s != [] && !RealLe(x, s[0]) { InsertCount(p, x, s[1..]); }
  }

  lemma {:induction false} AscendingCount(p: real -> bool, s: seq<real>)
    ensures Count(p, Ascending(s)) == Count(p, s)
  {
    if s != [] {
      AscendingCount(p, s[1..]);
      InsertCount(p, s[0], Ascending(s[1..]));
    }
  }

  // In a sequence whose first i entries satisfy `p`, at least i do; if only those do, at most i.
  lemma {:induction false} CountPrefix(p: real -> bool, t: seq<real>, i: nat)
    requires i <= |t|
    ensures (forall k :: 0 <= k < i ==> p(t[k])) ==> Count(p, t) >= i
    ensures (forall k :: i <= k < |t| ==> !p(t[k])) ==> Count(p, t) <= i
  {
    if t != [] { CountPrefix(p, t[1..], if i == 0 then 0 else i - 1); }
  }

  lemma {:induction false} CountMonotone(p: real -> bool, q: real -> bool, s: seq<real>)
    requires forall x :: p(x) ==> q(x)
    ensures Count(p, s) <= Count(q, s)
  {
    if s != [] { CountMonotone(p, q, s[1..]); }
  }

  // `v` is the entry of rank i: at most i entries are smaller, more than i are no larger.
  ghost predicate HasRank(s: seq<real>, i: nat, v: real) {
    v in s && CountBelow(s, v) <= i < CountUpTo(s, v)
  }

  // The i-th entry in ascending order has rank i, and no other value has.
  lemma RankOfEntry(s: seq<real>, i: nat)
    requires i < |s|
    ensures HasRank(s, i, Ascending(s)[i])
  {
    var t := Ascending(s);
    var v := t[i];
    AscendingSorted(s);
    assert v in t;
    AscendingCount(x => x < v, s);
    AscendingCount(x => x <= v, s);
    CountPrefix(x => x < v, t, i);
    CountPrefix(x => x <= v, t, i + 1);
  }

  lemma RankUnique(s: seq<real>, i: nat, v: real, w: real)
    requires HasRank(s, i, v) && HasRank(s, i, w)
    ensures v == w
  {
    if v < w { CountMonotone(x => x <= v, x => x < w, s); }
    if w < v { CountMonotone(x => x <= w, x => x < v, s); }
  }

  // The median lies half way between the lower and the upper middle entry: less than half of all
  // entries are smaller than the lower one and at least half are no larger; less than half are
  // larger than the upper one and at least half are no smaller.
  ghost predicate LowerMiddle(s: seq<real>, v: real) {
    v in s && 2 * CountBelow(s, v) < |s| <= 2 * CountUpTo(s, v)
  }

  ghost predicate UpperMiddle(s: seq<real>, v: real) {
    v in s && 2 * (|s| - CountUpTo(s, v)) < |s| <= 2 * (|s| - CountBelow(s, v))
  }

  ghost predicate IsMedian(s: seq<real>, m: real) {
    exists a, b :: LowerMiddle(s, a) && UpperMiddle(s, b) && m == (a + b) / 2.0
  }

  // Exactly one value is a median in this sense, and `Median` computes it.
  lemma MedianIff(s: seq<real>, m: real)
    requires s != []
    ensures IsMedian(s, m) <==> m == Median(s)
  {
    var t, n := Ascending(s), |s|;
    var low, high := (n - 1) / 2, n / 2;
    RankOfEntry(s, low);
    RankOfEntry(s, high);
    assert LowerMiddle(s, t[low]) && UpperMiddle(s, t[high]);
    assert Median(s) == (t[low] + t[high]) / 2.0;
    if IsMedian(s, m) {
      var a, b :| LowerMiddle(s, a) && UpperMiddle(s, b) && m == (a + b) / 2.0;
      RankUnique(s, low, a, t[low]);
      RankUnique(s, high, b, t[high]);
    }
  }

  // ---- what mean and variance mean ----

  ghost function Sum(s: seq<real>): real {
    SumOf(x => x, s)
  }

  lemma {:induction false} ShiftedSum(s: seq<real>, c: real)
    ensures SumOf(x => x - c, s) == Sum(s) - |s| as real * c
  {
    if s != [] {
      ShiftedSum(s[1..], c);
      assert |s| as real * c == |s[1..]| as real * c + c;
    }
  }

  // The deviations from the mean cancel out.
  lemma MeanBalances(s: seq<real>)
    requires s != []
    ensures SumOf(x => x - Mean(s), s) == 0.0
  {
    ShiftedSum(s, Mean(s));
  }

  ghost function Square(x: real): real {
    x * x
  }

  ghost function SumOfSquares(s: seq<real>): real {
    SumOf(Square, s)
  }

  lemma SquareExpands(x: real, c: real)
    ensures SquaredGap(x, c) == Square(x) - Scaled(2.0 * c, x) + Square(c)
  {
  }

  ghost function Scaled(k: real, x: real): real {
    k * x
  }

  lemma {:induction false} ScaledSum(k: real, s: seq<real>)
    ensures SumOf(x => Scaled(k, x), s) == Scaled(k, Sum(s))
  {
    if s != [] {
      ScaledSum(k, s[1..]);
      Distributes(k, s[0], Sum(s[1..]));
    }
  }

  lemma Distributes(k: real, x: real, y: real)
    ensures Scaled(k, x) + Scaled(k, y) == Scaled(k, x + y)
  {
  }

  lemma {:induction false} SquaresExpand(s: seq<real>, c: real)
    ensures SumOf(x => SquaredGap(x, c), s) ==
            SumOfSquares(s) - SumOf(x => Scaled(2.0 * c, x), s) + Times(|s|, Square(c))
  {
    if s != [] {
      SquaresExpand(s[1..], c);
      SquareExpands(s[0], c);
    }
  }

  // The sample variance from the plain sums of values and squares.
  lemma VarianceFromSums(s: seq<real>)
    requires |s| > 1
    ensures (|s| * (|s| - 1)) as real * Variance(s) == |s| as real * SumOfSquares(s) - Square(Sum(s))
  {
    SquaresExpand(s, Mean(s));
    ScaledSum(2.0 * Mean(s), s);
    TimesIsProduct(|s|, Square(Mean(s)));
    VarianceArithmetic(|s|, Sum(s), SumOfSquares(s), Mean(s), SquaresAround(s, Mean(s)));
  }

  lemma VarianceArithmetic(n: nat, sum: real, squares: real, mean: real, around: real)
    requires n > 1 && mean == sum / n as real && around == squares - Scaled(2.0 * mean, sum) + n as real * Square(mean)
    ensures (n * (n - 1)) as real * (around / (n - 1) as real) == n as real * squares - Square(sum)
  {
    var k := n as real;
    assert k * mean == sum;
    assert k * (k * (mean * mean)) == sum * sum;
    assert k * (2.0 * mean * sum) == 2.0 * (sum * sum);
    assert k * around == k * squares - sum * sum;
    assert (n * (n - 1)) as real == k * (n - 1) as real;
    Cancel(k, (n - 1) as real, around);
  }

  lemma Cancel(k: real, d: real, x: real)
    requires d != 0.0
    ensures (k * d) * (x / d) == k * x
  {
    assert d * (x / d) == x;
  }

  // ---- order statistics are monotone ----

  ghost predicate Below(u: seq<real>, v: seq<real>) {
    |u| == |v| && forall i :: 0 <= i < |u| ==> u[i] <= v[i]
  }

  lemma {:induction false} InsertMonotone(x: real, y: real, u: seq<real>, v: seq<real>)
    requires x <= y && Below(u, v) && Sorted(RealLe, u) && Sorted(RealLe, v)
    ensures Below(Insert(RealLe, x, u), Insert(RealLe, y, v))
    decreases |u|
  {
    if u != [] {
      assert u[0] <= v[0] && Below(u[1..], v[1..]);
      if x <= u[0] && v[0] < y {
        InsertMonotone(u[0], y, u[1..], v[1..]);
        HeadInsert(u);
        BelowCons(x, v[0], u, Insert(RealLe, y, v[1..]));
      } else if u[0] < x && y <= v[0] {
        InsertMonotone(x, v[0], u[1..], v[1..]);
        HeadInsert(v);
        BelowCons(u[0], y, Insert(RealLe, x, u[1..]), v);
      } else if x <= u[0] {
        BelowCons(x, y, u, v);
      } else {
        InsertMonotone(x, y, u[1..], v[1..]);
        BelowCons(u[0], v[0], Insert(RealLe, x, u[1..]), Insert(RealLe, y, v[1..]));
      }
    }
  }

  lemma BelowCons(x: real, y: real, u: seq<real>, v: seq<real>)
    requires x <= y && Below(u, v)
    ensures Below([x] + u, [y] + v)
  {
  }

  lemma HeadInsert(u: seq<real>)
    requires u != [] && Sorted(RealLe, u)
    ensures Insert(RealLe, u[0], u[1..]) == u
  {
  }

  lemma {:induction false} AscendingMonotone(a: seq<real>, b: seq<real>)
    requires Below(a, b)
    ensures Below(Ascending(a), Ascending(b))
  {
    if a != [] {
      AscendingMonotone(a[1..], b[1..]);
      SortSorts(RealLe, a[1..]);
      SortSorts(RealLe, b[1..]);
      InsertMonotone(a[0], b[0], Ascending(a[1..]), Ascending(b[1..]));
    }
  }

  // Two series ordered pair by pair have their medians in the same order.
  lemma MedianMonotone(a: seq<real>, b: seq<real>)
    requires a != [] && Below(a, b)
    ensures Median(a) <= Median(b)
  {
    AscendingMonotone(a, b);
  }

  // ---- a median at or below zero forces a large variance ----

  ghost function Times(k: nat, q: real): real {
    if k == 0 then 0.0 else q + Times(k - 1, q)
  }

  lemma {:induction false} TimesIsProduct(k: nat, q: real)
    ensures Times(k, q) == k as real * q
  {
    if k > 0 {
      TimesIsProduct(k - 1, q);
      assert k as real * q == (k - 1) as real * q + q;
    }
  }

  lemma {:induction false} SumAtLeast(f: real -> real, t: seq<real>, k: nat, q: real)
    requires k <= |t| && forall x :: f(x) >= 0.0
    requires forall i :: 0 <= i < k ==> f(t[i]) >= q
    ensures SumOf(f, t) >= Times(k, q)
  {
    if t != [] {
      SumAtLeast(f, t[1..], if k == 0 then 0 else k - 1, q);
    }
  }

  lemma {:induction false} InsertSum(f: real -> real, x: real, s: seq<real>)
    ensures SumOf(f, Insert(RealLe, x, s)) == f(x) + SumOf(f, s)
  {
    if s != [] && !RealLe(x, s[0]) { InsertSum(f, x, s[1..]); }
  }

  lemma {:induction false} AscendingSum(f: real -> real, s: seq<real>)
    ensures SumOf(f, Ascending(s)) == SumOf(f, s)
  {
    if s != [] {
      AscendingSum(f, s[1..]);
      InsertSum(f, s[0], Ascending(s[1..]));
    }
  }

  // At least half of the values lie at or below a non-positive median.
  lemma LowMedianSum(f: real -> real, s: seq<real>, q: real)
    requires s != [] && Median(s) <= 0.0
    requires forall x :: f(x) >= 0.0
    requires forall x :: x <= 0.0 ==> f(x) >= q
    ensures SumOf(f, s) >= Times((|s| + 1) / 2, q)
  {
    AscendingSorted(s);
    AscendingSum(f, s);
    SumAtLeast(f, Ascending(s), (|s| + 1) / 2, q);
  }

  lemma SquareAtLeast(x: real, a: real, b: real)
    requires x <= 0.0 <= a && a == b
    ensures SquaredGap(x, a) >= a * b
  {
  }

  lemma LowMedianSquares(s: seq<real>, a: real, b: real)
    requires s != [] && a == b >= 0.0 && Median(s) <= 0.0
    ensures SquaresAround(s, a) >= Times((|s| + 1) / 2, a * b)
  {
    var f := x => SquaredGap(x, a);
    forall x | x <= 0.0 ensures f(x) >= a * b { SquareAtLeast(x, a, b); }
    LowMedianSum(f, s, a * b);
  }

  lemma QuotientAtLeast(x: real, d: real, q: real)
    requires d > 0.0 && x >= d * q
    ensures x / d >= q
  {
    var r := x / d;
    assert r * d == x;
    if r < q { assert r * d < q * d; }
  }

  lemma HalfOf(total: real, n: nat, k: nat, a: real, b: real)
    requires n > 1 && 2 * k >= n && a >= 0.0 && b >= 0.0 && total >= Times(k, a * b)
    ensures 2.0 * (total / (n - 1) as real) >= a * b
  {
    var d, q := (n - 1) as real, a * b;
    TimesIsProduct(k, q);
    assert q >= 0.0;
    assert 2.0 * total >= d * q;
    QuotientAtLeast(total, d, q / 2.0);
  }

  // The variance around a non-positive median is at least half of the squared mean.
  lemma LowMedianHighVariance(s: seq<real>)
    requires |s| > 1 && Mean(s) >= 0.0 && Median(s) <= 0.0
    ensures 2.0 * Variance(s) >= Mean(s) * Mean(s)
  {
    LowMedianVariance(s, Mean(s), Mean(s));
  }

  lemma LowMedianVariance(s: seq<real>, a: real, b: real)
    requires |s| > 1 && a == b == Mean(s) && a >= 0.0 && Median(s) <= 0.0
    ensures 2.0 * Variance(s) >= a * b
  {
    LowMedianSquares(s, a, b);
    HalfOf(SquaresAround(s, a), |s|, (|s| + 1) / 2, a, b);
  }
}
