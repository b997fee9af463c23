/**
 * How many ranges and bytes the sampling plans of scripts/media-evidence-fingerprint.py read, and
 * that its 8 MiB fixture leaves every sampling candidate an unread interior byte.
 */
module SampleTotals {
  import opened Basics
  import opened Sorting
  import opened SamplePlan

  lemma {:induction false} MergeGapped(merged: seq<Range>, ranges: seq<Range>, size: nat)
    requires Canonical(merged + ranges, size)
    ensures MergeAll(merged, ranges) == merged + ranges
    decreases |ranges|
  {
    if ranges == [] {
      assert merged + ranges == merged;
    } else {
      var all := merged + ranges;
      assert merged != [] ==> all[|merged| - 1].end < all[|merged|].start;
      assert MergeStep(merged, ranges[0]) == merged + [ranges[0]];
      assert merged + [ranges[0]] + ranges[1..] == all;
      MergeGapped(merged + [ranges[0]], ranges[1..], size);
    }
  }

  // Merging that keeps the number of ranges changed nothing.
  lemma {:induction false} MergeLength(merged: seq<Range>, ranges: seq<Range>)
    ensures |MergeAll(merged, ranges)| <= |merged| + |ranges|
    ensures |MergeAll(merged, ranges)| == |merged| + |ranges| ==> MergeAll(merged, ranges) == merged + ranges
    decreases |ranges|
  {
    if ranges == [] {
      assert merged + ranges == merged;
    } else {
      var after := MergeStep(merged, ranges[0]);
      MergeLength(after, ranges[1..]);
      if |after| == |merged| + 1 {
        assert after + ranges[1..] == merged + ranges;
      }
    }
  }

  // ---- evenly spaced samples with 64 KiB edges ----

  function Spread(n: nat): Sampling {
    Sampling(SAMPLE, n, false)
  }

  // Sample i is centred on the floor of i * size / (n + 1).
  function Centre(size: nat, n: nat, i: nat): nat {
    i * size / (n + 1)
  }

  lemma DivAtLeast(t: int, k: int, q: int)
    requires k > 0 && q * k <= t
    ensures q <= t / k
  {
    assert t == (t / k) * k + t % k;
    MulStep(t / k, q, k);
  }

  lemma CentreGap(size: nat, n: nat, i: nat, j: nat)
    requires i < j
    ensures Centre(size, n, i) + size / (n + 1) <= Centre(size, n, j)
  {
    var c, q := n + 1, size / (n + 1);
    assert i * size == Centre(size, n, i) * c + i * size % c;
    assert size == q * c + size % c;
    MulMonotone(i + 1, j, size);
    assert (Centre(size, n, i) + q) * c <= j * size by {
      assert (Centre(size, n, i) + q) * c == Centre(size, n, i) * c + q * c;
      assert (i + 1) * size == i * size + size;
    }
    DivAtLeast(j * size, c, Centre(size, n, i) + q);
  }

  lemma LastCentre(size: nat, n: nat)
    ensures Centre(size, n, n + 1) == size && Centre(size, n, 0) == 0
  {
    DivUnique((n + 1) * size, n + 1, size);
  }

  lemma CentreBounds(size: nat, n: nat, i: nat)
    requires 1 <= i <= n && size / (n + 1) > 96 * KIB
    ensures 96 * KIB < Centre(size, n, i) < size - 96 * KIB
  {
    LastCentre(size, n);
    CentreGap(size, n, 0, i);
    CentreGap(size, n, i, n + 1);
  }

  ghost predicate CentredAt(r: Range, c: int) {
    r.start == c - SAMPLE / 2 && r.end == c + SAMPLE / 2
  }

  lemma SpreadBlock(size: nat, n: nat, i: nat)
    requires 1 <= i <= n && size / (n + 1) > 96 * KIB
    ensures CentredAt(EvenBlock(size, n, i), Centre(size, n, i))
  {
    CentreBounds(size, n, i);
  }

  function Framed(size: nat, blocks: seq<Range>): seq<Range>
    requires size >= SAMPLE
  {
    [Range(0, SAMPLE)] + blocks + [Range(size - SAMPLE, size)]
  }

  // Blocks around centres that keep more than 96 KiB from the ends and from each other.
  lemma CentredCanonical(blocks: seq<Range>, size: nat, c: seq<int>)
    requires |c| == |blocks| && size >= SAMPLE + 96 * KIB
    requires forall k :: 0 <= k < |c| ==> CentredAt(blocks[k], c[k]) && 96 * KIB < c[k] < size - 96 * KIB
    requires forall j, k :: 0 <= j < k < |c| ==> c[j] + 96 * KIB < c[k]
    ensures Canonical(Framed(size, blocks), size)
    ensures forall r :: r in Framed(size, blocks) ==> r.end - r.start == SAMPLE
  {
  }

  // The centres of the n samples.
  lemma Centres(size: nat, n: nat) returns (c: seq<int>)
    requires size / (n + 1) > 96 * KIB && n >= 1
    ensures |c| == n && size >= SAMPLE + 96 * KIB
    ensures forall k :: 0 <= k < n ==> CentredAt(EvenBlocks(size, n)[k], c[k]) && 96 * KIB < c[k] < size - 96 * KIB
    ensures forall j, k :: 0 <= j < k < n ==> c[j] + 96 * KIB < c[k]
  {
    c := seq(n, k requires 0 <= k < n => Centre(size, n, k + 1));
    forall k | 0 <= k < n ensures CentredAt(EvenBlocks(size, n)[k], c[k]) && 96 * KIB < c[k] < size - 96 * KIB {
      SpreadBlock(size, n, k + 1);
      CentreBounds(size, n, k + 1);
    }
    forall j, k | 0 <= j < k < n ensures c[j] + 96 * KIB < c[k] { CentreGap(size, n, j + 1, k + 1); }
    CentreBounds(size, n, 1);
  }

  lemma CanonicalSorted(p: seq<Range>, size: nat)
    requires Canonical(p, size)
    ensures Sorted(RangeLe, p)
  {
  }

  function FramedRaw(size: nat, blocks: seq<Range>): seq<Range>
    requires size >= SAMPLE
  {
    [Range(0, SAMPLE), Range(size - SAMPLE, size)] + blocks
  }

  // Framed blocks that are canonical as they stand survive sorting and merging unchanged.
  lemma FramedPlan(size: nat, blocks: seq<Range>)
    requires size >= SAMPLE && Canonical(Framed(size, blocks), size)
    ensures MergeAll([], Sort(RangeLe, FramedRaw(size, blocks))) == Framed(size, blocks)
  {
    var raw, list := FramedRaw(size, blocks), Framed(size, blocks);
    assert multiset(raw) == multiset(list);
    RangeLeTotal();
    SortSorts(RangeLe, raw);
    CanonicalSorted(list, size);
    SortedUnique(RangeLe, Sort(RangeLe, raw), list);
    assert [] + list == list;
    MergeGapped([], list, size);
  }

  lemma CentredPlan(blocks: seq<Range>, size: nat, c: seq<int>)
    requires |c| == |blocks| && size >= SAMPLE + 96 * KIB
    requires forall k :: 0 <= k < |c| ==> CentredAt(blocks[k], c[k]) && 96 * KIB < c[k] < size - 96 * KIB
    requires forall j, k :: 0 <= j < k < |c| ==> c[j] + 96 * KIB < c[k]
    ensures var plan := MergeAll([], Sort(RangeLe, FramedRaw(size, blocks)));
            plan == Framed(size, blocks) && TotalLength(plan) == (|blocks| + 2) * SAMPLE
  {
    CentredCanonical(blocks, size, c);
    FramedPlan(size, blocks);
    EqualLengths(Framed(size, blocks));
  }

  lemma SpreadRaw(size: nat, n: nat)
    requires size >= SAMPLE
    ensures RawRanges(Spread(n), size, []) == FramedRaw(size, EvenBlocks(size, n))
  {
  }

  // Samples further apart than 96 KiB are read one by one: n + 2 ranges of 64 KiB.
  lemma SpreadPlan(size: nat, n: nat)
    requires size / (n + 1) > 96 * KIB && n >= 1
    ensures size >= SAMPLE && PlanOf(Spread(n), size, []) == Framed(size, EvenBlocks(size, n))
    ensures |PlanOf(Spread(n), size, [])| == n + 2
    ensures TotalLength(PlanOf(Spread(n), size, [])) == (n + 2) * SAMPLE
  {
    var c := Centres(size, n);
    CentredPlan(EvenBlocks(size, n), size, c);
    SpreadPlanOf(size, n);
  }

  lemma SpreadPlanOf(size: nat, n: nat)
    requires size >= SAMPLE
    ensures PlanOf(Spread(n), size, []) == MergeAll([], Sort(RangeLe, FramedRaw(size, EvenBlocks(size, n))))
  {
    SpreadRaw(size, n);
  }

  lemma {:induction false} EqualLengths(p: seq<Range>)
    requires forall r :: r in p ==> r.end - r.start == SAMPLE
    ensures TotalLength(p) == |p| * SAMPLE
  {
    if p != [] { EqualLengths(p[..|p| - 1]); }
  }

  // At 96 KiB or less the first sample touches the head, so fewer ranges are left: the bound
  // above is exact for every n >= 1.
  lemma SpreadPlanExact(size: nat, n: nat)
    requires n >= 1
    ensures |PlanOf(Spread(n), size, [])| == n + 2 <==> size / (n + 1) > 96 * KIB
  {
    if size / (n + 1) > 96 * KIB {
      SpreadPlan(size, n);
    } else if size > 0 {
      var raw := RawRanges(Spread(n), size, []);
      var sorted := Sort(RangeLe, raw);
      MergeLength([], sorted);
      RawRangesProper(Spread(n), size, []);
      SortedMergeable(raw, size);
      MergeAllCanonical([], sorted, size);
      if |MergeAll([], sorted)| == n + 2 {
        assert MergeAll([], sorted) == sorted;
        TouchingPair(size, n, sorted);
      }
    }
  }

  lemma TouchingPair(size: nat, n: nat, sorted: seq<Range>)
    requires n >= 1 && size > 0 && size / (n + 1) <= 96 * KIB
    requires multiset(sorted) == multiset(RawRanges(Spread(n), size, []))
    ensures !Canonical(sorted, size)
  {
    var raw := RawRanges(Spread(n), size, []);
    var a, b := raw[0], raw[2];
    assert b == EvenBlock(size, n, 1);
    assert b.start <= a.end && a.start <= b.start;
    TwoOf(raw, 0, 2);
    assert a in multiset(sorted) && b in multiset(sorted);
    if Canonical(sorted, size) {
      CanonicalSeparates(sorted, size, a, b);
      CanonicalDistinct(sorted, size, a);
    }
  }

  lemma TwoOf<T>(s: seq<T>, i: nat, j: nat)
    requires i < j < |s|
    ensures s[i] == s[j] ==> multiset(s)[s[i]] >= 2
  {
    assert s == s[..i] + [s[i]] + s[i + 1..j] + [s[j]] + s[j + 1..];
  }

  lemma CanonicalSeparates(p: seq<Range>, size: nat, a: Range, b: Range)
    requires Canonical(p, size) && a in p && b in p && a.start <= b.start <= a.end
    ensures a == b
  {
  }

  lemma {:induction false} CanonicalDistinct(p: seq<Range>, size: nat, a: Range)
    requires Canonical(p, size)
    ensures multiset(p)[a] <= 1
  {
    if p != [] {
      var first, rest := p[0], p[1..];
      CanonicalDistinct(rest, size, a);
      assert p == [first] + rest;
      assert multiset(p) == multiset{first} + multiset(rest);
      if a == first { assert a !in rest; }
    }
  }

  // ---- random samples of an aligned file ----

  ghost predicate Apart(p: seq<Range>) {
    forall i, j :: 0 <= i < j < |p| ==> p[i].end <= p[j].start
  }

  ghost predicate SampleLong(p: seq<Range>) {
    forall i :: 0 <= i < |p| ==> p[i].end == p[i].start + SAMPLE
  }

  lemma MergeStepTotal(merged: seq<Range>, r: Range)
    requires r.start <= r.end && (merged != [] ==> merged[|merged| - 1].end <= r.start)
    ensures TotalLength(MergeStep(merged, r)) == TotalLength(merged) + (r.end - r.start)
    ensures var after := MergeStep(merged, r); after != [] && after[|after| - 1].end == r.end
  {
  }

  // Merging 64 KiB ranges that do not overlap loses no byte, even where they touch.
  lemma {:induction false} MergeTotal(merged: seq<Range>, ranges: seq<Range>)
    requires Apart(ranges) && SampleLong(ranges)
    requires merged != [] && ranges != [] ==> merged[|merged| - 1].end <= ranges[0].start
    ensures TotalLength(MergeAll(merged, ranges)) == TotalLength(merged) + |ranges| * SAMPLE
    decreases |ranges|
  {
    if ranges != [] {
      MergeStepTotal(merged, ranges[0]);
      MergeTotal(MergeStep(merged, ranges[0]), ranges[1..]);
    }
  }

  // Block b of a file cut into aligned blocks.
  function Block(b: nat): Range {
    Range(b * SAMPLE, (b + 1) * SAMPLE)
  }

  ghost function BlocksOf(ids: seq<nat>): seq<Range> {
    seq(|ids|, i requires 0 <= i < |ids| => Block(ids[i]))
  }

  ghost predicate DistinctIds(ids: seq<nat>) {
    forall i, j :: 0 <= i < j < |ids| ==> ids[i] != ids[j]
  }

  lemma {:induction false} DistinctCount(ids: seq<nat>, r: Range)
    requires DistinctIds(ids)
    ensures multiset(BlocksOf(ids))[r] <= 1
  {
    if ids != [] {
      var first, rest := Block(ids[0]), BlocksOf(ids[1..]);
      DistinctCount(ids[1..], r);
      assert BlocksOf(ids) == [first] + rest;
      assert multiset(BlocksOf(ids)) == multiset{first} + multiset(rest);
      if r == first { FirstNotInRest(ids, r); }
    }
  }

  lemma FirstNotInRest(ids: seq<nat>, r: Range)
    requires ids != [] && DistinctIds(ids) && r == Block(ids[0])
    ensures r !in BlocksOf(ids[1..])
  {
  }

  lemma OrderedBlocks(ids: seq<nat>, a: Range, b: Range)
    requires a in BlocksOf(ids) && b in BlocksOf(ids) && a != b && RangeLe(a, b)
    ensures a.end <= b.start
  {
  }

  // Sorting distinct blocks puts them one after the other.
  lemma SortedBlocksApart(ids: seq<nat>)
    requires DistinctIds(ids)
    ensures Apart(Sort(RangeLe, BlocksOf(ids)))
    ensures SampleLong(Sort(RangeLe, BlocksOf(ids)))
  {
    var raw := BlocksOf(ids);
    var sorted := Sort(RangeLe, raw);
    RangeLeTotal();
    SortSorts(RangeLe, raw);
    SortMembers(RangeLe, raw);
    forall i | 0 <= i < |sorted| ensures sorted[i].end == sorted[i].start + SAMPLE { assert sorted[i] in raw; }
    forall i, j | 0 <= i < j < |sorted| ensures sorted[i].end <= sorted[j].start {
      assert RangeLe(sorted[i], sorted[j]) && sorted[i] in raw && sorted[j] in raw;
      TwoOf(sorted, i, j);
      DistinctCount(ids, sorted[i]);
      OrderedBlocks(ids, sorted[i], sorted[j]);
    }
  }

  // Random sampling of a file of whole blocks reads exactly two edge blocks and the drawn ones,
  // however neighbouring blocks merge.
  lemma RandomTotal(blocks: nat, n: nat, chosen: seq<nat>)
    requires blocks >= 2 && ValidDraw(blocks * SAMPLE, n, chosen)
    ensures InteriorBlockCount(blocks * SAMPLE) == blocks - 2
    ensures TotalLength(PlanOf(Sampling(SAMPLE, n, true), blocks * SAMPLE, chosen)) == (2 + Min(n, blocks - 2)) * SAMPLE
  {
    var size := blocks * SAMPLE;
    DivUnique(size + SAMPLE - 1, SAMPLE, blocks);
    var ids := [0, blocks - 1] + chosen;
    assert DistinctIds(ids);
    AlignedRaw(blocks, n, chosen);
    SortedBlocksApart(ids);
    MergeTotal([], Sort(RangeLe, BlocksOf(ids)));
  }

  lemma AlignedRaw(blocks: nat, n: nat, chosen: seq<nat>)
    requires blocks >= 2 && forall i :: 0 <= i < |chosen| ==> 1 <= chosen[i] <= blocks - 2
    ensures RawRanges(Sampling(SAMPLE, n, true), blocks * SAMPLE, chosen) == BlocksOf([0, blocks - 1] + chosen)
  {
  }

  // ---- the large fixture always has an unread interior byte ----

  const LARGE_BYTES: nat := 8 * MIB

  // Any 95 or fewer numbers leave one of 16, ..., 111 out.
  lemma {:induction false} Pigeonhole(chosen: seq<nat>, low: nat, high: nat) returns (b: nat)
    requires low <= high && |chosen| < high - low
    ensures low <= b < high && b !in chosen
    decreases |chosen|
  {
    if chosen == [] {
      b := low;
    } else {
      var rest, first := chosen[1..], chosen[0];
      if exists i :: 0 <= i < |rest| && rest[i] == high - 1 {
        var i :| 0 <= i < |rest| && rest[i] == high - 1;
        var fewer := chosen[..i + 1] + chosen[i + 2..];
        b := Pigeonhole(fewer, low, high - 1);
        assert chosen[i + 1] == high - 1;
        assert forall x :: x in chosen ==> x in fewer || x == high - 1;
      } else if first == high - 1 {
        b := Pigeonhole(rest, low, high - 1);
        assert chosen == [first] + rest;
      } else {
        b := high - 1;
        assert chosen == [first] + rest;
      }
    }
  }

  lemma EvenMiss(n: nat, i: nat)
    requires (n == 8 || n == 32) && 1 <= i <= n
    ensures !Holds(EvenBlock(LARGE_BYTES, n, i), 1100000)
  {
  }

  lemma DeterministicMiss(s: Sampling, chosen: seq<nat>)
    requires (s.edge == 64 * KIB || s.edge == MIB) && s.interior in {0, 8, 32} && !s.random
    ensures !Covers(RawRanges(s, LARGE_BYTES, chosen), 1100000)
  {
    var raw := RawRanges(s, LARGE_BYTES, chosen);
    forall i | 0 <= i < |raw| ensures !Holds(raw[i], 1100000) {
      if i >= 2 { EvenMiss(s.interior, i - 1); }
    }
  }

  lemma UncoveredByPlan(s: Sampling, size: nat, chosen: seq<nat>, x: nat)
    requires s.edge > 0 && size > 0 && (s.random ==> ValidDraw(size, s.interior, chosen))
    requires !Covers(RawRanges(s, size, chosen), x)
    ensures !Covers(PlanOf(s, size, chosen), x)
  {
    PlanCanonical(s, size, chosen);
  }

  lemma RandomMiss(s: Sampling, chosen: seq<nat>, b: nat)
    requires s.edge == 64 * KIB && s.random && 16 <= b < 112 && b !in chosen
    ensures !Covers(RawRanges(s, LARGE_BYTES, chosen), b * SAMPLE)
  {
  }

  // Every candidate that samples leaves some byte between 1 MiB and 7 MiB of the fixture unread,
  // whatever blocks its seed draws.
  lemma LargeFixtureUnread(c: Candidate, chosen: seq<nat>) returns (x: nat)
    requires !Metadata(c) && (SamplingOf(c).random ==> ValidDraw(LARGE_BYTES, SamplingOf(c).interior, chosen))
    ensures MIB <= x < LARGE_BYTES - MIB
    ensures !Covers(PlanOf(SamplingOf(c), LARGE_BYTES, chosen), x)
  {
    var s := SamplingOf(c);
    if s.random {
      var b := Pigeonhole(chosen, 16, 112);
      x := b * SAMPLE;
      RandomMiss(s, chosen, b);
    } else {
      x := 1100000;
      DeterministicMiss(s, chosen);
    }
    UncoveredByPlan(s, LARGE_BYTES, chosen, x);
  }

  // ---- the total is a number of bytes ----

  ghost function CoveredBytes(p: seq<Range>, size: nat): set<nat> {
    set x: nat | x < size && Covers(p, x)
  }

  ghost function BytesOf(r: Range): set<nat> {
    set x: nat | x < r.end && Holds(r, x)
  }

  lemma {:induction false} RangeSize(r: Range)
    requires r.start <= r.end
    ensures |BytesOf(r)| == r.end - r.start
    decreases r.end
  {
    if r.start == r.end {
      assert BytesOf(r) == {};
    } else {
      var shorter := Range(r.start, r.end - 1);
      RangeSize(shorter);
      assert BytesOf(r) == BytesOf(shorter) + {r.end - 1};
    }
  }

  lemma LastRange(p: seq<Range>, size: nat)
    requires Canonical(p, size) && p != []
    ensures CoveredBytes(p, size) == CoveredBytes(p[..|p| - 1], size) + BytesOf(p[|p| - 1])
    ensures CoveredBytes(p[..|p| - 1], size) !! BytesOf(p[|p| - 1])
  {
    var front, last := p[..|p| - 1], p[|p| - 1];
    assert front + [last] == p;
    forall x: nat ensures Covers(p, x) <==> Covers(front, x) || Holds(last, x) {
      CoversConcat(front, [last], x);
      assert Covers([last], x) <==> Holds(last, x) by { assert [last][0] == last; }
    }
  }

  // The length of a plan is the number of different bytes that it covers.
  lemma {:induction false} TotalIsCount(p: seq<Range>, size: nat)
    requires Canonical(p, size)
    ensures TotalLength(p) == |CoveredBytes(p, size)|
    decreases |p|
  {
    if p == [] {
      assert CoveredBytes(p, size) == {};
    } else {
      TotalIsCount(p[..|p| - 1], size);
      RangeSize(p[|p| - 1]);
      LastRange(p, size);
    }
  }
}
