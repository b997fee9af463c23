/**
 * Which byte ranges a partial fingerprint reads (`sample_plan` and `first_unread` in
 * scripts/media-evidence-fingerprint.py). The blocks that a seed draws are an input: any distinct
 * interior blocks, as many as asked for and available.
 */
module SamplePlan {
  import opened Basics
  import opened Sorting

  const KIB: nat := 1024
  const MIB: nat := 1024 * 1024
  const SAMPLE: nat := 64 * 1024

  // The half-open byte range [start, end).
  datatype Range = Range(start: nat, end: nat)

  datatype Sampling = Sampling(edge: nat, interior: nat, random: bool)

  datatype Candidate = Meta | MetaCtime | Ht64 | Ht1m | Ht64I8 | Ht64I32 | Rnd64I8 | Rnd64I32

  predicate Metadata(c: Candidate) {
    c.Meta? || c.MetaCtime?
  }

  function SamplingOf(c: Candidate): (s: Sampling)
    ensures s.edge == 0 <==> Metadata(c)
  {
    match c
    case Meta => Sampling(0, 0, false)
    case MetaCtime => Sampling(0, 0, false)
    case Ht64 => Sampling(64 * KIB, 0, false)
    case Ht1m => Sampling(MIB, 0, false)
    case Ht64I8 => Sampling(64 * KIB, 8, false)
    case Ht64I32 => Sampling(64 * KIB, 32, false)
    case Rnd64I8 => Sampling(64 * KIB, 8, true)
    case Rnd64I32 => Sampling(64 * KIB, 32, true)
  }

  // ---- the ranges before merging ----

  function InteriorBlockCount(size: nat): nat {
    Max(0, (size + SAMPLE - 1) / SAMPLE - 2)
  }

  // What `random.Random(seed).sample` may return.
  ghost predicate ValidDraw(size: nat, count: nat, chosen: seq<nat>) {
    && |chosen| == Min(count, InteriorBlockCount(size))
    && (forall i :: 0 <= i < |chosen| ==> 1 <= chosen[i] <= InteriorBlockCount(size))
    && forall i, j :: 0 <= i < j < |chosen| ==> chosen[i] != chosen[j]
  }

  function RandomBlock(size: nat, block: nat): Range {
    Range(block * SAMPLE, Min(size, (block + 1) * SAMPLE))
  }

  function RandomBlocks(size: nat, chosen: seq<nat>): seq<Range> {
    seq(|chosen|, i requires 0 <= i < |chosen| => RandomBlock(size, chosen[i]))
  }

  function EvenBlock(size: nat, count: nat, index: nat): Range {
    var start := index * size / (count + 1) - SAMPLE / 2;
    var clipped := Min(Max(0, start), Max(0, size - SAMPLE));
    Range(clipped, Min(size, clipped + SAMPLE))
  }

  ghost function EvenBlocks(size: nat, count: nat): (r: seq<Range>)
    ensures |r| == count
  {
    seq(count, i requires 0 <= i < count => EvenBlock(size, count, i + 1))
  }

  method EvenlySpacedBlocks(size: nat, count: nat) returns (ranges: seq<Range>)
    ensures ranges == EvenBlocks(size, count)
  {
    ranges := [];
    for index := 1 to count + 1
      invariant ranges == EvenBlocks(size, count)[..index - 1]
    {
      var start := index * size / (count + 1) - SAMPLE / 2;
      start := Min(Max(0, start), Max(0, size - SAMPLE));
      ranges := ranges + [Range(start, Min(size, start + SAMPLE))];
    }
  }

  ghost function RawRanges(s: Sampling, size: nat, chosen: seq<nat>): seq<Range> {
    [Range(0, Min(s.edge, size)), Range(Max(0, size - s.edge), size)] +
    (if s.random then RandomBlocks(size, chosen) else EvenBlocks(size, s.interior))
  }

  // ---- merging ----

  // Python orders pairs by their first and then their second member.
  predicate RangeLe(a: Range, b: Range) {
    a.start < b.start || (a.start == b.start && a.end <= b.end)
  }

  function MergeStep(merged: seq<Range>, r: Range): seq<Range> {
    if merged != [] && r.start <= merged[|merged| - 1].end then
      var last := merged[|merged| - 1];
      merged[|merged| - 1 := Range(last.start, Max(last.end, r.end))]
    else merged + [r]
  }

  ghost function MergeAll(merged: seq<Range>, ranges: seq<Range>): seq<Range>
    decreases |ranges|
  {
    if ranges == [] then merged else MergeAll(MergeStep(merged, ranges[0]), ranges[1..])
  }

  ghost function PlanOf(s: Sampling, size: nat, chosen: seq<nat>): seq<Range> {
    if s.edge == 0 || size == 0 then [] else MergeAll([], Sort(RangeLe, RawRanges(s, size, chosen)))
  }

  method MakePlan(s: Sampling, size: nat, chosen: seq<nat>) returns (merged: seq<Range>)
    ensures merged == PlanOf(s, size, chosen)
  {
    if s.edge == 0 || size == 0 { return []; }
    var ranges := [Range(0, Min(s.edge, size)), Range(Max(0, size - s.edge), size)];
    if s.random {
      ranges := ranges + RandomBlocks(size, chosen);
    } else {
      var blocks := EvenlySpacedBlocks(size, s.interior);
      ranges := ranges + blocks;
    }
    var sorted := Sort(RangeLe, ranges);
    merged := [];
    for i := 0 to |sorted|
      invariant MergeAll(merged, sorted[i..]) == PlanOf(s, size, chosen)
    {
      merged := MergeStep(merged, sorted[i]);
    }
  }

  // ---- what a plan is ----

  predicate Holds(r: Range, x: int) {
    r.start <= x < r.end
  }

  ghost predicate Covers(ranges: seq<Range>, x: int) {
    exists i :: 0 <= i < |ranges| && Holds(ranges[i], x)
  }

  // Non-empty ranges within [0, size), in order, with a gap between any two.
  ghost predicate Canonical(plan: seq<Range>, size: nat) {
    && (forall i :: 0 <= i < |plan| ==> plan[i].start < plan[i].end <= size)
    && forall i, j :: 0 <= i < j < |plan| ==> plan[i].end < plan[j].start
  }

  ghost predicate Mergeable(merged: seq<Range>, ranges: seq<Range>, size: nat) {
    && Canonical(merged, size)
    && (forall i :: 0 <= i < |ranges| ==> ranges[i].start < ranges[i].end <= size)
    && (forall i, j :: 0 <= i < j < |ranges| ==> ranges[i].start <= ranges[j].start)
    && (merged != [] ==> forall i :: 0 <= i < |ranges| ==> merged[|merged| - 1].start <= ranges[i].start)
  }

  ghost function TotalLength(plan: seq<Range>): int {
    if plan == [] then 0 else TotalLength(plan[..|plan| - 1]) + (plan[|plan| - 1].end - plan[|plan| - 1].start)
  }

  lemma MergeStepCovers(merged: seq<Range>, r: Range, x: int)
    requires merged != [] ==> merged[|merged| - 1].start <= r.start
    ensures Covers(MergeStep(merged, r), x) <==> Covers(merged, x) || Holds(r, x)
  {
    var after, n := MergeStep(merged, r), |merged|;
    if Covers(merged, x) {
      var i :| 0 <= i < n && Holds(merged[i], x);
      assert Holds(after[i], x);
    }
    if Holds(r, x) { assert Holds(after[|after| - 1], x); }
    if Covers(after, x) {
      var i :| 0 <= i < |after| && Holds(after[i], x);
      assert Holds(r, x) || (i < n && Holds(merged[i], x));
    }
  }

  lemma CoversFirst(ranges: seq<Range>, x: int)
    requires ranges != []
    ensures Covers(ranges, x) <==> Holds(ranges[0], x) || Covers(ranges[1..], x)
  {
  }

  lemma MergeStepMergeable(merged: seq<Range>, ranges: seq<Range>, size: nat)
    requires Mergeable(merged, ranges, size) && ranges != []
    ensures Mergeable(MergeStep(merged, ranges[0]), ranges[1..], size)
  {
    MergeStepCanonical(merged, ranges[0], size);
  }

  lemma MergeStepCanonical(merged: seq<Range>, r: Range, size: nat)
    requires Canonical(merged, size) && r.start < r.end <= size
    requires merged != [] ==> merged[|merged| - 1].start <= r.start
    ensures var after := MergeStep(merged, r);
            Canonical(after, size) && after != [] && after[|after| - 1].start <= r.start
  {
    var n, after := |merged|, MergeStep(merged, r);
    assert forall i :: 0 <= i < n - 1 ==> after[i] == merged[i];
  }

  lemma {:induction false} MergeAllCanonical(merged: seq<Range>, ranges: seq<Range>, size: nat)
    requires Mergeable(merged, ranges, size)
    ensures Canonical(MergeAll(merged, ranges), size)
    ensures forall x :: Covers(MergeAll(merged, ranges), x) <==> Covers(merged, x) || Covers(ranges, x)
    decreases |ranges|
  {
    if ranges != [] {
      var after := MergeStep(merged, ranges[0]);
      MergeStepMergeable(merged, ranges, size);
      MergeAllCanonical(after, ranges[1..], size);
      forall x ensures Covers(after, x) || Covers(ranges[1..], x) <==> Covers(merged, x) || Covers(ranges, x) {
        MergeStepCovers(merged, ranges[0], x);
        CoversFirst(ranges, x);
      }
    }
  }

  lemma RangeLeTotal()
    ensures TotalOrder(RangeLe)
  {
  }

  lemma RawRangesProper(s: Sampling, size: nat, chosen: seq<nat>)
    requires s.edge > 0 && size > 0 && (s.random ==> ValidDraw(size, s.interior, chosen))
    ensures forall r :: r in RawRanges(s, size, chosen) ==> r.start < r.end <= size
  {
  }

  lemma SortedCovers(raw: seq<Range>, x: int)
    ensures Covers(Sort(RangeLe, raw), x) <==> Covers(raw, x)
  {
    var sorted := Sort(RangeLe, raw);
    SortMembers(RangeLe, raw);
    if Covers(sorted, x) {
      var i :| 0 <= i < |sorted| && Holds(sorted[i], x);
      assert sorted[i] in raw;
    }
    if Covers(raw, x) {
      var i :| 0 <= i < |raw| && Holds(raw[i], x);
      assert raw[i] in sorted;
    }
  }

  lemma SortedMergeable(raw: seq<Range>, size: nat)
    requires forall r :: r in raw ==> r.start < r.end <= size
    ensures Mergeable([], Sort(RangeLe, raw), size)
  {
    var sorted := Sort(RangeLe, raw);
    RangeLeTotal();
    SortSorts(RangeLe, raw);
    SortMembers(RangeLe, raw);
    forall i | 0 <= i < |sorted| ensures sorted[i].start < sorted[i].end <= size { assert sorted[i] in raw; }
    forall i, j | 0 <= i < j < |sorted| ensures sorted[i].start <= sorted[j].start {
      assert RangeLe(sorted[i], sorted[j]);
    }
  }

  // Every plan is canonical and covers exactly what head, tail and interior blocks cover.
  lemma PlanCanonical(s: Sampling, size: nat, chosen: seq<nat>)
    requires s.random ==> ValidDraw(size, s.interior, chosen)
    ensures Canonical(PlanOf(s, size, chosen), size)
    ensures s.edge > 0 && size > 0 ==>
              forall x :: Covers(PlanOf(s, size, chosen), x) <==> Covers(RawRanges(s, size, chosen), x)
  {
    if s.edge > 0 && size > 0 {
      var raw := RawRanges(s, size, chosen);
      RawRangesProper(s, size, chosen);
      SortedMergeable(raw, size);
      MergeAllCanonical([], Sort(RangeLe, raw), size);
      forall x ensures Covers(PlanOf(s, size, chosen), x) <==> Covers(raw, x) { SortedCovers(raw, x); }
    }
  }

  // A canonical list is determined by what it covers, so these two facts fix the plan.
  lemma {:induction false} CanonicalUnique(p: seq<Range>, q: seq<Range>, size: nat)
    requires Canonical(p, size) && Canonical(q, size)
    requires forall x :: Covers(p, x) <==> Covers(q, x)
    ensures p == q
    decreases |p|
  {
    Ends(p, size);
    Ends(q, size);
    if p != [] && q != [] {
      FirstRange(p, q, size);
      FirstRange(q, p, size);
      forall x ensures Covers(p[1..], x) <==> Covers(q[1..], x) {
        RestCovers(p, size, x);
        RestCovers(q, size, x);
      }
      CanonicalUnique(p[1..], q[1..], size);
      assert p == [p[0]] + p[1..] && q == [q[0]] + q[1..];
    }
  }

  // The first range starts with the first covered byte and ends at an uncovered one.
  lemma Ends(p: seq<Range>, size: nat)
    requires Canonical(p, size)
    ensures p == [] ==> forall x :: !Covers(p, x)
    ensures p != [] ==> Covers(p, p[0].start) && !Covers(p, p[0].end)
    ensures p != [] ==> forall x :: Covers(p, x) ==> p[0].start <= x
  {
  }

  lemma RestCovers(p: seq<Range>, size: nat, x: int)
    requires Canonical(p, size) && p != []
    ensures Covers(p[1..], x) <==> Covers(p, x) && p[0].end <= x
  {
  }

  lemma FirstRange(p: seq<Range>, q: seq<Range>, size: nat)
    requires Canonical(p, size) && Canonical(q, size) && p != [] && q != []
    requires forall x :: Covers(p, x) <==> Covers(q, x)
    ensures q[0].start <= p[0].start
    ensures p[0].start == q[0].start ==> p[0].end <= q[0].end
  {
    Ends(p, size);
    Ends(q, size);
    assert !Covers(p, q[0].end);
    assert !Holds(p[0], q[0].end);
  }

  // ---- the first unread byte ----

  method FirstUnread(s: Sampling, size: nat, low: nat, high: nat, chosen: seq<nat>) returns (r: nat)
    requires s.random ==> ValidDraw(size, s.interior, chosen)
    ensures (exists x :: low <= x < high && !Covers(PlanOf(s, size, chosen), x)) ==>
              IsFirstUnread(PlanOf(s, size, chosen), low, high, r)
    ensures (forall x :: low <= x < high ==> Covers(PlanOf(s, size, chosen), x)) ==> r == low
  {
    var plan := MakePlan(s, size, chosen);
    PlanCanonical(s, size, chosen);
    var offset := low;
    for i := 0 to |plan|
      invariant low <= offset
      invariant forall x :: low <= x < offset ==> Covers(plan, x)
      invariant forall j :: 0 <= j < i ==> !Holds(plan[j], offset)
      invariant offset == low || exists j :: 0 <= j < i && offset == plan[j].end
    {
      if plan[i].start <= offset < plan[i].end {
        assert forall x :: offset <= x < plan[i].end ==> Holds(plan[i], x);
        offset := plan[i].end;
      }
    }
    assert !Covers(plan, offset);
    r := if offset < high then offset else low;
  }

  ghost predicate IsFirstUnread(plan: seq<Range>, low: nat, high: nat, r: nat) {
    low <= r < high && !Covers(plan, r) && forall x :: low <= x < r ==> Covers(plan, x)
  }

  // ---- which bytes are read ----

  // The interior blocks are those that are neither the first nor the last.
  lemma InteriorBlocksIff(size: nat, block: nat)
    ensures 1 <= block <= InteriorBlockCount(size) <==> 1 <= block && (block + 1) * SAMPLE < size
  {
  }

  // Within 32 KiB of one of `count` centres that divide the file evenly.
  ghost predicate NearCentre(size: nat, count: nat, x: nat) {
    exists i :: 1 <= i <= count && Around(i * size / (count + 1), x)
  }

  predicate Around(centre: int, x: int) {
    centre - 32 * KIB <= x < centre + 32 * KIB
  }

  lemma CoversConcat(a: seq<Range>, b: seq<Range>, x: int)
    ensures Covers(a + b, x) <==> Covers(a, x) || Covers(b, x)
  {
    if Covers(a, x) {
      var i :| 0 <= i < |a| && Holds(a[i], x);
      assert Holds((a + b)[i], x);
    }
    if Covers(b, x) {
      var i :| 0 <= i < |b| && Holds(b[i], x);
      assert Holds((a + b)[|a| + i], x);
    }
  }

  // Outside head and tail a clipped block reads what the unclipped one would.
  lemma EvenBlockReads(size: nat, count: nat, index: nat, x: nat)
    requires SAMPLE <= x < size - SAMPLE
    ensures Holds(EvenBlock(size, count, index), x) <==> Around(index * size / (count + 1), x)
  {
  }

  lemma RandomBlockReads(size: nat, block: nat, x: nat)
    requires x < size
    ensures Holds(RandomBlock(size, block), x) <==> x / SAMPLE == block
  {
  }

  lemma BlocksRead(s: Sampling, size: nat, chosen: seq<nat>, x: nat)
    requires SAMPLE <= x < size - SAMPLE
    ensures Covers(RandomBlocks(size, chosen), x) <==> x / SAMPLE in chosen
    ensures Covers(EvenBlocks(size, s.interior), x) <==> NearCentre(size, s.interior, x)
  {
    var drawn, even := RandomBlocks(size, chosen), EvenBlocks(size, s.interior);
    forall i | 0 <= i < |chosen| ensures Holds(drawn[i], x) <==> x / SAMPLE == chosen[i] {
      RandomBlockReads(size, chosen[i], x);
    }
    forall i | 0 <= i < |even| ensures Holds(even[i], x) <==> Around((i + 1) * size / (s.interior + 1), x) {
      EvenBlockReads(size, s.interior, i + 1, x);
    }
    if NearCentre(size, s.interior, x) {
      var i :| 1 <= i <= s.interior && Around(i * size / (s.interior + 1), x);
      assert Holds(even[i - 1], x);
    }
  }

  // A byte is read exactly when it lies in the head, in the tail, or in a sample of the interior.
  lemma PlanReads(s: Sampling, size: nat, chosen: seq<nat>, x: nat)
    requires s.edge >= SAMPLE && x < size && (s.random ==> ValidDraw(size, s.interior, chosen))
    ensures Covers(PlanOf(s, size, chosen), x) <==>
            || x < s.edge || x >= size - s.edge
            || (if s.random then x / SAMPLE in chosen else NearCentre(size, s.interior, x))
  {
    var edges := [Range(0, Min(s.edge, size)), Range(Max(0, size - s.edge), size)];
    var blocks := if s.random then RandomBlocks(size, chosen) else EvenBlocks(size, s.interior);
    PlanCanonical(s, size, chosen);
    assert RawRanges(s, size, chosen) == edges + blocks;
    CoversConcat(edges, blocks, x);
    assert Covers(edges, x) <==> x < s.edge || x >= size - s.edge by {
      assert Holds(edges[0], x) <==> x < s.edge;
      assert Holds(edges[1], x) <==> x >= size - s.edge;
    }
    if s.edge <= x < size - s.edge { BlocksRead(s, size, chosen, x); }
  }

  // In numbers, candidate by candidate.
  lemma CandidateReads(c: Candidate, size: nat, chosen: seq<nat>, x: nat)
    requires x < size && (SamplingOf(c).random ==> ValidDraw(size, SamplingOf(c).interior, chosen))
    ensures var edges := x < 65536 || x >= size - 65536;
            Covers(PlanOf(SamplingOf(c), size, chosen), x) <==>
            match c
            case Meta => false
            case MetaCtime => false
            case Ht64 => edges
            case Ht1m => x < 1048576 || x >= size - 1048576
            case Ht64I8 => edges || NearCentre(size, 8, x)
            case Ht64I32 => edges || NearCentre(size, 32, x)
            case Rnd64I8 => edges || x / 65536 in chosen
            case Rnd64I32 => edges || x / 65536 in chosen
  {
    if !Metadata(c) { PlanReads(SamplingOf(c), size, chosen, x); }
  }

  // The random candidates draw 8 and 32 blocks, or all there are.
  lemma CandidateDraws(c: Candidate, size: nat, chosen: seq<nat>)
    ensures SamplingOf(c).random <==> c.Rnd64I8? || c.Rnd64I32?
    ensures SamplingOf(c).random && ValidDraw(size, SamplingOf(c).interior, chosen) ==>
              |chosen| == Min(if c.Rnd64I8? then 8 else 32, InteriorBlockCount(size))
  {
  }
}
