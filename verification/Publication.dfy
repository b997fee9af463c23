/**
 * `model` in scripts/media-evidence-candidates.py: when a file's evidence would first be durable
 * under each publication strategy, as medians over repetitions of order statistics of the
 * per-file completion times.
 */
module Publication {
  import opened Basics
  import opened Sorting
  import opened Statistics
  import opened Verdict

  datatype Row = Row(queueDelay: Measure, hashSeconds: Measure, probeSeconds: Measure, observed: bool)

  datatype Record = Record(evict: bool, repetitions: seq<seq<Row>>)

  datatype Timings = Timings(barrier: real, firstReady: Measure, medianReady: Measure,
                             firstBatch: map<nat, real>)

  const FLUSH_COUNTS: seq<nat> := [1, 10, 1000]

  function Seconds(m: Measure): real {
    if m.Unavailable? then 0.0 else m.v
  }

  function Completion(row: Row): real {
    Seconds(row.queueDelay) + Seconds(row.hashSeconds) + Seconds(row.probeSeconds)
  }

  function Completions(rows: seq<Row>): (r: seq<real>)
    ensures |r| == |rows|
  {
    if rows == [] then [] else [Completion(rows[0])] + Completions(rows[1..])
  }

  function Observed(rows: seq<Row>): seq<Row> {
    if rows == [] then []
    else if rows[0].observed then [rows[0]] + Observed(rows[1..])
    else Observed(rows[1..])
  }

  function Compared(record: Record): seq<seq<Row>> {
    if record.evict || record.repetitions == [] then record.repetitions else record.repetitions[1..]
  }

  function MedianOrUnavailable(values: seq<Measure>): Measure
    requires values != []
  {
    if Unavailable in values then Unavailable else Value(Median(Values(values)))
  }

  // ---- what one repetition contributes ----

  function Done(rows: seq<Row>): (r: seq<real>)
    ensures |r| == |rows|
  {
    Ascending(Completions(rows))
  }

  function Barrier(rows: seq<Row>): real
    requires rows != []
  {
    Done(rows)[|rows| - 1]
  }

  function FirstBatch(rows: seq<Row>, count: nat): real
    requires rows != [] && count > 0
  {
    Done(rows)[Min(count, |rows|) - 1]
  }

  function FirstReady(rows: seq<Row>): Measure {
    var ready := Done(Observed(rows));
    if ready == [] then Unavailable else Value(ready[0])
  }

  function MedianReady(rows: seq<Row>): Measure {
    var ready := Done(Observed(rows));
    if ready == [] then Unavailable else Value(Median(ready))
  }

  // ---- the series over repetitions ----

  ghost predicate AllPopulated(reps: seq<seq<Row>>) {
    forall i :: 0 <= i < |reps| ==> reps[i] != []
  }

  ghost function Series<T>(f: seq<Row> --> T, reps: seq<seq<Row>>): (r: seq<T>)
    requires forall i :: 0 <= i < |reps| ==> f.requires(reps[i])
    ensures |r| == |reps| && forall i :: 0 <= i < |reps| ==> r[i] == f(reps[i])
  {
    seq(|reps|, i requires 0 <= i < |reps| => f(reps[i]))
  }

  lemma SeriesExtend<T>(f: seq<Row> --> T, reps: seq<seq<Row>>, rows: seq<Row>)
    requires f.requires(rows) && forall i :: 0 <= i < |reps| ==> f.requires(reps[i])
    ensures Series(f, reps + [rows]) == Series(f, reps) + [f(rows)]
  {
  }

  ghost function BarrierSeries(reps: seq<seq<Row>>): (r: seq<real>)
    requires AllPopulated(reps)
    ensures |r| == |reps|
  {
    Series(Barrier, reps)
  }

  ghost function BatchSeries(reps: seq<seq<Row>>, count: nat): (r: seq<real>)
    requires AllPopulated(reps) && count > 0
    ensures |r| == |reps|
  {
    Series(rows requires rows != [] => FirstBatch(rows, count), reps)
  }

  ghost function FirstSeries(reps: seq<seq<Row>>): (r: seq<Measure>)
    ensures |r| == |reps|
  {
    Series(FirstReady, reps)
  }

  ghost function MiddleSeries(reps: seq<seq<Row>>): (r: seq<Measure>)
    ensures |r| == |reps|
  {
    Series(MedianReady, reps)
  }

  lemma BatchSeriesExtend(reps: seq<seq<Row>>, rows: seq<Row>, count: nat)
    requires AllPopulated(reps) && rows != [] && count > 0
    ensures BatchSeries(reps + [rows], count) == BatchSeries(reps, count) + [FirstBatch(rows, count)]
  {
  }

  // Appends the send time of each first batch of one repetition to its series.
  method AddBatches(batches: map<nat, seq<real>>, rows: seq<Row>) returns (r: map<nat, seq<real>>)
    requires batches.Keys == {1, 10, 1000} && rows != []
    ensures r.Keys == batches.Keys
    ensures forall c :: c in r ==> r[c] == batches[c] + [FirstBatch(rows, c)]
  {
    r := batches;
    var done := Done(rows);
    for k := 0 to |FLUSH_COUNTS|
      invariant r.Keys == {1, 10, 1000}
      invariant forall m :: 0 <= m < k ==>
                  r[FLUSH_COUNTS[m]] == batches[FLUSH_COUNTS[m]] + [FirstBatch(rows, FLUSH_COUNTS[m])]
      invariant forall m :: k <= m < |FLUSH_COUNTS| ==> r[FLUSH_COUNTS[m]] == batches[FLUSH_COUNTS[m]]
    {
      var count := FLUSH_COUNTS[k];
      r := r[count := r[count] + [done[Min(count, |done|) - 1]]];
    }
    assert FLUSH_COUNTS[0] == 1 && FLUSH_COUNTS[1] == 10 && FLUSH_COUNTS[2] == 1000;
  }

  // The four lists that the loop over repetitions fills.
  datatype Lists = Lists(barrier: seq<real>, first: seq<Measure>, middle: seq<Measure>,
                         batches: map<nat, seq<real>>)

  ghost predicate Collected(reps: seq<seq<Row>>, l: Lists) {
    && AllPopulated(reps)
    && l.barrier == BarrierSeries(reps)
    && l.first == FirstSeries(reps) && l.middle == MiddleSeries(reps)
    && l.batches.Keys == {1, 10, 1000}
    && l.batches[1] == BatchSeries(reps, 1) && l.batches[10] == BatchSeries(reps, 10)
    && l.batches[1000] == BatchSeries(reps, 1000)
  }

  method AddRepetition(l: Lists, rows: seq<Row>, ghost reps: seq<seq<Row>>) returns (r: Lists)
    requires Collected(reps, l) && rows != []
    ensures Collected(reps + [rows], r)
  {
    var batches := AddBatches(l.batches, rows);
    r := Lists(l.barrier + [Barrier(rows)], l.first + [FirstReady(rows)],
               l.middle + [MedianReady(rows)], batches);
    SeriesExtend(Barrier, reps, rows);
    SeriesExtend(FirstReady, reps, rows);
    SeriesExtend(MedianReady, reps, rows);
    BatchSeriesExtend(reps, rows, 1);
    BatchSeriesExtend(reps, rows, 10);
    BatchSeriesExtend(reps, rows, 1000);
  }

  method Collect(reps: seq<seq<Row>>) returns (r: Option<Lists>)
    ensures r.None? <==> !AllPopulated(reps)
    ensures r.Some? ==> Collected(reps, r.value)
  {
    r := Some(NO_LISTS);
    NothingCollected();
    for i := 0 to |reps|
      invariant CollectedUpTo(reps, i, r)
    {
      r := AddNext(reps, i, r.value);
      if r.None? { return; }
    }
    assert reps[..|reps|] == reps;
  }

  ghost predicate CollectedUpTo(reps: seq<seq<Row>>, i: nat, r: Option<Lists>) {
    i <= |reps| && r.Some? && Collected(reps[..i], r.value)
  }

  // The lists with repetition i; None if it has no files.
  method AddNext(reps: seq<seq<Row>>, i: nat, l: Lists) returns (r: Option<Lists>)
    requires i < |reps| && CollectedUpTo(reps, i, Some(l))
    ensures if r.None? then !AllPopulated(reps) else CollectedUpTo(reps, i + 1, r)
  {
    if reps[i] == [] { return None; }
    var more := AddRepetition(l, reps[i], reps[..i]);
    assert reps[..i + 1] == reps[..i] + [reps[i]];
    r := Some(more);
  }

  const NO_LISTS := Lists([], [], [], map[1 := [], 10 := [], 1000 := []])

  lemma NothingCollected()
    ensures Collected([], NO_LISTS)
  {
  }

  // `None` stands for the IndexError of a repetition without files and for the StatisticsError
  // of a record without compared repetitions.
  method Model(record: Record) returns (r: Option<Timings>)
    ensures r.None? <==> Compared(record) == [] || !AllPopulated(Compared(record))
    ensures r.Some? ==> IsModel(Compared(record), r.value)
  {
    var lists := Collect(Compared(record));
    if lists.None? || lists.value.barrier == [] { return None; }
    var l := lists.value;
    var firstBatch := MedianEach(l.batches);
    r := Some(Timings(Median(l.barrier), MedianOrUnavailable(l.first), MedianOrUnavailable(l.middle), firstBatch));
  }

  method MedianEach(batches: map<nat, seq<real>>) returns (r: map<nat, real>)
    requires batches.Keys == {1, 10, 1000} && batches[1] != [] && batches[10] != [] && batches[1000] != []
    ensures r.Keys == {1, 10, 1000}
    ensures r[1] == Median(batches[1]) && r[10] == Median(batches[10]) && r[1000] == Median(batches[1000])
  {
    r := map[1 := Median(batches[1]), 10 := Median(batches[10]), 1000 := Median(batches[1000])];
  }

  ghost predicate IsModel(reps: seq<seq<Row>>, t: Timings) {
    && reps != [] && AllPopulated(reps)
    && t.barrier == Median(BarrierSeries(reps))
    && t.firstReady == MedianOrUnavailable(FirstSeries(reps))
    && t.medianReady == MedianOrUnavailable(MiddleSeries(reps))
    && t.firstBatch.Keys == {1, 10, 1000}
    && t.firstBatch[1] == Median(BatchSeries(reps, 1)) && t.firstBatch[10] == Median(BatchSeries(reps, 10))
    && t.firstBatch[1000] == Median(BatchSeries(reps, 1000))
  }

  // ---- what the numbers mean ----

  ghost function Available(stages: seq<Measure>): seq<real> {
    if stages == [] then []
    else (if stages[0].Value? then [stages[0].v] else []) + Available(stages[1..])
  }

  // A completion time is the sum of the stages that were measured.
  lemma CompletionIsSum(row: Row)
    ensures Completion(row) == Sum(Available([row.queueDelay, row.hashSeconds, row.probeSeconds]))
  {
    var q, h, p := row.queueDelay, row.hashSeconds, row.probeSeconds;
    AvailableFirst(q, [h, p]);
    AvailableFirst(h, [p]);
    AvailableFirst(p, []);
  }

  lemma AvailableFirst(m: Measure, rest: seq<Measure>)
    ensures Sum(Available([m] + rest)) == Seconds(m) + Sum(Available(rest))
  {
    var more := Available(rest);
    assert ([m] + rest)[1..] == rest;
    if m.Value? {
      assert ([m.v] + more)[1..] == more;
    } else {
      assert [] + more == more;
    }
  }

  lemma {:induction false} CompletionsAt(rows: seq<Row>, i: nat)
    requires i < |rows|
    ensures Completions(rows)[i] == Completion(rows[i])
  {
    if i > 0 { CompletionsAt(rows[1..], i - 1); }
  }

  // The ready rows are those that were observed, each as often as it occurs.
  lemma {:induction false} ObservedExactly(rows: seq<Row>, row: Row)
    ensures multiset(Observed(rows))[row] == if row.observed then multiset(rows)[row] else 0
  {
    if rows != [] {
      ObservedExactly(rows[1..], row);
      assert rows == [rows[0]] + rows[1..];
    }
  }

  // An as-found record leaves out its first repetition, an evicting one none.
  lemma ComparedExactly(first: seq<Row>, later: seq<seq<Row>>)
    ensures Compared(Record(false, [first] + later)) == later
    ensures Compared(Record(true, [first] + later)) == [first] + later
    ensures forall evict :: Compared(Record(evict, [])) == []
  {
  }

  lemma SortedMedian(s: seq<real>)
    requires s != []
    ensures Median(Ascending(s)) == Median(s)
  {
    AscendingSorted(s);
    SortSorts(RealLe, Ascending(s));
    RealLeTotal();
    SortedUnique(RealLe, Ascending(Ascending(s)), Ascending(s));
  }

  lemma RealLeTotal()
    ensures TotalOrder(RealLe)
  {
  }

  // One repetition: the barrier is its last completion, the first batch of k leaves with the k-th
  // completion or, with fewer files, the last.
  lemma BatchMeaning(rows: seq<Row>, k: nat)
    requires rows != [] && k > 0
    ensures Barrier(rows) == Maximum(Completions(rows))
    ensures HasRank(Completions(rows), Min(k, |rows|) - 1, FirstBatch(rows, k))
  {
    var all := Completions(rows);
    RankOfEntry(all, Min(k, |rows|) - 1);
    AscendingSorted(all);
    assert Barrier(rows) in Ascending(all);
    assert Maximum(all) in Ascending(all);
  }

  // The ready times are the first and the median completion of an observed file, if there is one.
  lemma ReadyMeaning(rows: seq<Row>)
    ensures FirstReady(rows).Unavailable? <==> forall row :: row in rows ==> !row.observed
    ensures MedianReady(rows).Unavailable? <==> FirstReady(rows).Unavailable?
    ensures FirstReady(rows).Value? ==> HasRank(Completions(Observed(rows)), 0, FirstReady(rows).v)
    ensures FirstReady(rows).Value? ==> IsMedian(Completions(Observed(rows)), MedianReady(rows).v)
  {
    SomeObserved(rows);
    if Observed(rows) != [] { ReadyNumbers(Completions(Observed(rows))); }
  }

  lemma ReadyNumbers(ready: seq<real>)
    requires ready != []
    ensures HasRank(ready, 0, Ascending(ready)[0]) && IsMedian(ready, Median(Ascending(ready)))
  {
    RankOfEntry(ready, 0);
    SortedMedian(ready);
    MedianIff(ready, Median(ready));
  }

  lemma SomeObserved(rows: seq<Row>)
    ensures Observed(rows) == [] <==> forall row :: row in rows ==> !row.observed
  {
    forall row ensures row in Observed(rows) <==> row in rows && row.observed {
      ObservedExactly(rows, row);
      assert row in Observed(rows) <==> row in multiset(Observed(rows));
      assert row in rows <==> row in multiset(rows);
    }
    if Observed(rows) != [] { assert Observed(rows)[0] in Observed(rows); }
  }

  // The result: medians over the repetitions.
  lemma ModelMeaning(reps: seq<seq<Row>>, t: Timings)
    requires IsModel(reps, t)
    ensures IsMedian(BarrierSeries(reps), t.barrier)
    ensures IsMedian(BatchSeries(reps, 1), t.firstBatch[1]) && IsMedian(BatchSeries(reps, 10), t.firstBatch[10])
    ensures IsMedian(BatchSeries(reps, 1000), t.firstBatch[1000])
  {
    MedianIff(BarrierSeries(reps), t.barrier);
    MedianIff(BatchSeries(reps, 1), t.firstBatch[1]);
    MedianIff(BatchSeries(reps, 10), t.firstBatch[10]);
    MedianIff(BatchSeries(reps, 1000), t.firstBatch[1000]);
  }

  // The ready times need an observed file in every repetition.
  lemma ModelReadyMeaning(reps: seq<seq<Row>>, t: Timings)
    requires IsModel(reps, t)
    ensures t.firstReady.Value? <==> forall i :: 0 <= i < |reps| ==> FirstSeries(reps)[i].Value?
    ensures t.firstReady.Value? ==> IsMedian(Values(FirstSeries(reps)), t.firstReady.v)
    ensures t.medianReady.Value? <==> forall i :: 0 <= i < |reps| ==> MiddleSeries(reps)[i].Value?
    ensures t.medianReady.Value? ==> IsMedian(Values(MiddleSeries(reps)), t.medianReady.v)
  {
    AvailableMedian(FirstSeries(reps), t.firstReady);
    AvailableMedian(MiddleSeries(reps), t.medianReady);
  }

  lemma SeriesAt(reps: seq<seq<Row>>, i: nat, k: nat)
    requires AllPopulated(reps) && i < |reps| && k > 0
    ensures BarrierSeries(reps)[i] == Barrier(reps[i]) && BatchSeries(reps, k)[i] == FirstBatch(reps[i], k)
    ensures FirstSeries(reps)[i] == FirstReady(reps[i]) && MiddleSeries(reps)[i] == MedianReady(reps[i])
  {
  }

  lemma AvailableMedian(values: seq<Measure>, m: Measure)
    requires values != [] && m == MedianOrUnavailable(values)
    ensures m.Value? <==> forall i :: 0 <= i < |values| ==> values[i].Value?
    ensures m.Value? ==> IsMedian(Values(values), m.v)
  {
    if Unavailable !in values {
      MedianIff(Values(values), m.v);
      assert forall i :: 0 <= i < |values| ==> values[i] in values;
    }
  }

  // ---- the strategies are ordered ----

  lemma {:induction false} ObservedMembers(rows: seq<Row>)
    ensures forall x :: x in Completions(Observed(rows)) ==> x in Completions(rows)
  {
    if rows != [] { ObservedMembers(rows[1..]); }
  }

  lemma DoneBounds(rows: seq<Row>, x: real)
    requires rows != [] && x in Completions(rows)
    ensures FirstBatch(rows, 1) <= x <= Barrier(rows)
  {
    AscendingSorted(Completions(rows));
    var i :| 0 <= i < |rows| && Done(rows)[i] == x;
  }

  // Within one repetition: a batch of j leaves no later than a batch of k >= j, and none later
  // than the barrier.
  lemma BatchOrder(rows: seq<Row>, j: nat, k: nat)
    requires rows != [] && 0 < j <= k
    ensures FirstBatch(rows, j) <= FirstBatch(rows, k) <= Barrier(rows)
  {
    AscendingSorted(Completions(rows));
  }

  lemma ReadyOrder(rows: seq<Row>)
    requires rows != [] && FirstReady(rows).Value?
    ensures MedianReady(rows).Value?
    ensures FirstBatch(rows, 1) <= FirstReady(rows).v <= MedianReady(rows).v <= Barrier(rows)
  {
    var obs := Observed(rows);
    var ready := Done(obs);
    AscendingSorted(Completions(obs));
    ObservedMembers(rows);
    forall x | x in ready ensures FirstBatch(rows, 1) <= x <= Barrier(rows) && ready[0] <= x {
      assert x in Completions(obs);
      DoneBounds(rows, x);
      var i :| 0 <= i < |ready| && ready[i] == x;
    }
    assert ready[0] in ready;
    MedianBetween(ready, ready[0], Barrier(rows));
  }

  // Over all repetitions: the modelled medians keep the order of one repetition, for any
  // timings and any mix of outcomes.
  lemma BatchMediansOrdered(reps: seq<seq<Row>>, j: nat, k: nat)
    requires reps != [] && AllPopulated(reps) && 0 < j <= k
    ensures Median(BatchSeries(reps, j)) <= Median(BatchSeries(reps, k)) <= Median(BarrierSeries(reps))
  {
    forall i | 0 <= i < |reps|
      ensures FirstBatch(reps[i], j) <= FirstBatch(reps[i], k) <= Barrier(reps[i])
    {
      BatchOrder(reps[i], j, k);
    }
    MedianMonotone(BatchSeries(reps, j), BatchSeries(reps, k));
    MedianMonotone(BatchSeries(reps, k), BarrierSeries(reps));
  }

  lemma AvailableTogether(reps: seq<seq<Row>>)
    ensures Unavailable in FirstSeries(reps) <==> Unavailable in MiddleSeries(reps)
  {
  }

  lemma ReadyMediansOrdered(reps: seq<seq<Row>>)
    requires reps != [] && AllPopulated(reps)
    requires Unavailable !in FirstSeries(reps) && Unavailable !in MiddleSeries(reps)
    ensures Median(BatchSeries(reps, 1)) <= Median(Values(FirstSeries(reps)))
    ensures Median(Values(FirstSeries(reps))) <= Median(Values(MiddleSeries(reps)))
    ensures Median(Values(MiddleSeries(reps))) <= Median(BarrierSeries(reps))
  {
    var a, b := Values(FirstSeries(reps)), Values(MiddleSeries(reps));
    forall i | 0 <= i < |reps|
      ensures FirstBatch(reps[i], 1) <= a[i] <= b[i] <= Barrier(reps[i])
    {
      assert FirstSeries(reps)[i] in FirstSeries(reps);
      ReadyOrder(reps[i]);
    }
    MedianMonotone(BatchSeries(reps, 1), a);
    MedianMonotone(a, b);
    MedianMonotone(b, BarrierSeries(reps));
  }

  // The whole result of `model` is ordered: batch of 1 <= of 10 <= of 1000 <= barrier, and
  // batch of 1 <= first ready <= median ready <= barrier, the two ready times being available
  // together.
  lemma ModelOrdered(reps: seq<seq<Row>>, t: Timings)
    requires IsModel(reps, t)
    ensures t.firstBatch[1] <= t.firstBatch[10] <= t.firstBatch[1000] <= t.barrier
    ensures t.firstReady.Value? <==> t.medianReady.Value?
    ensures t.firstReady.Value? ==> t.firstBatch[1] <= t.firstReady.v <= t.medianReady.v <= t.barrier
  {
    BatchMediansOrdered(reps, 1, 10);
    BatchMediansOrdered(reps, 10, 1000);
    AvailableTogether(reps);
    if t.firstReady.Value? { ReadyMediansOrdered(reps); }
  }
}
