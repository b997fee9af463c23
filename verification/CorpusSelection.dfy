/**
 * Greedy corpus selection (`greedy_select` in scripts/select-test-corpus.py): repeatedly take the
 * file that adds the most uncovered features, the smaller file on a tie, within an optional byte
 * budget. A file's feature set is an input; `remaining` is walked in an arbitrary order, as a
 * Python set is.
 */
module CorpusSelection {
  import opened Basics

  type FileId = nat
  type Feature = string

  datatype Media = Media(features: set<Feature>, size: nat)

  type Library = map<FileId, Media>

  // ---- vocabulary ----

  ghost predicate Known(files: Library, ids: seq<FileId>) {
    ids == [] || (Known(files, Front(ids)) && Last(ids) in files)
  }

  ghost function Front<T>(s: seq<T>): seq<T>
    requires s != []
  {
    s[..|s| - 1]
  }

  ghost function Last<T>(s: seq<T>): T
    requires s != []
  {
    s[|s| - 1]
  }

  ghost function Covered(files: Library, ids: seq<FileId>): set<Feature>
    requires Known(files, ids)
  {
    if ids == [] then {} else Covered(files, Front(ids)) + files[Last(ids)].features
  }

  ghost function TotalSize(files: Library, ids: seq<FileId>): nat
    requires Known(files, ids)
  {
    if ids == [] then 0 else TotalSize(files, Front(ids)) + files[Last(ids)].size
  }

  function Gain(m: Media, covered: set<Feature>): nat {
    |m.features - covered|
  }

  predicate Fits(cap: Option<nat>, total: nat, size: nat) {
    cap.None? || total + size <= cap.value
  }

  // b is at least as good a choice as m: more new features, or as many from a file no larger.
  ghost predicate Beats(b: Media, m: Media, covered: set<Feature>) {
    || Gain(b, covered) > Gain(m, covered)
    || (Gain(b, covered) == Gain(m, covered) && b.size <= m.size)
  }

  ghost predicate Choosable(files: Library, cap: Option<nat>, prefix: seq<FileId>, total: nat, id: FileId) {
    id in files && id !in prefix && Fits(cap, total, files[id].size)
  }

  // The reference: b is a best file among all those not yet taken that fit the budget now.
  ghost predicate BestChoice(files: Library, cap: Option<nat>, prefix: seq<FileId>, b: FileId)
    requires Known(files, prefix)
  {
    var covered, total := Covered(files, prefix), TotalSize(files, prefix);
    && Choosable(files, cap, prefix, total, b)
    && Gain(files[b], covered) > 0
    && forall id :: Choosable(files, cap, prefix, total, id) ==> Beats(files[b], files[id], covered)
  }

  ghost predicate GreedyRun(files: Library, cap: Option<nat>, selected: seq<FileId>)
    ensures GreedyRun(files, cap, selected) ==> Known(files, selected)
  {
    selected == [] ||
    (GreedyRun(files, cap, Front(selected)) && BestChoice(files, cap, Front(selected), Last(selected)))
  }

  ghost predicate Exhausted(files: Library, cap: Option<nat>, selected: seq<FileId>)
    requires Known(files, selected)
  {
    forall id :: Choosable(files, cap, selected, TotalSize(files, selected), id) ==>
                   files[id].features <= Covered(files, selected)
  }

  ghost predicate Distinct(s: seq<FileId>) {
    forall i, j :: 0 <= i < j < |s| ==> s[i] != s[j]
  }

  // ---- the code ----

  // The inner loop: a best remaining file, or None when no remaining file adds a feature.
  method BestRemaining(files: Library, covered: set<Feature>, remaining: set<FileId>)
    returns (best: Option<FileId>, bestNew: set<Feature>)
    requires remaining <= files.Keys
    ensures best.None? ==> forall id :: id in remaining ==> Gain(files[id], covered) == 0
    ensures best.Some? ==>
              && best.value in remaining
              && bestNew == files[best.value].features - covered && |bestNew| > 0
              && forall id :: id in remaining ==> Beats(files[best.value], files[id], covered)
  {
    best, bestNew := None, {};
    var bestSize := 0;
    var pending := remaining;
    while pending != {}
      invariant pending <= remaining
      invariant best.None? ==>
                  bestNew == {} && forall id :: id in remaining && id !in pending ==> Gain(files[id], covered) == 0
      invariant best.Some? ==>
                  && best.value in remaining
                  && bestNew == files[best.value].features - covered && |bestNew| > 0
                  && bestSize == files[best.value].size
                  && forall id :: id in remaining && id !in pending ==> Beats(files[best.value], files[id], covered)
      decreases |pending|
    {
      var fid :| fid in pending;
      pending := pending - {fid};
      var newFeats, size := files[fid].features - covered, files[fid].size;
      if |newFeats| > |bestNew| || (|newFeats| == |bestNew| && |newFeats| > 0 && size < bestSize) {
        best, bestNew, bestSize := Some(fid), newFeats, size;
      }
    }
  }

  // What the outer loop maintains. A file leaves `remaining` when it is taken or when it stops
  // fitting, and a file that does not fit never fits again.
  ghost predicate Selecting(files: Library, cap: Option<nat>, selected: seq<FileId>,
                            covered: set<Feature>, total: nat, remaining: set<FileId>)
  {
    && GreedyRun(files, cap, selected) && Distinct(selected)
    && covered == Covered(files, selected)
    && total == TotalSize(files, selected)
    && (cap.Some? ==> total <= cap.value)
    && remaining <= files.Keys
    && (forall id :: id in selected ==> id !in remaining)
    && forall id :: id in files && id !in remaining && id !in selected ==> !Fits(cap, total, files[id].size)
  }

  method GreedySelect(files: Library, maxFiles: int, cap: Option<nat>)
    returns (selected: seq<FileId>, covered: set<Feature>, totalSize: nat)
    ensures GreedyRun(files, cap, selected) && Distinct(selected)
    ensures |selected| <= Max(0, maxFiles)
    ensures covered == Covered(files, selected)
    ensures totalSize == TotalSize(files, selected)
    ensures cap.Some? ==> totalSize <= cap.value
    ensures |selected| < maxFiles ==> Exhausted(files, cap, selected)
    ensures |selected| < maxFiles ==>
              forall id :: id in files && id !in selected && (cap.None? || totalSize + files[id].size <= cap.value) ==>
                             files[id].features <= covered
  {
    selected, covered, totalSize := [], {}, 0;
    var remaining := files.Keys;
    while remaining != {} && |selected| < maxFiles
      invariant |selected| <= Max(0, maxFiles)
      invariant Selecting(files, cap, selected, covered, totalSize, remaining)
      decreases |remaining|
    {
      var done;
      selected, covered, totalSize, remaining, done := Round(files, cap, selected, covered, totalSize, remaining);
      if done { return; }
    }
    if |selected| < maxFiles {
      ExhaustedWhenNoGain(files, cap, selected, covered, totalSize, remaining);
    }
  }

  // One round of the outer loop: it takes the best remaining file, drops it if it does not fit, or
  // finds that none adds a feature.
  method Round(files: Library, cap: Option<nat>, selected0: seq<FileId>, covered0: set<Feature>, total0: nat,
               remaining0: set<FileId>)
    returns (selected: seq<FileId>, covered: set<Feature>, total: nat, remaining: set<FileId>, done: bool)
    requires Selecting(files, cap, selected0, covered0, total0, remaining0)
    ensures Selecting(files, cap, selected, covered, total, remaining) && |selected| <= |selected0| + 1
    ensures if done then selected == selected0 && Exhausted(files, cap, selected) else |remaining| < |remaining0|
  {
    selected, covered, total, remaining, done := selected0, covered0, total0, remaining0, false;
    var best, bestNew := BestRemaining(files, covered, remaining);
    if best.None? {
      ExhaustedWhenNoGain(files, cap, selected, covered, total, remaining);
      done := true;
      return;
    }
    var fid := best.value;
    remaining := remaining - {fid};
    if !Fits(cap, total, files[fid].size) {
      DropUnfit(files, cap, selected, covered, total, remaining0, fid);
      return;
    }
    TakeBest(files, cap, selected, covered, total, remaining0, fid);
    selected, covered, total := selected + [fid], covered + bestNew, total + files[fid].size;
  }

  lemma NoGainIff<T>(a: set<T>, b: set<T>)
    ensures |a - b| == 0 <==> a <= b
  {
    if |a - b| == 0 {
      forall x | x in a ensures x in b { assert x !in a - b; }
    }
  }

  lemma ExhaustedWhenNoGain(files: Library, cap: Option<nat>, selected: seq<FileId>,
                            covered: set<Feature>, total: nat, remaining: set<FileId>)
    requires Selecting(files, cap, selected, covered, total, remaining)
    requires forall id :: id in remaining ==> Gain(files[id], covered) == 0
    ensures Exhausted(files, cap, selected)
  {
    forall id | Choosable(files, cap, selected, total, id) ensures files[id].features <= covered {
      NoGainIff(files[id].features, covered);
    }
  }

  lemma ExtendBy(files: Library, selected: seq<FileId>, b: FileId)
    requires Known(files, selected) && b in files
    ensures Front(selected + [b]) == selected && Last(selected + [b]) == b
    ensures Known(files, selected + [b])
    ensures Covered(files, selected + [b]) == Covered(files, selected) + files[b].features
    ensures TotalSize(files, selected + [b]) == TotalSize(files, selected) + files[b].size
  {
  }

  lemma TakeBest(files: Library, cap: Option<nat>, selected: seq<FileId>,
                 covered: set<Feature>, total: nat, remaining: set<FileId>, fid: FileId)
    requires Selecting(files, cap, selected, covered, total, remaining)
    requires fid in remaining && Fits(cap, total, files[fid].size) && Gain(files[fid], covered) > 0
    requires forall id :: id in remaining ==> Beats(files[fid], files[id], covered)
    ensures Selecting(files, cap, selected + [fid], covered + (files[fid].features - covered),
                      total + files[fid].size, remaining - {fid})
  {
    ExtendBy(files, selected, fid);
    assert covered + (files[fid].features - covered) == covered + files[fid].features;
    TakenBest(files, cap, selected, covered, total, remaining, fid);
    TakenLeavesUnfit(files, cap, selected, total, remaining, fid);
  }

  lemma TakenBest(files: Library, cap: Option<nat>, selected: seq<FileId>,
                  covered: set<Feature>, total: nat, remaining: set<FileId>, fid: FileId)
    requires Selecting(files, cap, selected, covered, total, remaining)
    requires fid in remaining && Fits(cap, total, files[fid].size) && Gain(files[fid], covered) > 0
    requires forall id :: id in remaining ==> Beats(files[fid], files[id], covered)
    ensures GreedyRun(files, cap, selected + [fid]) && Distinct(selected + [fid])
  {
    assert BestChoice(files, cap, selected, fid);
    ExtendBy(files, selected, fid);
  }

  lemma TakenLeavesUnfit(files: Library, cap: Option<nat>, selected: seq<FileId>, total: nat, remaining: set<FileId>,
                         fid: FileId)
    requires fid in files
    requires forall id :: id in files && id !in remaining && id !in selected ==> !Fits(cap, total, files[id].size)
    ensures forall id :: id in files && id !in remaining - {fid} && id !in selected + [fid] ==>
              !Fits(cap, total + files[fid].size, files[id].size)
  {
  }

  lemma DropUnfit(files: Library, cap: Option<nat>, selected: seq<FileId>,
                  covered: set<Feature>, total: nat, remaining: set<FileId>, fid: FileId)
    requires Selecting(files, cap, selected, covered, total, remaining)
    requires fid in remaining && !Fits(cap, total, files[fid].size)
    ensures Selecting(files, cap, selected, covered, total, remaining - {fid})
  {
  }

  // ---- what a greedy run is, pick by pick ----

  // A feature is covered exactly when some file has it.
  lemma {:induction false} CoveredIff(files: Library, ids: seq<FileId>, x: Feature)
    requires Known(files, ids)
    ensures (forall i :: 0 <= i < |ids| ==> ids[i] in files)
    ensures x in Covered(files, ids) <==> exists i :: 0 <= i < |ids| && ids[i] in files && x in files[ids[i]].features
  {
    if ids != [] {
      CoveredIff(files, Front(ids), x);
      assert forall i :: 0 <= i < |ids| - 1 ==> Front(ids)[i] == ids[i];
    }
  }

  // Pick i adds a feature, stays within the budget, and no file that is still free and would stay
  // within the budget adds more features, or as many and is smaller.
  lemma {:induction false} PickIsBest(files: Library, cap: Option<nat>, selected: seq<FileId>, i: nat, id: FileId)
    requires GreedyRun(files, cap, selected) && i < |selected|
    ensures Known(files, selected[..i]) && selected[i] in files
    ensures var covered, total := Covered(files, selected[..i]), TotalSize(files, selected[..i]);
            var pick := files[selected[i]];
            && selected[i] !in selected[..i] && !(pick.features <= covered)
            && (cap.Some? ==> total + pick.size <= cap.value)
            && (id in files && id !in selected[..i] && (cap.Some? ==> total + files[id].size <= cap.value) ==>
                  var m := files[id];
                  && |m.features - covered| <= |pick.features - covered|
                  && (|m.features - covered| == |pick.features - covered| ==> pick.size <= m.size))
    decreases |selected|
  {
    if i < |selected| - 1 {
      PickIsBest(files, cap, Front(selected), i, id);
      assert Front(selected)[..i] == selected[..i] && Front(selected)[i] == selected[i];
    } else {
      assert selected[..i] == Front(selected);
      NoGainIff(files[selected[i]].features, Covered(files, selected[..i]));
    }
  }

  // ---- the approximation bound ----

  ghost function Pow(b: nat, e: nat): nat {
    if e == 0 then 1 else b * Pow(b, e - 1)
  }

  lemma Smaller<T>(a: set<T>, b: set<T>)
    requires a <= b
    ensures |a| <= |b|
  {
    assert b == a + (b - a);
    assert |b| == |a| + |b - a|;
  }

  lemma DifferenceBound<T>(a: set<T>, b: set<T>)
    ensures |a - b| >= |a| - |b|
  {
  }

  lemma AddedSize<T>(a: set<T>, b: set<T>, covered: set<T>)
    ensures |a + b - covered| <= |a - covered| + |b - covered|
  {
    assert a + b - covered == (a - covered) + ((b - covered) - (a - covered));
    Smaller((b - covered) - (a - covered), b - covered);
  }

  // Any files together add at most their number times the best single gain.
  lemma {:induction false} UnionBound(files: Library, ids: seq<FileId>, covered: set<Feature>, g: nat)
    requires Known(files, ids) && forall id :: id in files ==> Gain(files[id], covered) <= g
    ensures |Covered(files, ids) - covered| <= |ids| * g
  {
    if ids == [] {
      assert Covered(files, ids) - covered == {};
    } else {
      UnionBound(files, Front(ids), covered, g);
      AddedSize(Covered(files, Front(ids)), files[Last(ids)].features, covered);
      assert Gain(files[Last(ids)], covered) <= g;
      OneMore(|ids| - 1, g);
    }
  }

  lemma OneMore(n: nat, g: nat)
    ensures (n + 1) * g == n * g + g
  {
  }

  lemma {:induction false} MemberCovered(files: Library, ids: seq<FileId>, id: FileId)
    requires Known(files, ids) && id in ids
    ensures id in files && files[id].features <= Covered(files, ids)
  {
    if id != Last(ids) {
      assert ids == Front(ids) + [Last(ids)];
      MemberCovered(files, Front(ids), id);
    }
  }

  // With no budget, a best choice is best among all files: a file already taken gains nothing.
  lemma BestOfAll(files: Library, prefix: seq<FileId>, b: FileId, id: FileId)
    requires Known(files, prefix) && BestChoice(files, None, prefix, b) && id in files
    ensures Gain(files[id], Covered(files, prefix)) <= Gain(files[b], Covered(files, prefix))
  {
    if id in prefix {
      MemberCovered(files, prefix, id);
      NoGainIff(files[id].features, Covered(files, prefix));
    } else {
      assert Choosable(files, None, prefix, TotalSize(files, prefix), id);
    }
  }

  lemma GapBound(files: Library, prefix: seq<FileId>, b: FileId, best: seq<FileId>)
    requires Known(files, prefix) && BestChoice(files, None, prefix, b) && Known(files, best)
    ensures |Covered(files, best)| - |Covered(files, prefix)| <= |best| * Gain(files[b], Covered(files, prefix))
  {
    var covered := Covered(files, prefix);
    forall id | id in files ensures Gain(files[id], covered) <= Gain(files[b], covered) {
      BestOfAll(files, prefix, b, id);
    }
    UnionBound(files, best, covered, Gain(files[b], covered));
    DifferenceBound(Covered(files, best), covered);
  }

  // A step that gains at least a k-th of the gap to some k files closes a k-th of it.
  lemma StepClosesGap(m: Media, covered: set<Feature>, opt: nat, j: nat, k: nat)
    requires opt - |covered| <= j * Gain(m, covered) && j <= k
    ensures k * (opt - |covered + m.features|) <= (k - 1) * (opt - |covered|)
  {
  }

  lemma {:induction false} GeometricDecay(files: Library, selected: seq<FileId>, best: seq<FileId>, k: nat)
    requires GreedyRun(files, None, selected)
    requires Known(files, best) && |best| <= k && k >= 1
    ensures Pow(k, |selected|) * (|Covered(files, best)| - |Covered(files, selected)|)
            <= Pow(k - 1, |selected|) * |Covered(files, best)|
  {
    if selected != [] {
      var n, opt := |selected|, |Covered(files, best)|;
      GeometricDecay(files, Front(selected), best, k);
      GapBound(files, Front(selected), Last(selected), best);
      StepClosesGap(files[Last(selected)], Covered(files, Front(selected)), opt, |best|, k);
      DecayStep(Pow(k, n - 1), Pow(k - 1, n - 1), k, opt - |Covered(files, selected)|,
                opt - |Covered(files, Front(selected))|, opt);
    }
  }

  lemma DecayStep(p: nat, q: nat, k: nat, after: int, before: int, opt: nat)
    requires k >= 1 && k * after <= (k - 1) * before && p * before <= q * opt
    ensures (k * p) * after <= ((k - 1) * q) * opt
  {
  }

  lemma {:induction false} EverythingCovered(files: Library, selected: seq<FileId>, best: seq<FileId>)
    requires Known(files, selected) && Exhausted(files, None, selected) && Known(files, best)
    ensures Covered(files, best) <= Covered(files, selected)
  {
    if best != [] {
      EverythingCovered(files, selected, Front(best));
      if Last(best) in selected {
        MemberCovered(files, selected, Last(best));
      } else {
        assert Choosable(files, None, selected, TotalSize(files, selected), Last(best));
      }
    }
  }

  // `got` features miss at most the (1 - 1/k)^k share of `opt`.
  ghost predicate NearlyReaches(got: nat, opt: nat, k: nat)
    requires k >= 1
  {
    Pow(k, k) * (opt - got) <= Pow(k - 1, k) * opt
  }

  lemma CoversAtLeast(files: Library, selected: seq<FileId>, best: seq<FileId>, k: nat)
    requires Known(files, selected) && Exhausted(files, None, selected) && Known(files, best) && k >= 1
    ensures NearlyReaches(|Covered(files, selected)|, |Covered(files, best)|, k)
  {
    EverythingCovered(files, selected, best);
    Smaller(Covered(files, best), Covered(files, selected));
    Signs(Pow(k, k), |Covered(files, best)|, |Covered(files, selected)|, Pow(k - 1, k));
  }

  // With no budget and room for k files, the selection misses at most the (1 - 1/k)^k share of
  // the best coverage any k files reach; a run that stops early covers everything.
  lemma NearOptimal(files: Library, selected: seq<FileId>, best: seq<FileId>, k: nat)
    requires k >= 1 && Known(files, best) && |best| <= k
    requires GreedyRun(files, None, selected) && |selected| <= k
    requires |selected| < k ==> Exhausted(files, None, selected)
    ensures NearlyReaches(|Covered(files, selected)|, |Covered(files, best)|, k)
  {
    if |selected| == k {
      GeometricDecay(files, selected, best, k);
    } else {
      CoversAtLeast(files, selected, best, k);
    }
  }

  // What the code returns without a budget, against every choice of k files.
  method SelectNearOptimal(files: Library, k: nat) returns (selected: seq<FileId>, covered: set<Feature>, total: nat)
    requires k >= 1
    ensures Known(files, selected) && |selected| <= k && covered == Covered(files, selected)
    ensures forall best :: Known(files, best) && |best| <= k ==> NearlyReaches(|covered|, |Covered(files, best)|, k)
  {
    selected, covered, total := GreedySelect(files, k, None);
    forall best | Known(files, best) && |best| <= k
      ensures NearlyReaches(|covered|, |Covered(files, best)|, k)
    {
      NearOptimal(files, selected, best, k);
    }
  }

  lemma Signs(p: nat, opt: nat, got: nat, q: nat)
    requires opt <= got
    ensures p * (opt - got) <= q * opt
  {
  }
}
