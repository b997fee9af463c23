/**
 * Partial fingerprints (`fingerprint`, `read_range`, `make_fingerprint` and the mutation oracle's
 * `classify` in scripts/media-evidence-fingerprint.py): which edits of a file a candidate sees.
 * The digest is a parameter `h` over the bytes fed to the hasher.
 */
module PartialFingerprint {
  import opened Basics
  import opened SamplePlan
  import opened SampleTotals

  datatype Facts = Facts(size: nat, mtimeNs: int, ctimeNs: int, device: int, inode: int, links: int)

  // A file at one moment.
  datatype File = File(content: seq<Byte>, facts: Facts) {
    ghost predicate Valid() {
      |content| == facts.size < LIMIT
    }
  }

  // st_size is a signed 64-bit number.
  const LIMIT: nat := 0x8000_0000_0000_0000

  datatype Fingerprint = Fingerprint(candidate: Candidate, size: nat, mtimeNs: int, ctimeNs: int,
                                     device: int, inode: int, sampleDigest: Digest)

  // ---- the fed bytes ----

  datatype Segment = Segment(start: nat, data: seq<Byte>)

  // int.to_bytes(count, "little")
  function LittleEndian(n: nat, count: nat): (r: seq<Byte>)
    ensures |r| == count
    decreases count
  {
    if count == 0 then [] else [n % 256] + LittleEndian(n / 256, count - 1)
  }

  function Encode(s: Segment): (r: seq<Byte>)
    ensures |r| == 16 + |s.data|
  {
    LittleEndian(s.start, 8) + LittleEndian(|s.data|, 8) + s.data
  }

  ghost function Flatten(f: Segment -> seq<Byte>, segments: seq<Segment>): seq<Byte> {
    if segments == [] then [] else f(segments[0]) + Flatten(f, segments[1..])
  }

  ghost function EncodeAll(segments: seq<Segment>): seq<Byte> {
    Flatten(Encode, segments)
  }

  function Capacity(count: nat): nat {
    if count == 0 then 1 else 256 * Capacity(count - 1)
  }

  ghost function Number(bytes: seq<Byte>): nat {
    if bytes == [] then 0 else bytes[0] + 256 * Number(bytes[1..])
  }

  // The bytes stand for the number, the lowest first.
  lemma {:induction false} LittleEndianRoundTrip(n: nat, count: nat)
    requires n < Capacity(count)
    ensures Number(LittleEndian(n, count)) == n
    decreases count
  {
    if count > 0 { LittleEndianRoundTrip(n / 256, count - 1); }
  }

  lemma {:induction false} LittleEndianInjective(a: nat, b: nat, count: nat)
    requires a < Capacity(count) && b < Capacity(count) && LittleEndian(a, count) == LittleEndian(b, count)
    ensures a == b
    decreases count
  {
    if count > 0 {
      var s, t := LittleEndian(a, count), LittleEndian(b, count);
      assert s[0] == a % 256 && t[0] == b % 256;
      assert s[1..] == LittleEndian(a / 256, count - 1) && t[1..] == LittleEndian(b / 256, count - 1);
      LittleEndianInjective(a / 256, b / 256, count - 1);
    }
  }

  ghost predicate Small(s: Segment) {
    s.start < LIMIT && |s.data| < LIMIT
  }

  lemma WordInjective(a: nat, b: nat)
    requires a < LIMIT && b < LIMIT && LittleEndian(a, 8) == LittleEndian(b, 8)
    ensures a == b
  {
    assert LIMIT <= Capacity(8) by {
      assert Capacity(2) == 256 * 256;
      assert Capacity(4) == 256 * 256 * Capacity(2);
      assert Capacity(6) == 256 * 256 * Capacity(4);
      assert Capacity(8) == 256 * 256 * Capacity(6);
    }
    LittleEndianInjective(a, b, 8);
  }

  lemma SplitAt<T>(u: seq<T>, v: seq<T>, x: seq<T>, y: seq<T>)
    requires |u| == |v| && u + x == v + y
    ensures u == v && x == y
  {
    assert u == (u + x)[..|u|] && v == (v + y)[..|v|];
    assert x == (u + x)[|u|..] && y == (v + y)[|v|..];
  }

  lemma SplitHeader<T>(s: seq<T>, l: seq<T>, d: seq<T>, x: seq<T>, s': seq<T>, l': seq<T>, d': seq<T>, y: seq<T>)
    requires |s| == |s'| && |l| == |l'| && s + l + d + x == s' + l' + d' + y
    ensures s == s' && l == l' && d + x == d' + y
  {
    assert s + l + d + x == s + (l + (d + x));
    assert s' + l' + d' + y == s' + (l' + (d' + y));
    SplitAt(s, s', l + (d + x), l' + (d' + y));
    SplitAt(l, l', d + x, d' + y);
  }

  // The length written before the data says where the next segment begins.
  lemma EncodePrefix(a: Segment, b: Segment, x: seq<Byte>, y: seq<Byte>)
    requires Small(a) && Small(b) && Encode(a) + x == Encode(b) + y
    ensures a == b && x == y
  {
    SplitHeader(LittleEndian(a.start, 8), LittleEndian(|a.data|, 8), a.data, x,
                LittleEndian(b.start, 8), LittleEndian(|b.data|, 8), b.data, y);
    WordInjective(a.start, b.start);
    WordInjective(|a.data|, |b.data|);
    SplitAt(a.data, b.data, x, y);
  }

  // No encoding of an accepted segment is a prefix of another one's.
  ghost predicate PrefixFree(f: Segment -> seq<Byte>, ok: Segment -> bool) {
    && (forall a :: f(a) != [])
    && forall a, b, x, y {:trigger f(a) + x, f(b) + y} ::
         ok(a) && ok(b) && f(a) + x == f(b) + y ==> a == b && x == y
  }

  lemma {:induction false} FlattenInjective(f: Segment -> seq<Byte>, ok: Segment -> bool, a: seq<Segment>,
                                            b: seq<Segment>)
    requires PrefixFree(f, ok) && (forall s :: s in a ==> ok(s)) && (forall s :: s in b ==> ok(s))
    requires Flatten(f, a) == Flatten(f, b)
    ensures a == b
    decreases |a|
  {
    assert a != [] ==> f(a[0]) != [];
    assert b != [] ==> f(b[0]) != [];
    if a != [] {
      assert ok(a[0]) && ok(b[0]);
      assert f(a[0]) + Flatten(f, a[1..]) == f(b[0]) + Flatten(f, b[1..]);
      FlattenInjective(f, ok, a[1..], b[1..]);
      assert a == [a[0]] + a[1..] && b == [b[0]] + b[1..];
    }
  }

  lemma {:induction false} FlattenAppend(f: Segment -> seq<Byte>, segments: seq<Segment>, s: Segment)
    ensures Flatten(f, segments + [s]) == Flatten(f, segments) + f(s)
  {
    if segments == [] {
      assert [s][1..] == [];
    } else {
      FlattenAppend(f, segments[1..], s);
      assert (segments + [s])[1..] == segments[1..] + [s];
    }
  }

  // Different segment lists are fed as different bytes, whatever their starts and lengths.
  lemma EncodeAllInjective(a: seq<Segment>, b: seq<Segment>)
    requires (forall s :: s in a ==> Small(s)) && (forall s :: s in b ==> Small(s))
    requires EncodeAll(a) == EncodeAll(b)
    ensures a == b
  {
    EncodePrefixFree();
    FlattenInjective(Encode, Small, a, b);
  }

  lemma EncodePrefixFree()
    ensures PrefixFree(Encode, Small)
  {
    forall a, b, x, y | Small(a) && Small(b) && Encode(a) + x == Encode(b) + y ensures a == b && x == y {
      EncodePrefix(a, b, x, y);
    }
  }

  // ---- the fingerprint of a file that does not change ----

  ghost predicate Within(plan: seq<Range>, size: nat) {
    forall i :: 0 <= i < |plan| ==> plan[i].start <= plan[i].end <= size
  }

  ghost function Segments(plan: seq<Range>, content: seq<Byte>): seq<Segment>
    requires Within(plan, |content|)
  {
    seq(|plan|, i requires 0 <= i < |plan| => Segment(plan[i].start, content[plan[i].start..plan[i].end]))
  }

  function MakeFingerprint(c: Candidate, facts: Facts, digest: Digest): Fingerprint {
    Fingerprint(c, facts.size, facts.mtimeNs, if c.MetaCtime? then facts.ctimeNs else 0,
                facts.device, facts.inode, digest)
  }

  ghost predicate Drawn(c: Candidate, size: nat, chosen: seq<nat>) {
    SamplingOf(c).random ==> ValidDraw(size, SamplingOf(c).interior, chosen)
  }

  ghost function Plan(c: Candidate, size: nat, chosen: seq<nat>): (p: seq<Range>)
    requires Drawn(c, size, chosen)
    ensures Canonical(p, size) && Within(p, size)
  {
    PlanCanonical(SamplingOf(c), size, chosen);
    PlanOf(SamplingOf(c), size, chosen)
  }

  ghost function FingerprintOf(h: seq<Byte> -> Digest, c: Candidate, file: File, chosen: seq<nat>): Fingerprint
    requires file.Valid() && Drawn(c, file.facts.size, chosen)
  {
    if Metadata(c) then MakeFingerprint(c, file.facts, "")
    else
      MakeFingerprint(c, file.facts, h(EncodeAll(Segments(Plan(c, file.facts.size, chosen), file.content))))
  }

  ghost predicate AgreeOn(plan: seq<Range>, a: seq<Byte>, b: seq<Byte>)
    requires |a| == |b|
  {
    forall x :: 0 <= x < |a| && Covers(plan, x) ==> a[x] == b[x]
  }

  lemma SegmentsEqualIff(plan: seq<Range>, a: seq<Byte>, b: seq<Byte>)
    requires |a| == |b| && Within(plan, |a|)
    ensures Segments(plan, a) == Segments(plan, b) <==> AgreeOn(plan, a, b)
  {
    var s, t := Segments(plan, a), Segments(plan, b);
    if s == t {
      forall x | 0 <= x < |a| && Covers(plan, x) ensures a[x] == b[x] {
        var i :| 0 <= i < |plan| && Holds(plan[i], x);
        assert s[i].data == t[i].data;
        assert s[i].data[x - plan[i].start] == a[x] && t[i].data[x - plan[i].start] == b[x];
      }
    }
    if AgreeOn(plan, a, b) {
      forall i | 0 <= i < |plan| ensures s[i].data == t[i].data {
        forall k | 0 <= k < |s[i].data| ensures s[i].data[k] == t[i].data[k] {
          assert Holds(plan[i], plan[i].start + k);
        }
      }
      assert forall i :: 0 <= i < |plan| ==> s[i] == t[i];
    }
  }

  lemma FedBytesEqualIff(plan: seq<Range>, a: seq<Byte>, b: seq<Byte>)
    requires |a| == |b| < LIMIT && Within(plan, |a|)
    ensures EncodeAll(Segments(plan, a)) == EncodeAll(Segments(plan, b)) <==> AgreeOn(plan, a, b)
  {
    SegmentsEqualIff(plan, a, b);
    var s, t := Segments(plan, a), Segments(plan, b);
    SegmentsSmall(plan, a);
    SegmentsSmall(plan, b);
    if EncodeAll(s) == EncodeAll(t) { EncodeAllInjective(s, t); }
  }

  lemma SegmentsSmall(plan: seq<Range>, a: seq<Byte>)
    requires |a| < LIMIT && Within(plan, |a|)
    ensures forall s :: s in Segments(plan, a) ==> Small(s)
  {
  }

  // The draws of one seed for two files: the same blocks if the files have one size.
  ghost predicate OneSeed(c: Candidate, f: File, g: File, drawn: seq<nat>, drawn': seq<nat>) {
    && f.Valid() && g.Valid() && Drawn(c, f.facts.size, drawn) && Drawn(c, g.facts.size, drawn')
    && (f.facts.size == g.facts.size ==> drawn == drawn')
  }

  // Two files have one fingerprint exactly when size, mtime, device and inode are the same, the
  // change time too for the candidate that compares it, and a sampling candidate finds the same
  // bytes wherever it reads.
  lemma FingerprintsEqualIff(h: seq<Byte> -> Digest, c: Candidate, f: File, g: File, drawn: seq<nat>, drawn': seq<nat>)
    requires CollisionFree(h) && OneSeed(c, f, g, drawn, drawn')
    ensures FingerprintOf(h, c, f, drawn) == FingerprintOf(h, c, g, drawn') <==>
            && f.facts.size == g.facts.size && f.facts.mtimeNs == g.facts.mtimeNs
            && f.facts.device == g.facts.device && f.facts.inode == g.facts.inode
            && (c == MetaCtime ==> f.facts.ctimeNs == g.facts.ctimeNs)
            && (Metadata(c) || AgreeOn(Plan(c, f.facts.size, drawn), f.content, g.content))
  {
    if !Metadata(c) && f.facts.size == g.facts.size {
      FedBytesEqualIff(Plan(c, f.facts.size, drawn), f.content, g.content);
    }
  }

  // Without the assumption on the digest, files that agree so far still have one fingerprint.
  lemma FingerprintsEqualIf(h: seq<Byte> -> Digest, c: Candidate, f: File, g: File, drawn: seq<nat>)
    requires OneSeed(c, f, g, drawn, drawn) && f.facts.(ctimeNs := 0, links := 0) == g.facts.(ctimeNs := 0, links := 0)
    requires c == MetaCtime ==> f.facts.ctimeNs == g.facts.ctimeNs
    requires Metadata(c) || AgreeOn(Plan(c, f.facts.size, drawn), f.content, g.content)
    ensures FingerprintOf(h, c, f, drawn) == FingerprintOf(h, c, g, drawn)
  {
    if !Metadata(c) { FedBytesEqualIff(Plan(c, f.facts.size, drawn), f.content, g.content); }
  }

  // ---- taking the fingerprint ----

  ghost function Slice(content: seq<Byte>, start: nat, end: nat): seq<Byte> {
    content[Min(start, |content|)..Min(Max(start, end), |content|)]
  }

  // `pread` may return fewer bytes than asked for, and none only at the end of the file.
  method ReadRange(content: seq<Byte>, start: nat, end: nat) returns (data: seq<Byte>)
    ensures data == Slice(content, start, end)
  {
    data := [];
    var offset := start;
    while offset < end
      invariant start <= offset <= Max(start, end)
      invariant offset == start || offset <= |content|
      invariant data == Slice(content, start, offset)
    {
      if offset >= |content| { break; }
      var count :| 1 <= count <= end - offset && offset + count <= |content|;
      data := data + content[offset..offset + count];
      offset := offset + count;
    }
  }

  // The fields of the drift check.
  function DriftKey(f: Facts): (nat, int, int, int, int) {
    (f.size, f.mtimeNs, f.device, f.inode, f.links)
  }

  // `change` is what the file becomes between the first and the second range; None in the result
  // is the Drift exception.
  method TakeFingerprint(h: seq<Byte> -> Digest, c: Candidate, file: File, chosen: seq<nat>, change: Option<File>)
    returns (r: Option<(Fingerprint, nat)>)
    requires file.Valid() && Drawn(c, file.facts.size, chosen)
    ensures change.None? ==>
              r == Some((FingerprintOf(h, c, file, chosen), TotalLength(Plan(c, file.facts.size, chosen))))
    ensures Plan(c, file.facts.size, chosen) == [] ==> r == Some((FingerprintOf(h, c, file, chosen), 0))
    ensures r.None? <==>
              && change.Some? && Plan(c, file.facts.size, chosen) != []
              && var before, after := file.facts, change.value.facts;
                 || before.size != after.size || before.mtimeNs != after.mtimeNs || before.device != after.device
                 || before.inode != after.inode || before.links != after.links
    // A change that the check does not see gives a mixture of both contents.
    ensures r.Some? && change.Some? && change.value.Valid() && Plan(c, file.facts.size, chosen) != [] ==>
              var plan := Plan(c, file.facts.size, chosen);
              var torn := Torn(plan, file.content, change.value.content);
              r.value == (MakeFingerprint(c, file.facts, h(EncodeAll(torn))), TotalLength(plan))
  {
    if Metadata(c) { return Some((MakeFingerprint(c, file.facts, ""), 0)); }
    var plan := MakePlan(SamplingOf(c), file.facts.size, chosen);
    assert plan == Plan(c, file.facts.size, chosen);
    var fed, total, after := FeedRanges(plan, file, change);
    assert Torn(plan, file.content, file.content) == Segments(plan, file.content);
    if DriftKey(file.facts) != DriftKey(after) { return None; }
    r := Some((MakeFingerprint(c, file.facts, h(fed)), total));
  }

  // The first range of one content and the other ranges of another.
  ghost function Torn(plan: seq<Range>, a: seq<Byte>, b: seq<Byte>): seq<Segment>
    requires |a| == |b| && Within(plan, |a|)
  {
    seq(|plan|, i requires 0 <= i < |plan| =>
          Segment(plan[i].start, (if i == 0 then a else b)[plan[i].start..plan[i].end]))
  }

  // The loop over the ranges: what was fed, how many bytes were read, and the facts at the end.
  method FeedRanges(plan: seq<Range>, file: File, change: Option<File>)
    returns (fed: seq<Byte>, total: nat, after: Facts)
    requires Within(plan, |file.content|)
    ensures after == if plan != [] && change.Some? then change.value.facts else file.facts
    ensures plan == [] ==> fed == EncodeAll(Segments(plan, file.content)) && total == TotalLength(plan)
    ensures var later := if change.Some? then change.value.content else file.content;
            |later| == |file.content| ==>
              fed == EncodeAll(Torn(plan, file.content, later)) && total == TotalLength(plan)
  {
    fed, total := [], 0;
    var current := file;
    ghost var segments := [];
    ghost var later := if change.Some? then change.value.content else file.content;
    for i := 0 to |plan|
      invariant current == if i > 0 && change.Some? then change.value else file
      invariant fed == EncodeAll(segments) && (i == 0 ==> segments == [] && total == 0)
      invariant |later| == |file.content| ==> FedSoFar(plan, i, file.content, later, segments, total)
    {
      var count;
      if |later| == |file.content| { FedNext(plan, i, file.content, later, segments, total, current.content); }
      fed, count := FeedRange(fed, current.content, plan[i], segments);
      segments := segments + [Segment(plan[i].start, Slice(current.content, plan[i].start, plan[i].end))];
      total := total + count;
      if i == 0 && change.Some? { current := change.value; }
    }
    assert plan[..|plan|] == plan;
    assert plan == [] ==> Segments(plan, file.content) == [];
    after := current.facts;
  }

  ghost predicate FedSoFar(plan: seq<Range>, i: nat, a: seq<Byte>, b: seq<Byte>, segments: seq<Segment>, total: nat)
    requires |a| == |b| && Within(plan, |a|)
  {
    i <= |plan| && segments == Torn(plan[..i], a, b) && total == TotalLength(plan[..i])
  }

  lemma FedNext(plan: seq<Range>, i: nat, a: seq<Byte>, b: seq<Byte>, segments: seq<Segment>, total: nat,
                content: seq<Byte>)
    requires |a| == |b| && Within(plan, |a|) && i < |plan| && FedSoFar(plan, i, a, b, segments, total)
    requires content == if i == 0 then a else b
    ensures var data := Slice(content, plan[i].start, plan[i].end);
            FedSoFar(plan, i + 1, a, b, segments + [Segment(plan[i].start, data)], total + |data|)
  {
    NextSegment(plan, i, a, b);
    assert Slice(content, plan[i].start, plan[i].end) == content[plan[i].start..plan[i].end];
  }

  // One range: read, and fed with its start and length.
  method FeedRange(fed0: seq<Byte>, content: seq<Byte>, range: Range, ghost segments: seq<Segment>)
    returns (fed: seq<Byte>, count: nat)
    requires fed0 == EncodeAll(segments)
    ensures fed == EncodeAll(segments + [Segment(range.start, Slice(content, range.start, range.end))])
    ensures count == |Slice(content, range.start, range.end)|
  {
    var data := ReadRange(content, range.start, range.end);
    var s := Segment(range.start, data);
    fed, count := fed0 + Encode(s), |data|;
    FlattenAppend(Encode, segments, s);
  }

  lemma NextSegment(plan: seq<Range>, i: nat, a: seq<Byte>, b: seq<Byte>)
    requires i < |plan| && |a| == |b| && Within(plan, |a|)
    ensures Torn(plan[..i + 1], a, b) ==
            Torn(plan[..i], a, b) + [Segment(plan[i].start, (if i == 0 then a else b)[plan[i].start..plan[i].end])]
    ensures TotalLength(plan[..i + 1]) == TotalLength(plan[..i]) + (plan[i].end - plan[i].start)
  {
    assert plan[..i + 1][..i] == plan[..i];
  }

  // ---- the mutation oracle ----

  datatype Verdict = Missed | Detected | Equal | FalseChange

  function Classify(changed: bool, sameFingerprint: bool): Verdict {
    if changed then if sameFingerprint then Missed else Detected
    else if sameFingerprint then Equal else FalseChange
  }

  // `edit_restoring_mtime`: one byte is complemented, size, mtime and inode stay, ctime moves.
  function Flip(file: File, offset: nat, ctimeNs: int): File
    requires offset < |file.content|
  {
    File(file.content[offset := 255 - file.content[offset]], file.facts.(ctimeNs := ctimeNs))
  }

  // `compare`: two observations of a file under one seed.
  ghost function Compare(h: seq<Byte> -> Digest, c: Candidate, before: File, after: File, drawn: seq<nat>,
                         drawn': seq<nat>): Verdict
    requires OneSeed(c, before, after, drawn, drawn')
  {
    Classify(before.content != after.content,
             FingerprintOf(h, c, before, drawn) == FingerprintOf(h, c, after, drawn'))
  }

  // A change of size, mtime, device or inode is always noticed: with other bytes it is detected,
  // with the same bytes it is a false change. So is a change of ctime by the candidate that
  // compares it.
  lemma MovedFactNoticed(h: seq<Byte> -> Digest, c: Candidate, before: File, after: File, drawn: seq<nat>,
                         drawn': seq<nat>)
    requires CollisionFree(h) && OneSeed(c, before, after, drawn, drawn')
    requires || before.facts.size != after.facts.size || before.facts.mtimeNs != after.facts.mtimeNs
             || before.facts.device != after.facts.device || before.facts.inode != after.facts.inode
             || (c == MetaCtime && before.facts.ctimeNs != after.facts.ctimeNs)
    ensures Compare(h, c, before, after, drawn, drawn') ==
            if before.content != after.content then Detected else FalseChange
  {
    FingerprintsEqualIff(h, c, before, after, drawn, drawn');
  }

  // With none of these moved the bytes decide: an unchanged file is equal, also after a rename,
  // and a changed one is detected exactly by a sampling candidate that reads a changed byte.
  lemma BytesDecide(h: seq<Byte> -> Digest, c: Candidate, before: File, after: File, drawn: seq<nat>)
    requires CollisionFree(h) && OneSeed(c, before, after, drawn, drawn)
    requires before.facts.(ctimeNs := 0, links := 0) == after.facts.(ctimeNs := 0, links := 0)
    requires c == MetaCtime ==> before.facts.ctimeNs == after.facts.ctimeNs
    ensures Compare(h, c, before, after, drawn, drawn) ==
            if before.content == after.content then Equal
            else if !Metadata(c) && !AgreeOn(Plan(c, before.facts.size, drawn), before.content, after.content)
            then Detected else Missed
  {
    FingerprintsEqualIff(h, c, before, after, drawn, drawn);
  }

  ghost function OracleVerdict(h: seq<Byte> -> Digest, c: Candidate, file: File, offset: nat, ctimeNs: int,
                               chosen: seq<nat>): Verdict
    requires file.Valid() && offset < file.facts.size && Drawn(c, file.facts.size, chosen)
  {
    Compare(h, c, file, Flip(file, offset, ctimeNs), chosen, chosen)
  }

  // An edit is missed exactly when its byte is not in the plan.
  lemma EditMissedIff(h: seq<Byte> -> Digest, c: Candidate, file: File, offset: nat, ctimeNs: int, chosen: seq<nat>)
    requires CollisionFree(h) && !Metadata(c)
    requires file.Valid() && offset < file.facts.size && Drawn(c, file.facts.size, chosen)
    ensures OracleVerdict(h, c, file, offset, ctimeNs, chosen) ==
            if Covers(Plan(c, file.facts.size, chosen), offset) then Detected else Missed
  {
    var after := Flip(file, offset, ctimeNs);
    assert file.content[offset] != after.content[offset];
    FingerprintsEqualIff(h, c, file, after, chosen, chosen);
  }

  lemma MetadataEdit(h: seq<Byte> -> Digest, c: Candidate, file: File, offset: nat, ctimeNs: int, chosen: seq<nat>)
    requires Metadata(c) && file.Valid() && offset < file.facts.size && Drawn(c, file.facts.size, chosen)
    ensures OracleVerdict(h, c, file, offset, ctimeNs, chosen) ==
            if c.MetaCtime? && ctimeNs != file.facts.ctimeNs then Detected else Missed
  {
    assert file.content[offset] != Flip(file, offset, ctimeNs).content[offset];
  }

  // An edit at the byte that `first_unread` gives for a region is missed exactly when the region
  // has an unread byte, and detected otherwise.
  lemma RegionEdit(h: seq<Byte> -> Digest, c: Candidate, file: File, low: nat, high: nat, r: nat, ctimeNs: int,
                   chosen: seq<nat>)
    requires CollisionFree(h) && !Metadata(c)
    requires file.Valid() && low < high <= file.facts.size && Drawn(c, file.facts.size, chosen)
    requires var p := Plan(c, file.facts.size, chosen);
             && ((exists x :: low <= x < high && !Covers(p, x)) ==> IsFirstUnread(p, low, high, r))
             && ((forall x :: low <= x < high ==> Covers(p, x)) ==> r == low)
    ensures r < file.facts.size
    ensures var p := Plan(c, file.facts.size, chosen);
            OracleVerdict(h, c, file, r, ctimeNs, chosen) ==
            if exists x :: low <= x < high && !Covers(p, x) then Missed else Detected
  {
    EditMissedIff(h, c, file, r, ctimeNs, chosen);
  }

  // The oracle's interior edit of the 8 MiB fixture is a constructed miss for every sampling
  // candidate and every seed.
  lemma InteriorEditMissed(h: seq<Byte> -> Digest, c: Candidate, file: File, r: nat, ctimeNs: int, chosen: seq<nat>)
    requires CollisionFree(h) && !Metadata(c)
    requires file.Valid() && file.facts.size == LARGE_BYTES && Drawn(c, LARGE_BYTES, chosen)
    requires var p := Plan(c, LARGE_BYTES, chosen);
             (exists x :: MIB <= x < LARGE_BYTES - MIB && !Covers(p, x)) ==> IsFirstUnread(p, MIB, LARGE_BYTES - MIB, r)
    ensures r < LARGE_BYTES && OracleVerdict(h, c, file, r, ctimeNs, chosen) == Missed
  {
    var x := LargeFixtureUnread(c, chosen);
    EditMissedIff(h, c, file, r, ctimeNs, chosen);
  }
}
