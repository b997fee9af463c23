/**
 * The lazy evidence lifecycle (`Lifecycle` and `StateFile` in scripts/media-evidence-lazy.py).
 * Each public operation is one atomic step under the lock, except `verify`: it begins under the
 * lock, reads the file without it, and finishes under it. The value functions below are the
 * steps; the classes in LifecycleStore.dfy carry them out and are proved against them.
 */
module EvidenceLifecycle {
  import opened Basics
  import opened LazyWindow

  type FileId = string
  type Name = string

  datatype State = Unknown | Provisional | Verified | Stale | Disagreement
  datatype Disposition = Held | Committable | Revoked
  datatype Retention = Kept | Quarantined

  datatype Record = Record(state: State, fingerprint: Option<Fingerprint>, digest: Option<Digest>,
                           plans: map<Name, Disposition>, outputs: map<Name, Retention>)

  type Records = map<FileId, Record>

  const FRESH := Record(Unknown, None, None, map[], map[])

  // `record`: a missing entry means unknown evidence.
  function Get(records: Records, id: FileId): Record {
    if id in records then records[id] else FRESH
  }

  // What the process holds in memory and what the state file holds.
  datatype Store = Store(records: Records, saved: Records) {
    function Put(id: FileId, r: Record): Store {
      var all := records[id := r];
      Store(all, all)
    }

    // `setdefault` alone, without a save.
    function Touch(id: FileId): Store {
      Store(records[id := Get(records, id)], saved)
    }
  }

  // ---- record transitions ----

  ghost function Invalidate(r: Record, state: State): Record {
    Record(state, r.fingerprint, None, MapValues(_ => Revoked, r.plans), MapValues(_ => Quarantined, r.outputs))
  }

  ghost function ObserveRecord(r: Record, f: Fingerprint): Record {
    if r.state.Provisional? || r.state.Verified? then
      if Some(f) != r.fingerprint then Invalidate(r, Stale) else r
    else r.(state := Provisional, fingerprint := Some(f), digest := None)
  }

  function Plannable(r: Record): bool {
    r.state.Provisional? || r.state.Verified?
  }

  function PlanRecord(r: Record, plan: Name): Record {
    r.(plans := r.plans[plan := if r.state.Verified? then Committable else Held])
  }

  // The reads of one verification: the stat before, the bytes of the pass, the stat after.
  datatype Reading = Reading(start: StatKey, content: seq<Byte>, end: StatKey)

  datatype Outcome = Proven(digest: Digest) | Drifted | Mismatched

  function Judge(h: seq<Byte> -> Digest, expected: Fingerprint, read: Reading): Outcome {
    if read.start != expected.key then Drifted
    else if read.end != read.start then Drifted
    else if StreamedWindow(h, read.content, read.start.size) != expected.window then Mismatched
    else Proven(h(read.content))
  }

  function Promote(d: Disposition): Disposition {
    if d.Held? then Committable else d
  }

  ghost function FinishRecord(r: Record, o: Outcome): Record {
    match o
    case Proven(d) =>
      r.(state := Verified, digest := Some(d),
         plans := MapValues(Promote, r.plans))
    case Drifted => Invalidate(r, Stale)
    case Mismatched => Invalidate(r, Disagreement)
  }

  // ---- the run: any interleaving at lock granularity ----

  datatype Flight = Flight(id: FileId, expected: Fingerprint)

  // Verifications in flight are keyed by the thread that runs them.
  datatype World = World(store: Store, flights: map<nat, Flight>)

  datatype Event =
    | Observe(id: FileId, fingerprint: Fingerprint)
    | Plan(id: FileId, name: Name)
    | Produce(id: FileId, name: Name)
    | Begin(thread: nat, id: FileId)
    | Finish(thread: nat, read: Reading)
    | Interrupt(thread: nat)
    | Restart   // the process dies, even between a change and its save, and reloads the file

  ghost function Step(h: seq<Byte> -> Digest, w: World, e: Event): World {
    var records := w.store.records;
    match e
    case Observe(id, f) => w.(store := w.store.Put(id, ObserveRecord(Get(records, id), f)))
    case Plan(id, name) =>
      if Plannable(Get(records, id)) then w.(store := w.store.Put(id, PlanRecord(Get(records, id), name)))
      else w.(store := w.store.Touch(id))
    case Produce(id, name) =>
      var r := Get(records, id);
      w.(store := w.store.Put(id, r.(outputs := r.outputs[name := Kept])))
    case Begin(thread, id) =>
      var r := Get(records, id);
      World(w.store.Touch(id),
            if r.state.Provisional? && r.fingerprint.Some? then w.flights[thread := Flight(id, r.fingerprint.value)]
            else w.flights)
    case Finish(thread, read) =>
      if thread !in w.flights then w
      else
        var f := w.flights[thread];
        World(w.store.Put(f.id, FinishRecord(Get(records, f.id), Judge(h, f.expected, read))), w.flights - {thread})
    case Interrupt(thread) => w.(flights := w.flights - {thread})
    case Restart => World(Store(w.store.saved, w.store.saved), map[])
  }

  // An operation whose save, if it gets that far, works or raises. The record is changed before it
  // is saved, so that a failed save leaves the change in memory and the file as it was.
  datatype Act = Act(event: Event, saves: bool)

  ghost function Perform(h: seq<Byte> -> Digest, w: World, m: Act): World {
    var next := Step(h, w, m.event);
    if m.saves then next else next.(store := Store(next.store.records, w.store.saved))
  }

  ghost function Run(h: seq<Byte> -> Digest, w: World, acts: seq<Act>): World
    decreases |acts|
  {
    if acts == [] then w else Run(h, Perform(h, w, acts[0]), acts[1..])
  }

  const START := World(Store(map[], map[]), map[])

  // ---- what every run keeps ----

  ghost predicate RecordOk(r: Record) {
    && (r.digest.Some? <==> r.state.Verified?)
    && (Plannable(r) ==> r.fingerprint.Some?)
    && (r.state.Unknown? ==> r.plans == map[])
    && (forall p :: p in r.plans && r.plans[p].Committable? ==> r.state.Verified?)
    && (forall p :: p in r.plans && r.plans[p].Held? ==> r.state.Provisional?)
  }

  // Memory and state file agree, a missing entry meaning unknown.
  ghost predicate Agree(s: Store) {
    forall id :: Get(s.records, id) == Get(s.saved, id)
  }

  ghost predicate WorldOk(w: World) {
    && (forall id :: RecordOk(Get(w.store.records, id)))
    && (forall id :: RecordOk(Get(w.store.saved, id)))
    && forall t :: t in w.flights ==> Get(w.store.records, w.flights[t].id).fingerprint.Some?
  }

  lemma TransitionsOk(r: Record, f: Fingerprint, name: Name)
    requires RecordOk(r)
    ensures RecordOk(ObserveRecord(r, f)) && ObserveRecord(r, f).fingerprint.Some?
    ensures Plannable(r) ==> RecordOk(PlanRecord(r, name))
    ensures RecordOk(r.(outputs := r.outputs[name := Kept]))
  {
  }

  lemma FinishOk(r: Record, o: Outcome)
    requires RecordOk(r) && r.fingerprint.Some?
    ensures RecordOk(FinishRecord(r, o))
  {
  }

  lemma PutOk(w: World, id: FileId, r: Record)
    requires WorldOk(w) && RecordOk(r)
    requires Get(w.store.records, id).fingerprint.Some? ==> r.fingerprint.Some?
    ensures WorldOk(w.(store := w.store.Put(id, r)))
  {
    var w' := w.(store := w.store.Put(id, r));
    forall x ensures Get(w'.store.records, x) == if x == id then r else Get(w.store.records, x) {
    }
  }

  lemma TouchOk(w: World, id: FileId)
    requires WorldOk(w)
    ensures WorldOk(w.(store := w.store.Touch(id)))
    ensures forall x :: Get(w.store.Touch(id).records, x) == Get(w.store.records, x)
  {
    var touched := w.store.Touch(id);
    assert forall x :: Get(touched.records, x) == Get(w.store.records, x);
  }

  lemma FewerFlightsOk(w: World, flights: map<nat, Flight>)
    requires WorldOk(w) && forall t :: t in flights ==> Get(w.store.records, flights[t].id).fingerprint.Some?
    ensures WorldOk(w.(flights := flights))
  {
  }

  lemma FinishStepOk(h: seq<Byte> -> Digest, w: World, thread: nat, read: Reading)
    requires WorldOk(w)
    ensures WorldOk(Step(h, w, Finish(thread, read)))
  {
    if thread in w.flights {
      var f := w.flights[thread];
      var r := Get(w.store.records, f.id);
      var done := FinishRecord(r, Judge(h, f.expected, read));
      FinishOk(r, Judge(h, f.expected, read));
      PutOk(w, f.id, done);
      FewerFlightsOk(w.(store := w.store.Put(f.id, done)), w.flights - {thread});
    }
  }

  lemma StepOk(h: seq<Byte> -> Digest, w: World, e: Event)
    requires WorldOk(w)
    ensures WorldOk(Step(h, w, e))
  {
    var records := w.store.records;
    match e
    case Observe(id, f) =>
      TransitionsOk(Get(records, id), f, "");
      PutOk(w, id, ObserveRecord(Get(records, id), f));
    case Plan(id, name) =>
      if Plannable(Get(records, id)) {
        TransitionsOk(Get(records, id), Get(records, id).fingerprint.value, name);
        PutOk(w, id, PlanRecord(Get(records, id), name));
      } else {
        TouchOk(w, id);
      }
    case Produce(id, name) =>
      var r := Get(records, id);
      assert RecordOk(r);
      PutOk(w, id, r.(outputs := r.outputs[name := Kept]));
    case Begin(thread, id) =>
      TouchOk(w, id);
      FewerFlightsOk(w.(store := w.store.Touch(id)), Step(h, w, e).flights);
    case Finish(thread, read) => FinishStepOk(h, w, thread, read);
    case Interrupt(thread) => FewerFlightsOk(w, w.flights - {thread});
    case Restart =>
  }

  lemma PerformOk(h: seq<Byte> -> Digest, w: World, m: Act)
    requires WorldOk(w)
    ensures WorldOk(Perform(h, w, m))
  {
    StepOk(h, w, m.event);
  }

  // In every run, however operations on one file overlap and whichever saves fail, for memory and
  // for the file: a digest is present exactly in the verified state, only verified evidence has a
  // committable plan, held plans exist only on provisional evidence, so all plans of stale or
  // disagreeing evidence are revoked.
  lemma {:induction false} EveryRunOk(h: seq<Byte> -> Digest, w: World, acts: seq<Act>)
    requires WorldOk(w)
    ensures WorldOk(Run(h, w, acts))
    decreases |acts|
  {
    if acts != [] {
      PerformOk(h, w, acts[0]);
      EveryRunOk(h, Perform(h, w, acts[0]), acts[1..]);
    }
  }

  lemma RunFromStart(h: seq<Byte> -> Digest, acts: seq<Act>, id: FileId)
    ensures var s := Run(h, START, acts).store;
            forall r :: r == Get(s.records, id) || r == Get(s.saved, id) ==>
              && (r.digest.Some? <==> r.state.Verified?)
              && (r.state.Verified? ==> forall p :: p in r.plans ==> !r.plans[p].Held?)
              && (r.state.Stale? || r.state.Disagreement? ==> forall p :: p in r.plans ==> r.plans[p].Revoked?)
              && (!r.state.Verified? ==> forall p :: p in r.plans ==> !r.plans[p].Committable?)
  {
    EveryRunOk(h, START, acts);
    var s := Run(h, START, acts).store;
    assert RecordOk(Get(s.records, id)) && RecordOk(Get(s.saved, id));
  }

  // ---- memory and file ----

  // The operation ends in a save.
  ghost predicate Saves(w: World, e: Event) {
    match e
    case Observe(_, _) => true
    case Plan(id, _) => Plannable(Get(w.store.records, id))
    case Produce(_, _) => true
    case Finish(thread, _) => thread in w.flights
    case _ => false
  }

  // Memory and file agree after every operation whose save works, whatever failed before, and after
  // every restart; without a failed save they never disagree; a failed save leaves the file alone.
  lemma AgreeAfter(h: seq<Byte> -> Digest, w: World, m: Act)
    ensures (Saves(w, m.event) && m.saves) || m.event.Restart? ==> Agree(Perform(h, w, m).store)
    ensures Agree(w.store) && m.saves ==> Agree(Perform(h, w, m).store)
    ensures !m.saves ==> Perform(h, w, m).store.saved == w.store.saved
  {
  }

  // ---- revocation is terminal ----

  ghost predicate RevokedAt(records: Records, id: FileId, plan: Name) {
    var r := Get(records, id);
    plan in r.plans && r.plans[plan].Revoked?
  }

  ghost predicate QuarantinedAt(records: Records, id: FileId, output: Name) {
    var r := Get(records, id);
    output in r.outputs && r.outputs[output].Quarantined?
  }

  // Revoked in memory and on file.
  ghost predicate RevokedIn(w: World, id: FileId, plan: Name) {
    RevokedAt(w.store.records, id, plan) && RevokedAt(w.store.saved, id, plan)
  }

  ghost predicate QuarantinedIn(w: World, id: FileId, output: Name) {
    QuarantinedAt(w.store.records, id, output) && QuarantinedAt(w.store.saved, id, output)
  }

  ghost predicate Without(e: Event, acts: seq<Act>) {
    forall i :: 0 <= i < |acts| ==> acts[i].event != e
  }

  lemma RevokedStep(h: seq<Byte> -> Digest, w: World, m: Act, id: FileId, plan: Name)
    requires RevokedIn(w, id, plan) && m.event != Plan(id, plan)
    ensures RevokedIn(Perform(h, w, m), id, plan)
  {
  }

  lemma {:induction false} RevokedRun(h: seq<Byte> -> Digest, w: World, acts: seq<Act>, id: FileId, plan: Name)
    requires RevokedIn(w, id, plan) && Without(Plan(id, plan), acts)
    ensures RevokedIn(Run(h, w, acts), id, plan)
    decreases |acts|
  {
    if acts != [] {
      RevokedStep(h, w, acts[0], id, plan);
      RevokedRun(h, Perform(h, w, acts[0]), acts[1..], id, plan);
    }
  }

  // A revoked plan stays revoked in every run that does not plan under its name again exactly when
  // its revocation has reached the file.
  lemma RevokedStays(h: seq<Byte> -> Digest, w: World, id: FileId, plan: Name)
    ensures (forall acts :: Without(Plan(id, plan), acts) ==> RevokedAt(Run(h, w, acts).store.records, id, plan))
            <==> RevokedIn(w, id, plan)
  {
    if RevokedIn(w, id, plan) {
      forall acts | Without(Plan(id, plan), acts) ensures RevokedAt(Run(h, w, acts).store.records, id, plan) {
        RevokedRun(h, w, acts, id, plan);
      }
    } else {
      RestartRuns(h, w);
      var restart := [Act(Restart, true)];
      assert Without(Plan(id, plan), []) && Without(Plan(id, plan), restart);
      assert Run(h, w, []) == w;
    }
  }

  lemma RestartRuns(h: seq<Byte> -> Digest, w: World)
    ensures Run(h, w, [Act(Restart, true)]).store.records == w.store.saved
  {
    RunFirst(h, w, Act(Restart, true), []);
  }

  lemma QuarantinedStep(h: seq<Byte> -> Digest, w: World, m: Act, id: FileId, output: Name)
    requires QuarantinedIn(w, id, output) && m.event != Produce(id, output)
    ensures QuarantinedIn(Perform(h, w, m), id, output)
  {
  }

  lemma {:induction false} QuarantinedRun(h: seq<Byte> -> Digest, w: World, acts: seq<Act>, id: FileId, output: Name)
    requires QuarantinedIn(w, id, output) && Without(Produce(id, output), acts)
    ensures QuarantinedIn(Run(h, w, acts), id, output)
    decreases |acts|
  {
    if acts != [] {
      QuarantinedStep(h, w, acts[0], id, output);
      QuarantinedRun(h, Perform(h, w, acts[0]), acts[1..], id, output);
    }
  }

  lemma QuarantinedStays(h: seq<Byte> -> Digest, w: World, id: FileId, output: Name)
    ensures (forall acts :: Without(Produce(id, output), acts) ==>
                               QuarantinedAt(Run(h, w, acts).store.records, id, output))
            <==> QuarantinedIn(w, id, output)
  {
    if QuarantinedIn(w, id, output) {
      forall acts | Without(Produce(id, output), acts)
        ensures QuarantinedAt(Run(h, w, acts).store.records, id, output)
      {
        QuarantinedRun(h, w, acts, id, output);
      }
    } else {
      RestartRuns(h, w);
      var restart := [Act(Restart, true)];
      assert Without(Produce(id, output), []) && Without(Produce(id, output), restart);
      assert Run(h, w, []) == w;
    }
  }

  // A failed save undoes it: a plan on one state of a file, revoked by the observation of another
  // whose save fails, is held again after a restart.
  lemma FailedSaveRevives(h: seq<Byte> -> Digest, id: FileId, plan: Name, f: Fingerprint, g: Fingerprint)
    requires f != g
    ensures var a, b, c := Act(Observe(id, f), true), Act(Plan(id, plan), true), Act(Observe(id, g), false);
            var w := Run(h, START, [a, b, c]);
            && RevokedAt(w.store.records, id, plan)
            && plan in Get(Perform(h, w, Act(Restart, true)).store.records, id).plans
            && Get(Perform(h, w, Act(Restart, true)).store.records, id).plans[plan].Held?
  {
    var a, b, c := Act(Observe(id, f), true), Act(Plan(id, plan), true), Act(Observe(id, g), false);
    RunFirst(h, START, a, [b, c]);
    RunFirst(h, Perform(h, START, a), b, [c]);
    RunFirst(h, Perform(h, Perform(h, START, a), b), c, []);
  }

  // ---- what each operation does to a record ----

  // The evidence is withdrawn: no digest, every plan revoked and every output quarantined, under the
  // same names.
  ghost predicate Withdrawn(r: Record, q: Record, state: State) {
    && q.state == state && q.fingerprint == r.fingerprint && q.digest == None
    && q.plans.Keys == r.plans.Keys && (forall p :: p in q.plans ==> q.plans[p] == Revoked)
    && q.outputs.Keys == r.outputs.Keys && (forall o :: o in q.outputs ==> q.outputs[o] == Quarantined)
  }

  // The evidence is verified: held plans become committable, revoked ones stay revoked, outputs
  // stay as they are.
  ghost predicate Confirmed(r: Record, q: Record, digest: Digest) {
    && q.state == Verified && q.fingerprint == r.fingerprint && q.digest == Some(digest)
    && q.plans.Keys == r.plans.Keys && q.outputs == r.outputs
    && forall p :: p in q.plans ==> q.plans[p] == if r.plans[p] == Revoked then Revoked else Committable
  }

  ghost predicate OthersKept(w: World, w': World, id: FileId) {
    forall x :: x != id ==> Get(w'.store.records, x) == Get(w.store.records, x)
  }

  // An observation: another fingerprint withdraws provisional or verified evidence, the same one
  // changes nothing; otherwise it is the new provisional evidence, with plans and outputs kept.
  lemma ObserveOutcome(h: seq<Byte> -> Digest, w: World, id: FileId, f: Fingerprint)
    ensures var r, w' := Get(w.store.records, id), Step(h, w, Observe(id, f));
            var q := Get(w'.store.records, id);
            && OthersKept(w, w', id) && w'.flights == w.flights
            && if r.state != Provisional && r.state != Verified
               then && q.state == Provisional && q.fingerprint == Some(f) && q.digest == None
                    && q.plans == r.plans && q.outputs == r.outputs
               else if r.fingerprint == Some(f) then q == r
               else Withdrawn(r, q, Stale)
  {
  }

  // A plan is committable on verified evidence, held on provisional evidence and refused on other.
  lemma PlanOutcome(h: seq<Byte> -> Digest, w: World, id: FileId, name: Name)
    ensures var r, w' := Get(w.store.records, id), Step(h, w, Plan(id, name));
            var q := Get(w'.store.records, id);
            && OthersKept(w, w', id) && w'.flights == w.flights
            && if r.state != Provisional && r.state != Verified
               then q == r && w'.store.saved == w.store.saved
               else && q == r.(plans := q.plans) && q.plans.Keys == r.plans.Keys + {name}
                    && q.plans[name] == (if r.state == Verified then Committable else Held)
                    && forall p :: p in r.plans && p != name ==> q.plans[p] == r.plans[p]
  {
  }

  // An output is kept, whatever the state of the evidence.
  lemma ProduceOutcome(h: seq<Byte> -> Digest, w: World, id: FileId, name: Name)
    ensures var r, w' := Get(w.store.records, id), Step(h, w, Produce(id, name));
            var q := Get(w'.store.records, id);
            && OthersKept(w, w', id) && w'.flights == w.flights
            && q == r.(outputs := q.outputs) && q.outputs.Keys == r.outputs.Keys + {name} && q.outputs[name] == Kept
            && forall o :: o in r.outputs && o != name ==> q.outputs[o] == r.outputs[o]
  {
  }

  // A verification begins on provisional evidence only, with its fingerprint, and changes no record.
  lemma BeginOutcome(h: seq<Byte> -> Digest, w: World, thread: nat, id: FileId)
    ensures var r, w' := Get(w.store.records, id), Step(h, w, Begin(thread, id));
            && (forall x :: Get(w'.store.records, x) == Get(w.store.records, x)) && w'.store.saved == w.store.saved
            && if r.state == Provisional && r.fingerprint.Some?
               then w'.flights == w.flights[thread := Flight(id, r.fingerprint.value)]
               else w'.flights == w.flights
  {
  }

  // It ends, on the record as it then is, verified exactly when the stat before and after the pass
  // is the expected one and so is the window; stale when a stat is another one.
  lemma FinishOutcome(h: seq<Byte> -> Digest, w: World, thread: nat, read: Reading)
    requires thread in w.flights
    ensures var f := w.flights[thread];
            var r, w' := Get(w.store.records, f.id), Step(h, w, Finish(thread, read));
            var q := Get(w'.store.records, f.id);
            && OthersKept(w, w', f.id) && w'.flights == w.flights - {thread}
            && if read.start != f.expected.key || read.end != f.expected.key then Withdrawn(r, q, Stale)
               else if StreamedWindow(h, read.content, f.expected.key.size) != f.expected.window
               then Withdrawn(r, q, Disagreement)
               else Confirmed(r, q, h(read.content))
  {
  }

  // ---- what verification establishes ----

  // Verifying provisional evidence, whatever was read: what the record then says, in terms of the
  // file as it was observed. Nothing is assumed of the reading.
  lemma VerifyOutcome(h: seq<Byte> -> Digest, w: World, t: nat, id: FileId, observed: Snapshot, read: Reading)
    requires CollisionFree(h) && observed.Valid()
    requires Get(w.store.records, id).state == Provisional
    requires Get(w.store.records, id).fingerprint == Some(ReadFingerprint(h, observed).0)
    ensures var r := Get(w.store.records, id);
            var done := Step(h, Step(h, w, Begin(t, id)), Finish(t, read));
            var q := Get(done.store.records, id);
            && Get(done.store.saved, id) == q
            && if read.start != observed.key || read.end != observed.key then Withdrawn(r, q, Stale)
               else if EndsAgree(observed.content, read.content) then Confirmed(r, q, h(read.content))
               else Withdrawn(r, q, Disagreement)
  {
    var begun := Step(h, w, Begin(t, id));
    BeginOutcome(h, w, t, id);
    FinishOutcome(h, begun, t, read);
    WindowsEqualIff(h, observed, read.content);
  }

  // Bytes between the ends never decide the outcome; they only enter the digest.
  lemma InteriorIrrelevant(h: seq<Byte> -> Digest, w: World, thread: nat, a: Reading, b: Reading)
    requires thread in w.flights && a.start == b.start && a.end == b.end
    requires |a.content| == w.flights[thread].expected.key.size && EndsAgree(a.content, b.content)
    ensures var id := w.flights[thread].id;
            Get(Step(h, w, Finish(thread, a)).store.records, id).state ==
            Get(Step(h, w, Finish(thread, b)).store.records, id).state
  {
    FinishOutcome(h, w, thread, a);
    FinishOutcome(h, w, thread, b);
    PartsFromAgree(a.content, b.content);
  }

  // ---- verified evidence is backed by bytes, when a file's operations do not overlap ----

  // Some read bytes have both the recorded digest and the recorded window.
  ghost predicate Backed(h: seq<Byte> -> Digest, r: Record) {
    r.state.Verified? ==>
      && r.fingerprint.Some?
      && exists c :: r.digest == Some(h(c)) &&
                     StreamedWindow(h, c, r.fingerprint.value.key.size) == r.fingerprint.value.window
  }

  ghost predicate InFlight(w: World, id: FileId) {
    exists t :: t in w.flights && w.flights[t].id == id
  }

  // No operation on a file starts while a verification of that file is in flight.
  ghost predicate Serialised(w: World, e: Event) {
    match e
    case Observe(id, _) => !InFlight(w, id)
    case Plan(id, _) => !InFlight(w, id)
    case Produce(id, _) => !InFlight(w, id)
    case Begin(thread, id) => !InFlight(w, id) && thread !in w.flights
    case _ => true
  }

  ghost predicate SerialisedRun(h: seq<Byte> -> Digest, w: World, acts: seq<Act>)
    decreases |acts|
  {
    acts == [] || (Serialised(w, acts[0].event) && SerialisedRun(h, Perform(h, w, acts[0]), acts[1..]))
  }

  ghost predicate SerialOk(h: seq<Byte> -> Digest, w: World) {
    && WorldOk(w)
    && (forall id :: Backed(h, Get(w.store.records, id)))
    && (forall id :: Backed(h, Get(w.store.saved, id)))
    && (forall t, u :: t in w.flights && u in w.flights && w.flights[t].id == w.flights[u].id ==> t == u)
    && forall t :: t in w.flights ==> Current(w, w.flights[t])
  }

  ghost predicate Current(w: World, f: Flight) {
    var r := Get(w.store.records, f.id);
    r.state.Provisional? && r.fingerprint == Some(f.expected)
  }

  lemma FinishBacked(h: seq<Byte> -> Digest, r: Record, expected: Fingerprint, read: Reading)
    requires r.fingerprint == Some(expected)
    ensures Backed(h, FinishRecord(r, Judge(h, expected, read)))
  {
  }

  lemma StepBacked(h: seq<Byte> -> Digest, w: World, e: Event, id: FileId)
    requires SerialOk(h, w)
    ensures Backed(h, Get(Step(h, w, e).store.records, id))
    ensures Backed(h, Get(Step(h, w, e).store.saved, id))
  {
    assert Backed(h, Get(w.store.saved, id));
    SavedIsEither(h, w, e);
    RecordBacked(h, w, e, id);
  }

  lemma SavedIsEither(h: seq<Byte> -> Digest, w: World, e: Event)
    ensures Step(h, w, e).store.saved == w.store.saved || Step(h, w, e).store.saved == Step(h, w, e).store.records
  {
  }

  lemma RecordBacked(h: seq<Byte> -> Digest, w: World, e: Event, id: FileId)
    requires SerialOk(h, w)
    ensures Backed(h, Get(Step(h, w, e).store.records, id))
  {
    var r := Get(w.store.records, id);
    assert Backed(h, r) && Backed(h, Get(w.store.saved, id));
    match e
    case Observe(_, f) => ObserveBacked(h, r, f);
    case Finish(thread, read) =>
      if thread in w.flights && w.flights[thread].id == id {
        assert Current(w, w.flights[thread]);
        FinishBacked(h, r, w.flights[thread].expected, read);
      }
    case _ =>
  }

  lemma ObserveBacked(h: seq<Byte> -> Digest, r: Record, f: Fingerprint)
    requires Backed(h, r)
    ensures Backed(h, ObserveRecord(r, f))
  {
  }

  lemma StepCurrent(h: seq<Byte> -> Digest, w: World, e: Event, t: nat)
    requires SerialOk(h, w) && Serialised(w, e) && t in Step(h, w, e).flights
    ensures Current(Step(h, w, e), Step(h, w, e).flights[t])
  {
    if t in w.flights { assert Current(w, w.flights[t]); }
  }

  lemma StepDistinct(h: seq<Byte> -> Digest, w: World, e: Event, t: nat, u: nat)
    requires SerialOk(h, w) && Serialised(w, e)
    requires t in Step(h, w, e).flights && u in Step(h, w, e).flights
    requires Step(h, w, e).flights[t].id == Step(h, w, e).flights[u].id
    ensures t == u
  {
  }

  lemma StepSerialOk(h: seq<Byte> -> Digest, w: World, e: Event)
    requires SerialOk(h, w) && Serialised(w, e)
    ensures SerialOk(h, Step(h, w, e))
  {
    var w' := Step(h, w, e);
    StepOk(h, w, e);
    forall id ensures Backed(h, Get(w'.store.records, id)) && Backed(h, Get(w'.store.saved, id)) {
      StepBacked(h, w, e, id);
    }
    forall t | t in w'.flights ensures Current(w', w'.flights[t]) { StepCurrent(h, w, e, t); }
    forall t, u | t in w'.flights && u in w'.flights && w'.flights[t].id == w'.flights[u].id ensures t == u {
      StepDistinct(h, w, e, t, u);
    }
  }

  lemma UnsavedSerialOk(h: seq<Byte> -> Digest, w: World, next: World)
    requires SerialOk(h, w) && SerialOk(h, next)
    ensures SerialOk(h, next.(store := Store(next.store.records, w.store.saved)))
  {
    var n := next.(store := Store(next.store.records, w.store.saved));
    forall t | t in n.flights ensures Current(n, n.flights[t]) { assert Current(next, next.flights[t]); }
  }

  lemma {:induction false} SerialisedRunBacked(h: seq<Byte> -> Digest, w: World, acts: seq<Act>)
    requires SerialOk(h, w) && SerialisedRun(h, w, acts)
    ensures SerialOk(h, Run(h, w, acts))
    decreases |acts|
  {
    if acts != [] {
      StepSerialOk(h, w, acts[0].event);
      UnsavedSerialOk(h, w, Step(h, w, acts[0].event));
      SerialisedRunBacked(h, Perform(h, w, acts[0]), acts[1..]);
    }
  }

  // So in every run from the start in which operations on one file do not overlap, verified
  // evidence has read bytes behind it.
  lemma SerialisedFromStart(h: seq<Byte> -> Digest, acts: seq<Act>, id: FileId)
    requires SerialisedRun(h, START, acts)
    ensures Backed(h, Get(Run(h, START, acts).store.records, id))
    ensures Backed(h, Get(Run(h, START, acts).store.saved, id))
  {
    SerialisedRunBacked(h, START, acts);
  }

  // `_finish` does not recheck the record. What it marks verified is backed exactly when the
  // record still carries a window that the read bytes have.
  lemma FinishBackedIff(h: seq<Byte> -> Digest, r: Record, expected: Fingerprint, read: Reading)
    requires CollisionFree(h) && Judge(h, expected, read).Proven? && r.fingerprint.Some?
    ensures Backed(h, FinishRecord(r, Judge(h, expected, read)))
            <==> StreamedWindow(h, read.content, r.fingerprint.value.key.size) == r.fingerprint.value.window
    ensures r.fingerprint.value.key.size == expected.key.size ==>
              (Backed(h, FinishRecord(r, Judge(h, expected, read))) <==> r.fingerprint.value.window == expected.window)
  {
  }

  // Overlap breaks it, for every same-size edit of a window: re-observing the edited file twice
  // during its verification leaves the new evidence verified by the digest of the old bytes.
  lemma OverlapUnbacked(h: seq<Byte> -> Digest, id: FileId, before: Snapshot, after: Snapshot)
    requires CollisionFree(h) && before.Valid() && after.Valid() && before.key.size == after.key.size
    requires !EndsAgree(after.content, before.content)
    ensures var f := ReadFingerprint(h, after).0;
            var read := Reading(before.key, before.content, before.key);
            var acts := [Act(Observe(id, ReadFingerprint(h, before).0), true), Act(Begin(0, id), true),
                          Act(Observe(id, f), true), Act(Observe(id, f), true), Act(Finish(0, read), true)];
            var r := Get(Run(h, START, acts).store.records, id);
            r.state.Verified? && r.fingerprint == Some(f) && !Backed(h, r)
  {
    var g, f := ReadFingerprint(h, before).0, ReadFingerprint(h, after).0;
    var read := Reading(before.key, before.content, before.key);
    PassMatchesSeek(h, before);
    PassMatchesSeek(h, after);
    WindowsEqualIff(h, after, before.content);
    FiveSteps(h, START, Observe(id, g), Begin(0, id), Observe(id, f), Observe(id, f), Finish(0, read));
    var w := Reobserved(h, id, g, f);
    FinishBackedIff(h, Get(w.store.records, id), g, read);
  }

  // Two observations of a changed file during a verification: new provisional evidence, and the
  // verification of the old one still in flight.
  lemma Reobserved(h: seq<Byte> -> Digest, id: FileId, g: Fingerprint, f: Fingerprint) returns (w: World)
    requires f != g
    ensures w == Step(h, Step(h, Step(h, Step(h, START, Observe(id, g)), Begin(0, id)), Observe(id, f)), Observe(id, f))
    ensures Get(w.store.records, id).state.Provisional? && Get(w.store.records, id).fingerprint == Some(f)
    ensures 0 in w.flights && w.flights[0] == Flight(id, g)
  {
    var w1 := Step(h, START, Observe(id, g));
    var w2 := Step(h, w1, Begin(0, id));
    var w3 := Step(h, w2, Observe(id, f));
    w := Step(h, w3, Observe(id, f));
  }

  lemma {:induction false} RunAppend(h: seq<Byte> -> Digest, w: World, a: seq<Act>, b: seq<Act>)
    ensures Run(h, w, a + b) == Run(h, Run(h, w, a), b)
    decreases |a|
  {
    if a == [] {
      assert a + b == b;
    } else {
      RunAppend(h, Perform(h, w, a[0]), a[1..], b);
      assert (a + b)[0] == a[0] && (a + b)[1..] == a[1..] + b;
    }
  }

  lemma FiveSteps(h: seq<Byte> -> Digest, w: World, a: Event, b: Event, c: Event, d: Event, e: Event)
    ensures Run(h, w, [Act(a, true), Act(b, true), Act(c, true), Act(d, true), Act(e, true)]) ==
            Step(h, Step(h, Step(h, Step(h, Step(h, w, a), b), c), d), e)
  {
    var a', b', c', d', e' := Act(a, true), Act(b, true), Act(c, true), Act(d, true), Act(e, true);
    RunFirst(h, w, a', [b', c', d', e']);
    var w1 := Step(h, w, a);
    RunFirst(h, w1, b', [c', d', e']);
    var w2 := Step(h, w1, b);
    RunFirst(h, w2, c', [d', e']);
    var w3 := Step(h, w2, c);
    RunFirst(h, w3, d', [e']);
    RunFirst(h, Step(h, w3, d), e', []);
  }

  lemma RunFirst(h: seq<Byte> -> Digest, w: World, m: Act, rest: seq<Act>)
    ensures Run(h, w, [m] + rest) == Run(h, Perform(h, w, m), rest)
  {
  }

  // ---- one thread among others ----

  // An event of another thread of the same process.
  ghost predicate Foreign(e: Event, thread: nat) {
    match e
    case Begin(t, _) => t != thread
    case Finish(t, _) => t != thread
    case Interrupt(t) => t != thread
    case Restart => false
    case _ => true
  }

  ghost predicate AllForeign(acts: seq<Act>, thread: nat) {
    forall i :: 0 <= i < |acts| ==> Foreign(acts[i].event, thread)
  }

  lemma {:induction false} FlightStays(h: seq<Byte> -> Digest, w: World, acts: seq<Act>, thread: nat)
    requires AllForeign(acts, thread) && thread in w.flights
    ensures var f := Run(h, w, acts).flights; thread in f && f[thread] == w.flights[thread]
    decreases |acts|
  {
    if acts != [] {
      assert Foreign(acts[0].event, thread);
      FlightStays(h, Perform(h, w, acts[0]), acts[1..], thread);
    }
  }

  // ---- interruption ----

  // An interrupted verification leaves the state file as it was; after a restart, verifying the
  // same reading gives the record an uninterrupted verification would have given, if the record had
  // reached the file.
  lemma InterruptedVerify(h: seq<Byte> -> Digest, w: World, t: nat, u: nat, id: FileId, read: Reading)
    requires WorldOk(w)
    ensures var stopped := Step(h, Step(h, w, Begin(t, id)), Interrupt(t));
            var resumed := Step(h, Step(h, Step(h, stopped, Restart), Begin(u, id)), Finish(u, read));
            var plain := Step(h, Step(h, w, Begin(t, id)), Finish(t, read));
            && stopped.store.saved == w.store.saved
            && (t !in w.flights && Get(w.store.records, id) == Get(w.store.saved, id) ==>
                  Get(resumed.store.records, id) == Get(plain.store.records, id))
  {
  }
}
