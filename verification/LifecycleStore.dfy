/**
 * `StateFile` and `Lifecycle` of scripts/media-evidence-lazy.py as mutable objects. The state file
 * lives on a disk that can lose power. Every method is proved to take the step that
 * EvidenceLifecycle gives for it; a verification runs with any other operations in between.
 */
module LifecycleStore {
  import opened Basics
  import opened CrashDisk
  import opened StateOnDisk
  import opened LazyWindow
  import opened EvidenceLifecycle

  // `enc` and `dec` are the JSON text of all records, `unused` the choice of a temporary name.
  class StateFile {
    const path: Path
    const enc: Records -> seq<Byte>
    const dec: seq<Byte> -> Option<Records>
    const unused: Disk -> Path
    var disk: Disk

    ghost predicate Valid()
      reads this
    {
      && Durable(disk, path)
      && (forall r :: dec(enc(r)) == Some(r))
      && (forall d :: unused(d) !in d.live && unused(d) != path)
      && forall v :: v in Past() ==> Read(v).Some?
    }

    function Read(v: Version): Option<Records> {
      if v.None? then Some(map[]) else dec(v.value)
    }

    // What a power loss may leave.
    ghost function Past(): set<Version>
      reads this
    {
      Versions(disk, path)
    }

    lemma Current()
      requires Valid()
      ensures OnDisk(disk, path) in Past() && Read(OnDisk(disk, path)).Some?
    {
      assert Lookup(disk, path) in Possible(disk, path);
    }

    ghost function Contents(): Records
      reads this
      requires Valid()
    {
      Current();
      Read(OnDisk(disk, path)).value
    }

    // A missing file, or one that an earlier process left.
    constructor (path: Path, enc: Records -> seq<Byte>, dec: seq<Byte> -> Option<Records>, unused: Disk -> Path,
                 disk: Disk)
      requires Durable(disk, path)
      requires (forall r :: dec(enc(r)) == Some(r)) && forall d :: unused(d) !in d.live && unused(d) != path
      requires forall v :: v in Versions(disk, path) ==> v.None? || dec(v.value).Some?
      ensures Valid() && this.disk == disk && this.path == path && this.dec == dec
    {
      this.path, this.enc, this.dec, this.unused, this.disk := path, enc, dec, unused, disk;
    }

    method Load() returns (r: Records)
      requires Valid()
      ensures r == Contents()
    {
      Current();
      r := Read(OnDisk(disk, path)).value;
    }

    // The new records are visible, unless a call raised. The states on the way are one system call
    // apart; at each but the last a power loss leaves what it could have left before, and afterwards
    // it may leave the new records as well: always complete records, not always the latest.
    method Save(records: Records, fault: SaveFault) returns (ok: bool, ghost steps: seq<Disk>)
      requires Valid()
      modifies this
      ensures Valid() && (ok <==> fault.Works?)
      ensures Contents() == if ok then records else old(Contents())
      ensures Past() == old(Past()) + (if ok then {Some(enc(records))} else {})
      ensures Chain(old(disk), steps, disk)
      ensures if ok then steps != [] && AllKeep(old(disk), steps[..|steps| - 1], path)
              else AllKeep(old(disk), steps, path)
    {
      SpareIno(disk.inodes.Keys);
      var spare: Ino :| spare !in disk.inodes;
      var d;
      d, ok, steps := SaveVersion(disk, path, unused(disk), spare, enc(records), fault);
      disk := d;
    }
  }

  datatype PlanResult = Planned | NotPlannable | PlanNotSaved

  datatype VerifyResult =
    | Refused
    | Settled(state: State, bytesRead: nat)
    | Stopped(bytesRead: nat)   // the Interrupted and ReadFailed exceptions
    | NotSaved                  // the error of a failed save

  class Lifecycle {
    const stateFile: StateFile
    var records: Records

    ghost function View(): Store
      reads this, stateFile
      requires stateFile.Valid()
    {
      Store(records, stateFile.Contents())
    }

    // A new process takes what the last one saved.
    constructor (file: StateFile)
      requires file.Valid()
      ensures stateFile == file
      ensures View() == Store(file.Contents(), file.Contents())
    {
      stateFile := file;
      new;
      records := stateFile.Load();
    }

    // Changes one record in memory, then saves all of them.
    method Update(id: FileId, r: Record, fault: SaveFault)
      requires stateFile.Valid()
      modifies this, stateFile
      ensures stateFile.Valid() && old(stateFile.Past()) <= stateFile.Past()
      ensures records == old(records)[id := r]
      ensures View() == Store(records, if fault.Works? then records else old(View()).saved)
      ensures fault.Works? ==> Some(stateFile.enc(records)) in stateFile.Past()
    {
      records := records[id := r];
      ghost var steps;
      var ok;
      ok, steps := stateFile.Save(records, fault);
    }

    // None stands for the error of a failed save.
    method Observe(h: seq<Byte> -> Digest, id: FileId, file: Snapshot, fault: SaveFault)
      returns (bytesRead: Option<nat>)
      requires stateFile.Valid()
      modifies this, stateFile
      ensures stateFile.Valid() && old(stateFile.Past()) <= stateFile.Past()
      ensures View() == Perform(h, World(old(View()), map[]),
                             Act(Event.Observe(id, ReadFingerprint(h, file).0), fault.Works?)).store
      ensures bytesRead == if fault.Works? then Some(ReadFingerprint(h, file).1) else None
    {
      var (fingerprint, count) := ReadFingerprint(h, file);
      ObserveFingerprint(h, id, fingerprint, fault);
      bytesRead := if fault.Works? then Some(count) else None;
    }

    // The locked part of `observe`.
    method ObserveFingerprint(h: seq<Byte> -> Digest, id: FileId, fingerprint: Fingerprint, fault: SaveFault)
      requires stateFile.Valid()
      modifies this, stateFile
      ensures stateFile.Valid() && old(stateFile.Past()) <= stateFile.Past()
      ensures View() == Perform(h, World(old(View()), map[]), Act(Event.Observe(id, fingerprint), fault.Works?)).store
    {
      var r := Get(records, id);
      if r.state.Provisional? || r.state.Verified? {
        if Some(fingerprint) != r.fingerprint {
          r := Invalidated(r, State.Stale);
        }
      } else {
        r := r.(state := State.Provisional, fingerprint := Some(fingerprint), digest := None);
      }
      Update(id, r, fault);
    }

    // NotPlannable stands for the HarnessError on evidence that cannot be planned on.
    method PlanOn(h: seq<Byte> -> Digest, id: FileId, name: Name, fault: SaveFault) returns (result: PlanResult)
      requires stateFile.Valid()
      modifies this, stateFile
      ensures stateFile.Valid() && old(stateFile.Past()) <= stateFile.Past()
      ensures View() == Perform(h, World(old(View()), map[]), Act(Event.Plan(id, name), fault.Works?)).store
      ensures result == if !Plannable(Get(old(records), id)) then NotPlannable
                        else if fault.Works? then Planned else PlanNotSaved
      ensures result.Planned? ==> Some(stateFile.enc(records)) in stateFile.Past()
    {
      PlanStep(h, View(), id, name);
      var r := Get(records, id);
      if !Plannable(r) {
        records := records[id := r];
        return NotPlannable;
      }
      Update(id, r.(plans := r.plans[name := if r.state.Verified? then Committable else Held]), fault);
      result := if fault.Works? then Planned else PlanNotSaved;
    }

    method Produce(h: seq<Byte> -> Digest, id: FileId, name: Name, fault: SaveFault)
      requires stateFile.Valid()
      modifies this, stateFile
      ensures stateFile.Valid() && old(stateFile.Past()) <= stateFile.Past()
      ensures View() == Perform(h, World(old(View()), map[]), Act(Event.Produce(id, name), fault.Works?)).store
    {
      var r := Get(records, id);
      Update(id, r.(outputs := r.outputs[name := Kept]), fault);
    }

    // The locked head of `verify`: the fingerprint to verify against, unless it is refused.
    method BeginVerify(h: seq<Byte> -> Digest, id: FileId, ghost thread: nat) returns (flight: Option<Flight>)
      requires stateFile.Valid()
      requires Get(records, id).state.Provisional? ==> Get(records, id).fingerprint.Some?
      modifies this
      ensures View() == Step(h, World(old(View()), map[]), Begin(thread, id)).store
      ensures flight == if Get(old(records), id).state.Provisional?
                        then Some(Flight(id, Get(old(records), id).fingerprint.value)) else None
    {
      var r := Get(records, id);
      records := records[id := r];
      flight := if r.state.Provisional? then Some(Flight(id, r.fingerprint.value)) else None;
    }

    // `_finish`: it acts on the record as it is now, whatever happened since the begin.
    method FinishVerify(id: FileId, o: Outcome, fault: SaveFault)
      requires stateFile.Valid()
      modifies this, stateFile
      ensures stateFile.Valid() && old(stateFile.Past()) <= stateFile.Past()
      ensures records == old(records)[id := FinishRecord(Get(old(records), id), o)]
      ensures View() == Store(records, if fault.Works? then records else old(View()).saved)
    {
      var r := Get(records, id);
      match o {
        case Proven(d) =>
          var plans := Promoted(r.plans);
          r := r.(state := State.Verified, digest := Some(d), plans := plans);
        case Drifted => r := Invalidated(r, State.Stale);
        case Mismatched => r := Invalidated(r, State.Disagreement);
      }
      Update(id, r, fault);
    }

    // One step of another thread.
    method Other(h: seq<Byte> -> Digest, m: Act, flights0: map<nat, Flight>) returns (flights: map<nat, Flight>)
      requires stateFile.Valid() && WorldOk(World(View(), flights0)) && !m.event.Restart?
      modifies this, stateFile
      ensures stateFile.Valid() && old(stateFile.Past()) <= stateFile.Past()
      ensures World(View(), flights) == Perform(h, World(old(View()), flights0), m)
    {
      flights := flights0;
      var fault: SaveFault :| fault.Works? <==> m.saves;
      match m.event {
        case Observe(id, fingerprint) => ObserveFingerprint(h, id, fingerprint, fault);
        case Plan(id, name) => var _ := PlanOn(h, id, name, fault);
        case Produce(id, name) => Produce(h, id, name, fault);
        case Begin(thread, id) =>
          assert RecordOk(Get(View().records, id));
          var flight := BeginVerify(h, id, thread);
          if flight.Some? { flights := flights[thread := flight.value]; }
        case Finish(thread, read) =>
          if thread in flights {
            var f := flights[thread];
            FinishVerify(f.id, Judge(h, f.expected, read), fault);
            flights := flights - {thread};
          }
        case Interrupt(thread) => flights := flights - {thread};
      }
    }

    method Others(h: seq<Byte> -> Digest, acts: seq<Act>, flights0: map<nat, Flight>, ghost thread: nat)
      returns (flights: map<nat, Flight>)
      requires stateFile.Valid() && WorldOk(World(View(), flights0)) && AllForeign(acts, thread)
      modifies this, stateFile
      ensures stateFile.Valid() && old(stateFile.Past()) <= stateFile.Past()
      ensures World(View(), flights) == Run(h, World(old(View()), flights0), acts) && WorldOk(World(View(), flights))
    {
      flights := flights0;
      ghost var w := World(View(), flights0);
      for i := 0 to |acts|
        invariant stateFile.Valid() && old(stateFile.Past()) <= stateFile.Past()
        invariant WorldOk(World(View(), flights)) && World(View(), flights) == Run(h, w, acts[..i])
      {
        assert Foreign(acts[i].event, thread);
        PerformOk(h, World(View(), flights), acts[i]);
        RunNext(h, w, acts, i);
        flights := Other(h, acts[i], flights);
      }
      assert acts[..|acts|] == acts;
    }

    // The head of `verify`, and the operations of all other threads until its reads are done.
    method BeginAmongOthers(h: seq<Byte> -> Digest, id: FileId, thread: nat, others: seq<Act>,
                            flights0: map<nat, Flight>)
      returns (flight: Option<Flight>, flights: map<nat, Flight>)
      requires stateFile.Valid() && WorldOk(World(View(), flights0)) && AllForeign(others, thread)
      modifies this, stateFile
      ensures stateFile.Valid() && old(stateFile.Past()) <= stateFile.Past()
      ensures flight == if Get(old(records), id).state.Provisional? && Get(old(records), id).fingerprint.Some?
                        then Some(Flight(id, Get(old(records), id).fingerprint.value)) else None
      ensures flight.None? ==> !Get(old(records), id).state.Provisional?
      ensures World(View(), flights) ==
              var begun := Step(h, World(old(View()), flights0), Begin(thread, id));
              if flight.None? then begun else Run(h, begun, others)
      ensures WorldOk(World(View(), flights))
      ensures flight.Some? ==> thread in flights && flights[thread] == flight.value
    {
      ghost var w := World(View(), flights0);
      assert RecordOk(Get(records, id));
      StepOk(h, w, Begin(thread, id));
      flight := BeginVerify(h, id, thread);
      flights := flights0;
      if flight.None? { return; }
      flights := flights0[thread := flight.value];
      assert World(View(), flights) == Step(h, w, Begin(thread, id));
      FlightStays(h, World(View(), flights), others, thread);
      flights := Others(h, others, flights, thread);
    }

    // A verification by one thread: `others` are the operations of all other threads until its
    // finish, `later` those between the finish and the reading of the state that it reports.
    method Verify(h: seq<Byte> -> Digest, id: FileId, thread: nat, read: Reading, stopAt: Option<nat>, fault: SaveFault,
                  others: seq<Act>, later: seq<Act>, flights0: map<nat, Flight>)
      returns (v: VerifyResult, flights: map<nat, Flight>)
      requires stateFile.Valid() && WorldOk(World(View(), flights0))
      requires AllForeign(others, thread) && AllForeign(later, thread)
      modifies this, stateFile
      ensures stateFile.Valid() && old(stateFile.Past()) <= stateFile.Past()
      ensures World(View(), flights) ==
              VerifiedWorld(h, World(old(View()), flights0), id, thread, read, fault.Works?, others, later, v)
      ensures VerifyReport(Get(old(records), id), records, id, read, stopAt, fault.Works?, v)
    {
      var flight;
      flight, flights := BeginAmongOthers(h, id, thread, others, flights0);
      if flight.None? { return Refused, flights; }
      ghost var before := World(View(), flights);
      FinishStep(h, before, thread, read);
      PerformOk(h, before, Act(Finish(thread, read), fault.Works?));
      v := ReadAndSettle(h, id, flight.value.expected, read, stopAt, fault);
      flights := flights - {thread};
      if !v.Settled? { return; }
      assert World(View(), flights) == Perform(h, before, Act(Finish(thread, read), fault.Works?));
      flights := Others(h, later, flights, thread);
      if read.start == flight.value.expected.key { v := Settled(Get(records, id).state, v.bytesRead); }
    }

    // The reads of `verify` and the call of `_finish`.
    method ReadAndSettle(h: seq<Byte> -> Digest, id: FileId, expected: Fingerprint, read: Reading, stopAt: Option<nat>,
                         fault: SaveFault)
      returns (v: VerifyResult)
      requires stateFile.Valid()
      modifies this, stateFile
      ensures stateFile.Valid() && old(stateFile.Past()) <= stateFile.Past()
      ensures !v.Refused? && (v.Stopped? <==> read.start == expected.key && StopsReading(stopAt, |read.content|))
      ensures v.Stopped? ==> View() == old(View()) && stopAt.value <= v.bytesRead <= |read.content|
      ensures !v.Stopped? ==>
                && (v.NotSaved? <==> !fault.Works?)
                && records == old(records)[id := FinishRecord(Get(old(records), id), Judge(h, expected, read))]
                && View() == Store(records, if fault.Works? then records else old(View()).saved)
      ensures v.Settled? ==> v == if read.start == expected.key then Settled(Get(records, id).state, |read.content|)
                                  else Settled(State.Stale, 0)
    {
      var pass := Completed("", "", 0);
      if read.start == expected.key {
        pass := FullPass(h, read.content, read.start.size, stopAt);
      }
      if pass.Interrupted? { return Stopped(pass.bytesRead); }
      Settle(h, id, expected, read, pass, fault);
      v := if !fault.Works? then NotSaved
           else if read.start == expected.key then Settled(records[id].state, pass.bytesRead)
           else Settled(State.Stale, 0);
    }

    // The comparisons at the end of `verify`.
    method Settle(h: seq<Byte> -> Digest, id: FileId, expected: Fingerprint, read: Reading, pass: Pass,
                  fault: SaveFault)
      requires stateFile.Valid() && pass.Completed?
      requires read.start == expected.key ==>
                 pass.digest == h(read.content) && pass.window == StreamedWindow(h, read.content, read.start.size)
      modifies this, stateFile
      ensures stateFile.Valid() && old(stateFile.Past()) <= stateFile.Past()
      ensures records == old(records)[id := FinishRecord(Get(old(records), id), Judge(h, expected, read))]
      ensures View() == Store(records, if fault.Works? then records else old(View()).saved)
    {
      if read.start != expected.key || read.end != read.start {
        FinishVerify(id, Drifted, fault);
      } else if pass.window != expected.window {
        FinishVerify(id, Mismatched, fault);
      } else {
        FinishVerify(id, Proven(pass.digest), fault);
      }
    }
  }

  // The pass over `n` bytes reaches the byte at which it is to stop.
  predicate StopsReading(stopAt: Option<nat>, n: nat) {
    stopAt.Some? && 0 < n && stopAt.value <= n
  }

  // The steps that a verification with result `v` amounts to.
  ghost function VerifiedWorld(h: seq<Byte> -> Digest, w: World, id: FileId, thread: nat, read: Reading, saves: bool,
                          others: seq<Act>, later: seq<Act>, v: VerifyResult): World
  {
    var begun := Step(h, w, Begin(thread, id));
    var finished := Perform(h, Run(h, begun, others), Act(Finish(thread, read), saves));
    match v
    case Refused => begun
    case Settled(_, _) => Run(h, finished, later)
    case Stopped(_) => Step(h, Run(h, begun, others), Interrupt(thread))
    case NotSaved => finished
  }

  // Which result it is, and what it reports: the state is read after all, except when the file was
  // seen to have changed before the pass.
  ghost predicate VerifyReport(r: Record, records: Records, id: FileId, read: Reading, stopAt: Option<nat>, saves: bool,
                               v: VerifyResult)
  {
    && (v.Refused? <==> !r.state.Provisional?)
    && (!v.Refused? ==>
          && r.fingerprint.Some?
          && var same := read.start == r.fingerprint.value.key;
             && (v.Stopped? <==> same && StopsReading(stopAt, |read.content|))
             && (v.Stopped? ==> stopAt.value <= v.bytesRead <= |read.content|)
             && (!v.Stopped? ==> (v.NotSaved? <==> !saves))
             && (v.Settled? ==> v == if same then Settled(Get(records, id).state, |read.content|)
                                     else Settled(State.Stale, 0)))
  }

  lemma PlanStep(h: seq<Byte> -> Digest, s: Store, id: FileId, name: Name)
    ensures Step(h, World(s, map[]), Event.Plan(id, name)).store ==
            if Plannable(Get(s.records, id)) then s.Put(id, PlanRecord(Get(s.records, id), name)) else s.Touch(id)
  {
  }

  lemma FinishStep(h: seq<Byte> -> Digest, w: World, thread: nat, read: Reading)
    requires thread in w.flights
    ensures var f := w.flights[thread];
            Step(h, w, Finish(thread, read)) ==
            World(w.store.Put(f.id, FinishRecord(Get(w.store.records, f.id), Judge(h, f.expected, read))),
                  w.flights - {thread})
    ensures Step(h, w, Interrupt(thread)) == World(w.store, w.flights - {thread})
  {
  }

  lemma RunNext(h: seq<Byte> -> Digest, w: World, acts: seq<Act>, i: nat)
    requires i < |acts|
    ensures Run(h, w, acts[..i + 1]) == Perform(h, Run(h, w, acts[..i]), acts[i])
  {
    assert acts[..i + 1] == acts[..i] + [acts[i]];
    RunAppend(h, w, acts[..i], [acts[i]]);
    RunFirst(h, Run(h, w, acts[..i]), acts[i], []);
  }

  // ---- power loss ----

  // A plan made on one state of a file and revoked by the observation of another.
  lemma PlanRevoked(h: seq<Byte> -> Digest, s: Store, id: FileId, plan: Name, f: Fingerprint, g: Fingerprint)
    requires Get(s.records, id) == FRESH && f != g
    ensures var s1 := Step(h, World(s, map[]), Event.Observe(id, f)).store;
            var s2 := Step(h, World(s1, map[]), Event.Plan(id, plan)).store;
            var s3 := Step(h, World(s2, map[]), Event.Observe(id, g)).store;
            && Plannable(Get(s1.records, id))
            && plan in Get(s2.records, id).plans && Get(s2.records, id).plans[plan] == Held
            && plan in Get(s3.records, id).plans && Get(s3.records, id).plans[plan] == Revoked
            && s3.saved == s3.records
  {
  }

  // The directory of the state file is never synced, so revocation is not final across a power
  // loss: a plan revoked because its file changed can be held again afterwards.
  method RevokedPlanReturns(h: seq<Byte> -> Digest, file: StateFile, id: FileId, plan: Name, a: Snapshot, b: Snapshot)
    requires file.Valid() && Get(file.Contents(), id) == FRESH
    requires ReadFingerprint(h, a).0 != ReadFingerprint(h, b).0
    modifies file
    ensures file.Valid() && plan in Get(file.Contents(), id).plans && Get(file.Contents(), id).plans[plan] == Revoked
    ensures exists e, r :: Crash(file.disk, e) && file.Read(OnDisk(e, file.path)) == Some(r)
                           && plan in Get(r, id).plans && Get(r, id).plans[plan] == Held
  {
    ghost var r;
    r := PlanThenChange(h, file, id, plan, a, b);
    PowerLoss(file.disk, file.path, Some(file.enc(r)));
    ghost var e :| Crash(file.disk, e) && OnDisk(e, file.path) == Some(file.enc(r));
    assert file.Read(OnDisk(e, file.path)) == Some(r);
  }

  method PlanThenChange(h: seq<Byte> -> Digest, file: StateFile, id: FileId, plan: Name, a: Snapshot, b: Snapshot)
    returns (ghost r: Records)
    requires file.Valid() && Get(file.Contents(), id) == FRESH
    requires ReadFingerprint(h, a).0 != ReadFingerprint(h, b).0
    modifies file
    ensures file.Valid() && plan in Get(file.Contents(), id).plans && Get(file.Contents(), id).plans[plan] == Revoked
    ensures plan in Get(r, id).plans && Get(r, id).plans[plan] == Held && Some(file.enc(r)) in file.Past()
  {
    var l := new Lifecycle(file);
    PlanRevoked(h, l.View(), id, plan, ReadFingerprint(h, a).0, ReadFingerprint(h, b).0);
    var n := l.Observe(h, id, a, Works);
    var planned := l.PlanOn(h, id, plan, Works);
    r := l.records;
    n := l.Observe(h, id, b, Works);
  }

  // ---- the loops over a record's plans and outputs ----

  method SetAll<V>(m: map<Name, V>, v: V) returns (r: map<Name, V>)
    ensures r == MapValues(_ => v, m)
  {
    r := m;
    var pending := m.Keys;
    while pending != {}
      invariant pending <= m.Keys && r.Keys == m.Keys
      invariant forall k :: k in m && k !in pending ==> r[k] == v
      decreases |pending|
    {
      var k :| k in pending;
      r := r[k := v];
      pending := pending - {k};
    }
    assert forall k :: k in m ==> r[k] == MapValues(_ => v, m)[k];
  }

  method Promoted(plans: map<Name, Disposition>) returns (r: map<Name, Disposition>)
    ensures r == MapValues(Promote, plans)
  {
    r := plans;
    var pending := plans.Keys;
    while pending != {}
      invariant pending <= plans.Keys && r.Keys == plans.Keys
      invariant forall k :: k in plans ==> r[k] == if k in pending then plans[k] else Promote(plans[k])
      decreases |pending|
    {
      var k :| k in pending;
      if r[k].Held? {
        r := r[k := Committable];
      }
      pending := pending - {k};
    }
    assert forall k :: k in plans ==> r[k] == MapValues(Promote, plans)[k];
  }

  method Invalidated(r: Record, state: State) returns (q: Record)
    ensures q == Invalidate(r, state)
  {
    var plans := SetAll(r.plans, Revoked);
    var outputs := SetAll(r.outputs, Quarantined);
    q := Record(state, r.fingerprint, None, plans, outputs);
    assert plans == MapValues(_ => Revoked, r.plans) by { MapValuesUnique(_ => Revoked, r.plans, plans); }
    assert outputs == MapValues(_ => Quarantined, r.outputs) by {
      MapValuesUnique(_ => Quarantined, r.outputs, outputs);
    }
  }
}
