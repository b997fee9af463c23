/**
 * The container guardian of containers/ffmpeg/runtime.py (`guardian`, `Engine.remove` and
 * `Engine.reconcile`) over an engine whose every command may fail, with or without its effect.
 * A failed command has no effect after it returns.
 */
module Guardian {
  import opened Basics

  type Id = string

  datatype Container = Container(name: string, tag: Option<string>)

  type Containers = map<Id, Container>

  // How a call ends: it returns, raises something the guardian catches (SetupError, OSError,
  // KeyError, TypeError, IndexError), or raises something else (a decoding error).
  datatype Ending = Fine | Caught | Uncaught

  datatype CreateReply = Printed(text: string) | CreateRaised(ending: Ending)

  // What the engine and the processes around it do during one operation.
  datatype Environment = Environment(
    build: Ending,                    // Engine(config)
    newId: Id,                        // the identity a created container gets
    created: bool,                    // whether `create` took effect
    createReply: CreateReply,
    listing: Ending,                  // `ps` by name and label
    inspection: Id -> Ending,
    removal: Id -> (bool, bool),      // `rm -f`: reported success, took effect
    inventoryFails: Id -> bool,       // `ps` by identity
    closedBeforeCreate: bool,         // the lease, when it is first looked at
    closedAfterCreate: bool,
    attach: Ending,                   // starting the attached client
    exitsAt: Option<nat>, exitCode: int,   // when and how the client ends, in polls
    closesAt: nat)                    // when the lease closes, in polls

  predicate ValidId(text: string) {
    |text| == 64 && forall c :: c in text ==> '0' <= c <= '9' || 'a' <= c <= 'f'
  }

  // What is assumed of the engine: a create that reports success has created the container, and
  // an identity it prints is the container's; a removal that reports success has removed it.
  ghost predicate Faithful(e: Environment) {
    && (e.createReply.Printed? ==> e.created && (ValidId(e.createReply.text) ==> e.createReply.text == e.newId))
    && (e.createReply.CreateRaised? ==> !e.createReply.ending.Fine?)
    && (forall id :: e.removal(id).0 ==> e.removal(id).1)
    && (e.closedBeforeCreate ==> e.closedAfterCreate)
  }

  predicate Owned(c: Container, name: string) {
    c.name == name && c.tag == Some(name)
  }

  ghost predicate NoneOwned(w: Containers, name: string) {
    forall id :: id in w ==> !Owned(w[id], name)
  }

  // ---- Engine.remove and Engine.reconcile ----

  method Remove(w0: Containers, e: Environment, id: Id) returns (w: Containers, ending: Ending)
    requires Faithful(e)
    ensures w == if e.removal(id).1 then w0 - {id} else w0
    ensures ending.Fine? ==> id !in w
    ensures ending == if e.removal(id).0 || (!e.inventoryFails(id) && (e.removal(id).1 || id !in w0)) then Fine
                      else Caught
  {
    var (reported, removed) := e.removal(id);
    w := if removed then w0 - {id} else w0;
    if reported { return w, Fine; }
    if e.inventoryFails(id) { return w, Caught; }
    ending := if id in w then Caught else Fine;
  }

  // A removal that `remove` accepts, of a container that is there.
  predicate Cleared(e: Environment, id: Id) {
    e.removal(id).0 || (!e.inventoryFails(id) && e.removal(id).1)
  }

  // `reconcile` gets past the first k listed containers: each is there and can be inspected, and
  // an owned one is removed on its first and only mention.
  ghost predicate Passes(w0: Containers, e: Environment, name: string, listed: seq<Id>, k: nat)
    requires k <= |listed|
  {
    forall m :: 0 <= m < k ==>
      && listed[m] in w0 && e.inspection(listed[m]).Fine?
      && (Owned(w0[listed[m]], name) ==> Cleared(e, listed[m]) && listed[m] !in listed[..m])
  }

  // `reconcile` gets as far as removing `id`.
  ghost predicate Reaches(w0: Containers, e: Environment, name: string, listed: seq<Id>, id: Id) {
    e.listing.Fine? && e.inspection(id).Fine? &&
    exists k :: 0 <= k < |listed| && listed[k] == id && Passes(w0, e, name, listed, k)
  }

  // `reconcile` ends with an exception that the guardian does not catch.
  ghost predicate ReconcileEscapes(w0: Containers, e: Environment, name: string, listed: seq<Id>) {
    e.listing.Uncaught? ||
    (e.listing.Fine? && exists k :: 0 <= k < |listed| && listed[k] in w0 && e.inspection(listed[k]).Uncaught?
                                    && Passes(w0, e, name, listed, k))
  }

  // What is reached by a `reconcile` that stops at listed container i.
  lemma StopsAt(w0: Containers, e: Environment, name: string, listed: seq<Id>, i: nat)
    requires i < |listed| && e.listing.Fine? && Passes(w0, e, name, listed, i) && !Passes(w0, e, name, listed, i + 1)
    ensures forall id :: Reaches(w0, e, name, listed, id) <==>
                           id in listed[..i] || (id == listed[i] && e.inspection(id).Fine?)
    ensures ReconcileEscapes(w0, e, name, listed) <==> listed[i] in w0 && e.inspection(listed[i]).Uncaught?
    ensures !Passes(w0, e, name, listed, |listed|)
  {
    forall k | 0 <= k < |listed| && Passes(w0, e, name, listed, k) ensures k <= i {
      if k > i { assert Passes(w0, e, name, listed, i + 1); }
    }
    forall id | id in listed[..i] ensures Reaches(w0, e, name, listed, id) {
      var m :| 0 <= m < i && listed[m] == id;
      assert Passes(w0, e, name, listed, m);
    }
  }

  // What has happened when the first i listed containers are dealt with.
  ghost predicate Visited(w0: Containers, w: Containers, e: Environment, name: string, listed: seq<Id>, i: nat) {
    && i <= |listed| && e.listing.Fine? && Passes(w0, e, name, listed, i)
    && w.Keys <= w0.Keys && (forall id :: id in w ==> w[id] == w0[id])
    && forall id :: id in w0 ==> (id !in w <==> Owned(w0[id], name) && id in listed[..i])
  }

  // Exactly the owned containers that are reached, and whose removal takes effect, are gone.
  ghost predicate Reconciled(w0: Containers, w: Containers, e: Environment, name: string, listed: seq<Id>) {
    && w.Keys <= w0.Keys && (forall id :: id in w ==> w[id] == w0[id])
    && forall id :: id in w0 ==>
         (id !in w <==> Owned(w0[id], name) && e.removal(id).1 && Reaches(w0, e, name, listed, id))
  }

  // One listed container: inspected, and removed if it is exactly this operation's.
  method Visit(w0: Containers, w1: Containers, e: Environment, name: string, listed: seq<Id>, i: nat)
    returns (w: Containers, ending: Ending)
    requires Faithful(e) && Visited(w0, w1, e, name, listed, i) && i < |listed|
    ensures ending.Fine? ==> Visited(w0, w, e, name, listed, i + 1)
    ensures !ending.Fine? ==> Reconciled(w0, w, e, name, listed) && !Passes(w0, e, name, listed, |listed|)
    ensures !ending.Fine? ==> (ending.Uncaught? <==> ReconcileEscapes(w0, e, name, listed))
  {
    var id := listed[i];
    w, ending := w1, Fine;
    if id !in w {
      ending := Caught;
    } else if !e.inspection(id).Fine? {
      ending := e.inspection(id);
    } else if w[id].name == name && w[id].tag == Some(name) {
      w, ending := Remove(w, e, id);
    }
    if ending.Fine? {
      PassNext(w0, w1, w, e, name, listed, i);
    } else {
      StopReconciled(w0, w1, w, e, name, listed, i);
      StopsAt(w0, e, name, listed, i);
    }
  }

  lemma PassNext(w0: Containers, w1: Containers, w: Containers, e: Environment, name: string, listed: seq<Id>, i: nat)
    requires Visited(w0, w1, e, name, listed, i) && i < |listed| && listed[i] in w1 && e.inspection(listed[i]).Fine?
    requires Owned(w1[listed[i]], name) ==> Cleared(e, listed[i])
    requires w == if Owned(w1[listed[i]], name) then w1 - {listed[i]} else w1
    ensures Visited(w0, w, e, name, listed, i + 1)
  {
    assert listed[..i + 1] == listed[..i] + [listed[i]];
  }

  lemma StopReconciled(w0: Containers, w1: Containers, w: Containers, e: Environment, name: string, listed: seq<Id>,
                       i: nat)
    requires Faithful(e) && Visited(w0, w1, e, name, listed, i) && i < |listed| && !Passes(w0, e, name, listed, i + 1)
    requires var id := listed[i];
             w == if id in w1 && e.inspection(id).Fine? && Owned(w1[id], name) && e.removal(id).1 then w1 - {id} else w1
    ensures Reconciled(w0, w, e, name, listed)
  {
    StopsAt(w0, e, name, listed, i);
    forall id | id in listed[..i] && id in w0 && Owned(w0[id], name) ensures e.removal(id).1 {
      var m :| 0 <= m < i && listed[m] == id;
    }
  }

  // `listed` is what `ps` printed; it may name containers that only resemble this operation's.
  method Reconcile(w0: Containers, e: Environment, name: string, listed: seq<Id>)
    returns (w: Containers, ending: Ending)
    requires Faithful(e)
    ensures Reconciled(w0, w, e, name, listed)
    // A container with another name or without this label is never removed; one with both that was
    // listed is left only if it raises.
    ensures forall id :: id in w0 && (w0[id].name != name || w0[id].tag != Some(name)) ==> id in w
    ensures ending.Fine? ==> forall id :: id in listed && id in w ==> w[id].name != name || w[id].tag != Some(name)
    // How it ends, exactly.
    ensures ending.Fine? <==> e.listing.Fine? && Passes(w0, e, name, listed, |listed|)
    ensures ending.Uncaught? <==> ReconcileEscapes(w0, e, name, listed)
  {
    w := w0;
    if !e.listing.Fine? { return w, e.listing; }
    for i := 0 to |listed|
      invariant Visited(w0, w, e, name, listed, i)
    {
      w, ending := Visit(w0, w, e, name, listed, i);
      if !ending.Fine? { return; }
    }
    PassedAll(w0, w, e, name, listed);
    ending := Fine;
  }

  lemma PassedAll(w0: Containers, w: Containers, e: Environment, name: string, listed: seq<Id>)
    requires Visited(w0, w, e, name, listed, |listed|)
    ensures Faithful(e) ==> Reconciled(w0, w, e, name, listed)
    ensures !ReconcileEscapes(w0, e, name, listed)
  {
    assert listed[..|listed|] == listed;
    forall id | id in listed ensures Reaches(w0, e, name, listed, id) {
      var m :| 0 <= m < |listed| && listed[m] == id;
      assert Passes(w0, e, name, listed, m);
    }
  }

  // ---- guardian ----

  datatype Exit = Returned(status: int) | Propagated

  function ClientStatus(code: int): int {
    if code >= 0 then code else 128 - code
  }

  // The wait loop: it polls until the client has ended or the lease is closed.
  method WaitLoop(e: Environment) returns (code: Option<int>, polls: nat)
    ensures polls <= e.closesAt
    ensures code == if e.exitsAt.Some? && e.exitsAt.value <= e.closesAt then Some(e.exitCode) else None
    ensures code.None? ==> polls == e.closesAt
  {
    polls := 0;
    while !(e.exitsAt.Some? && e.exitsAt.value <= polls) && polls < e.closesAt
      invariant polls <= e.closesAt
      invariant polls == 0 || !(e.exitsAt.Some? && e.exitsAt.value <= polls - 1)
    {
      polls := polls + 1;
    }
    code := if e.exitsAt.Some? && e.exitsAt.value <= polls then Some(e.exitCode) else None;
  }

  // ---- what one operation comes to ----

  // The container was made; its identity is known; the client ran to its end.
  ghost predicate Made(e: Environment) {
    e.build.Fine? && !e.closedBeforeCreate && e.created
  }

  ghost predicate Identified(e: Environment) {
    && e.build.Fine? && !e.closedBeforeCreate && e.createReply.Printed? && |e.createReply.text| == 64
    && forall c :: c in e.createReply.text ==> '0' <= c <= '9' || 'a' <= c <= 'f'
  }

  ghost predicate Completed(e: Environment) {
    && Identified(e) && !e.closedAfterCreate && e.attach.Fine?
    && e.exitsAt.Some? && e.exitsAt.value <= e.closesAt
  }

  ghost function World(w0: Containers, e: Environment, name: string): Containers {
    if Made(e) then w0[e.newId := Container(name, Some(name))] else w0
  }

  // An exception outside the caught classes leaves the `try` block.
  ghost predicate AttemptEscapes(e: Environment) {
    || e.build.Uncaught?
    || (e.build.Fine? && !e.closedBeforeCreate && e.createReply == CreateRaised(Uncaught))
    || (Identified(e) && !e.closedAfterCreate && e.attach.Uncaught?)
  }

  // The `try` block. `identity` is what cleanup will remove; None means it will reconcile.
  method Attempt(w0: Containers, e: Environment, name: string)
    returns (w: Containers, identity: Option<Id>, exit: Exit)
    requires Faithful(e)
    ensures w == World(w0, e, name)
    ensures identity == if Identified(e) then Some(e.newId) else None
    ensures exit == if AttemptEscapes(e) then Propagated
                    else Returned(if Completed(e) then ClientStatus(e.exitCode) else 125)
  {
    w, identity, exit := w0, None, Returned(125);
    if !e.build.Fine? {
      exit := if e.build.Caught? then exit else Propagated;
      return;
    }
    if e.closedBeforeCreate { return; }
    if e.created { w := w0[e.newId := Container(name, Some(name))]; }
    match e.createReply {
      case CreateRaised(ending) =>
        exit := if ending.Caught? then exit else Propagated;
        return;
      case Printed(text) =>
        if !ValidId(text) { return; }
        identity := Some(text);
    }
    if e.closedAfterCreate { return; }
    if !e.attach.Fine? {
      exit := if e.attach.Caught? then exit else Propagated;
      return;
    }
    var code, polls := WaitLoop(e);
    if code.Some? { exit := Returned(ClientStatus(code.value)); }
  }

  method RunGuardian(w0: Containers, e: Environment, name: string, listed: seq<Id>)
    returns (w: Containers, exit: Exit, attempted: bool)
    requires Faithful(e) && e.newId !in w0 && NoneOwned(w0, name)
    // Cleanup is attempted exactly when there was an engine to clean up with.
    ensures attempted <==> e.build.Fine?
    // The operation leaves no container exactly when a container it made was removed, by its
    // identity or by a reconciliation that got as far.
    ensures NoneOwned(w, name) <==>
              (Made(e) ==> e.removal(e.newId).1 &&
                           (Identified(e) || Reaches(World(w0, e, name), e, name, listed, e.newId)))
    // Containers that were there before are still there, unchanged.
    ensures forall id :: id in w0 ==> id in w && w[id] == w0[id]
    // The process ends without a status exactly when an exception outside the caught classes
    // leaves the `try` block or the reconciliation.
    ensures exit.Propagated? <==>
              || AttemptEscapes(e)
              || (e.build.Fine? && !Identified(e) && ReconcileEscapes(World(w0, e, name), e, name, listed))
    // Otherwise it reports the client's status exactly when the client ended in time and its
    // container is known to be gone, and 125 in all other cases.
    ensures exit.Returned? ==>
              exit.status == if !Completed(e) || !Cleared(e, e.newId) then 125
                             else if e.exitCode >= 0 then e.exitCode   // the client's own status
                             else 128 + -e.exitCode                    // ended by a signal
    // So a status other than 125 means that no container is left.
    ensures exit.Returned? && exit.status != 125 ==> NoneOwned(w, name)
  {
    var identity;
    w, identity, exit := Attempt(w0, e, name);
    attempted := e.build.Fine?;
    if !attempted { return; }
    var ending;
    if identity.Some? {
      w, ending := Remove(w, e, identity.value);
    } else {
      w, ending := Reconcile(w, e, name, listed);
    }
    match ending {
      case Fine =>
      case Caught => if exit.Returned? { exit := Returned(125); }
      case Uncaught => exit := Propagated;
    }
  }

  // Ways to leave a container behind without a status: a create that took effect and failed before
  // a listing that cannot be decoded, and an inspection that raises outside the caught classes. A
  // create that fails before any failed listing leaves its container in every case.
  lemma LeakRoutes(w0: Containers, e: Environment, name: string, listed: seq<Id>)
    requires Faithful(e) && e.newId !in w0 && Made(e)
    ensures e.createReply.CreateRaised? && !e.listing.Fine? ==>
              !Identified(e) && !Reaches(World(w0, e, name), e, name, listed, e.newId)
    ensures e.createReply.CreateRaised? && e.listing.Uncaught? ==> ReconcileEscapes(World(w0, e, name), e, name, listed)
    ensures e.createReply == CreateRaised(Uncaught) ==> AttemptEscapes(e)
    ensures listed != [] && listed[0] == e.newId && e.listing.Fine? && e.inspection(e.newId).Uncaught? ==>
              ReconcileEscapes(World(w0, e, name), e, name, listed)
              && !Reaches(World(w0, e, name), e, name, listed, e.newId)
  {
    if listed != [] && listed[0] == e.newId && e.listing.Fine? && e.inspection(e.newId).Uncaught? {
      assert Passes(World(w0, e, name), e, name, listed, 0);
    }
  }
}
