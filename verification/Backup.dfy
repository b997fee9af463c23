/**
 * The backup worker's copy (crates/voom-backup-worker/src/backup.rs): copy to a temporary file,
 * sync it, rename it into place, sync the directory; reconcile a destination that is already
 * there. Every disk state the copy passes through is returned, so that a crash can be placed
 * anywhere. Which system calls fail is an input.
 */
module Backup {
  import opened Basics
  import opened CrashDisk

  const COPY_BUFFER_BYTES: nat := 64 * 1024

  datatype Outcome = Outcome(sizeBytes: nat, checksum: string)

  datatype Result = Ok(outcome: Outcome) | ArtifactUnavailable | BackupFailure

  // One backup: where from, where to, and the bytes of the source.
  datatype Job = Job(source: Path, destination: Path, content: seq<Byte>)

  // The calls that fail; a read or write fails once the given number of bytes has passed.
  datatype Faults = Faults(sourceStat: bool, makeDir: bool, destStat: bool, sourceOpen: bool, destOpen: bool,
                           create: bool, readAt: Option<nat>, writeAt: Option<nat>, flush: bool, syncFile: bool,
                           rename: bool, syncDir: bool, remove: bool)

  const NO_FAULTS := Faults(false, false, false, false, false, false, None, None, false, false, false, false, false)

  function OutcomeOf(h: seq<Byte> -> Digest, data: seq<Byte>): Outcome {
    Outcome(|data|, "blake3:" + h(data))
  }

  function TempPath(destination: Path): Path
    requires destination.Entry?
  {
    Entry(destination.dir, destination.name + ".voom-backup-partial")
  }

  lemma TempIsOther(destination: Path)
    requires destination.Entry?
    ensures TempPath(destination) != destination && TempPath(destination).dir == destination.dir
  {
  }

  lemma OutcomeInjective(h: seq<Byte> -> Digest, a: seq<Byte>, b: seq<Byte>)
    requires CollisionFree(h)
    ensures OutcomeOf(h, a) == OutcomeOf(h, b) <==> a == b
  {
    assert ("blake3:" + h(a))[7..] == h(a) && ("blake3:" + h(b))[7..] == h(b);
  }

  // ---- what holds around a backup ----

  ghost predicate Holds(d: Disk, p: Path, content: seq<Byte>) {
    p in d.live && d.live[p] in d.inodes && d.inodes[d.live[p]].regular && d.inodes[d.live[p]].data == content
  }

  // The caller's part: the source is a durable regular file that stays as it is, and the
  // temporary path neither is the source nor links to it.
  ghost predicate Setting(d: Disk, j: Job) {
    && Valid(d) && j.destination.Entry? && TempPath(j.destination) != j.source
    && j.source in d.live && j.source !in d.pending && (j.source.Entry? ==> j.source.dir in d.durableDirs)
    && d.inodes[d.live[j.source]] == Inode(true, j.content, true)
    && forall i :: Some(i) in Possible(d, TempPath(j.destination)) ==> i != d.live[j.source] && d.inodes[i].regular
  }

  // Whatever a crash leaves at the destination is nothing or a durable, complete copy.
  ghost predicate DestinationSafe(d: Disk, j: Job) {
    && Valid(d)
    && (forall i :: Some(i) in Possible(d, j.destination) ==> d.inodes[i] == Inode(true, j.content, true))
    && (Lookup(d, j.destination).None? ==> Possible(d, j.destination) == {None})
  }

  ghost predicate Safe(d: Disk, j: Job) {
    Setting(d, j) && DestinationSafe(d, j)
  }

  ghost predicate AllSafe(steps: seq<Disk>, j: Job) {
    forall i :: 0 <= i < |steps| ==> Safe(steps[i], j)
  }

  ghost predicate AllSetting(steps: seq<Disk>, j: Job) {
    forall i :: 0 <= i < |steps| ==> Setting(steps[i], j)
  }

  // The file at the temporary path, if any, is not one that the destination may be linked to.
  ghost predicate Apart(d: Disk, j: Job)
    requires j.destination.Entry?
  {
    Lookup(d, TempPath(j.destination)).Some? ==> Lookup(d, TempPath(j.destination)) !in Possible(d, j.destination)
  }

  ghost predicate AllApart(steps: seq<Disk>, j: Job)
    requires j.destination.Entry?
  {
    forall i :: 0 <= i < |steps| ==> Apart(steps[i], j)
  }

  // The same files, links and durable state; at most a directory was created.
  ghost predicate OnlyDirs(d: Disk, e: Disk) {
    e == d.(dirs := e.dirs) && d.dirs <= e.dirs
  }

  // The destination has the same entry, and the file there the same contents.
  ghost predicate Untouched(d0: Disk, d: Disk, j: Job) {
    && Lookup(d, j.destination) == Lookup(d0, j.destination)
    && forall i :: Lookup(d0, j.destination) == Some(i) && i in d0.inodes ==>
         i in d.inodes && d.inodes[i] == d0.inodes[i]
  }

  // ---- each operation keeps it ----

  lemma CreateKeeps(d: Disk, j: Job, spare: Ino)
    requires Setting(d, j) && spare !in d.inodes
    ensures var (e, t) := Create(d, TempPath(j.destination), spare);
            && Setting(e, j)
            && Lookup(e, TempPath(j.destination)) == Some(t) && e.inodes[t] == Inode(true, [], false)
            && Lookup(e, j.destination) == Lookup(d, j.destination)
            && Possible(e, j.destination) == Possible(d, j.destination)
  {
    TempIsOther(j.destination);
    var temp := TempPath(j.destination);
    if Lookup(d, temp).None? {
      var d' := d.(inodes := d.inodes[spare := Inode(true, [], false)]);
      SetEntryValid(d', temp, Some(spare));
    }
  }

  // Opening the temporary file keeps the destination safe exactly when the two are not linked.
  lemma CreateSafeIff(d: Disk, j: Job, spare: Ino)
    requires Safe(d, j) && spare !in d.inodes
    ensures var e := Create(d, TempPath(j.destination), spare).0;
            && (Apart(d, j) ==> Safe(e, j) && Apart(e, j))
            && (!Apart(d, j) ==> !Safe(e, j))
  {
    CreateKeeps(d, j, spare);
    var t := Create(d, TempPath(j.destination), spare).1;
    if !Apart(d, j) { assert Some(t) in Possible(d, j.destination); }
  }

  // Changing the data or the sync state of the temporary file.
  lemma RewriteKeeps(d: Disk, j: Job, t: Ino, node: Inode)
    requires Setting(d, j) && Lookup(d, TempPath(j.destination)) == Some(t) && node.regular
    ensures var e := d.(inodes := d.inodes[t := node]);
            && Setting(e, j)
            && (Apart(e, j) <==> Apart(d, j)) && (Safe(d, j) && Apart(d, j) ==> Safe(e, j))
  {
  }

  lemma RenameKeeps(d: Disk, j: Job, t: Ino)
    requires Setting(d, j) && Lookup(d, TempPath(j.destination)) == Some(t)
    requires d.inodes[t] == Inode(true, j.content, true) && j.source != j.destination
    ensures var e := Rename(d, TempPath(j.destination), j.destination);
            && Setting(e, j) && Holds(e, j.destination, j.content) && e.inodes == d.inodes
            && Lookup(e, j.destination) == Some(t)
            && Possible(e, j.destination) == Possible(d, j.destination) + {Some(t)}
            && (Lookup(d, j.destination) != Some(t) ==> TempPath(j.destination) !in e.live)
            && (Apart(d, j) ==> Apart(e, j))
            && (Safe(d, j) ==> Safe(e, j))
  {
    if Lookup(d, j.destination) == Some(t) {
      assert Some(t) in Possible(d, j.destination);
    } else {
      TempIsOther(j.destination);
      var d1 := SetEntry(d, j.destination, Some(t));
      SetEntryValid(d, j.destination, Some(t));
      SetEntryValid(d1, TempPath(j.destination), None);
    }
  }

  lemma RemoveKeeps(d: Disk, j: Job)
    requires Setting(d, j)
    ensures var e := SetEntry(d, TempPath(j.destination), None);
            && Setting(e, j) && (Safe(d, j) ==> Safe(e, j)) && Apart(e, j)
            && Lookup(e, j.destination) == Lookup(d, j.destination)
            && Possible(e, j.destination) == Possible(d, j.destination)
  {
    TempIsOther(j.destination);
    SetEntryValid(d, TempPath(j.destination), None);
  }

  lemma SyncDirKeeps(d: Disk, j: Job)
    requires Setting(d, j)
    ensures var e := SyncDir(d, j.destination.dir);
            && Setting(e, j) && (Safe(d, j) ==> Safe(e, j)) && (Apart(d, j) ==> Apart(e, j))
            && Lookup(e, j.destination) == Lookup(d, j.destination)
            && Possible(e, j.destination) == {Lookup(d, j.destination)}
  {
  }

  lemma MakeDirKeeps(d: Disk, dir: string, j: Job)
    requires Setting(d, j)
    ensures var e := MakeDir(d, dir);
            Setting(e, j) && (Safe(d, j) ==> Safe(e, j)) && (Apart(e, j) <==> Apart(d, j))
  {
  }

  // ---- crashes ----

  lemma CrashKeepsSetting(d: Disk, e: Disk, j: Job)
    requires Setting(d, j) && Crash(d, e)
    ensures Setting(e, j)
  {
  }

  // After a crash in a safe state the destination is absent or complete, and the state is again
  // one in which a backup may start.
  lemma CrashKeepsSafe(d: Disk, e: Disk, j: Job)
    requires Safe(d, j) && Crash(d, e)
    ensures Safe(e, j)
    ensures Lookup(e, j.destination).None? || Holds(e, j.destination, j.content)
  {
  }

  // A copy outlives every crash exactly when its directory is durable and no crash can undo its
  // directory entry.
  lemma SurvivesIff(d: Disk, j: Job)
    requires Safe(d, j)
    ensures (forall e :: Crash(d, e) ==> Holds(e, j.destination, j.content))
            <==> j.destination.dir in d.durableDirs && None !in Possible(d, j.destination)
  {
    if j.destination.dir in d.durableDirs && None !in Possible(d, j.destination) {
      forall e | Crash(d, e) ensures Holds(e, j.destination, j.content) {
        CrashKeepsSafe(d, e, j);
        assert Lookup(e, j.destination) in Possible(d, j.destination);
      }
    }
    if j.destination.dir !in d.durableDirs {
      CrashedToIsCrash(d, d.durableDirs, j.destination, Lookup(d, j.destination));
      var e := CrashedTo(d, d.durableDirs, j.destination, Lookup(d, j.destination));
      assert !Holds(e, j.destination, j.content);
    }
    if None in Possible(d, j.destination) {
      CrashedToIsCrash(d, d.dirs, j.destination, None);
      var e := CrashedTo(d, d.dirs, j.destination, None);
      assert !Holds(e, j.destination, j.content);
    }
  }

  // ---- the code ----

  predicate IsRegular(d: Disk, p: Path) {
    p in d.live && d.live[p] in d.inodes && d.inodes[d.live[p]].regular
  }

  predicate FailsWithin(at: Option<nat>, n: nat) {
    at.Some? && at.value <= n
  }

  // One read, of any size, and what the hasher has seen with it.
  method ReadChunk(data: seq<Byte>, size: nat, fed0: seq<Byte>) returns (chunk: seq<Byte>, fed: seq<Byte>)
    requires size < |data| && fed0 == data[..size]
    ensures 1 <= |chunk| <= COPY_BUFFER_BYTES && size + |chunk| <= |data|
    ensures fed == fed0 + chunk && fed == data[..size + |chunk|]
  {
    var read :| 1 <= read <= COPY_BUFFER_BYTES && size + read <= |data|;
    chunk := data[size..size + read];
    fed := fed0 + chunk;
  }

  // `hash_stream`; None stands for the error that the caller classifies.
  method HashStream(h: seq<Byte> -> Digest, d: Disk, p: Path, openFails: bool, readAt: Option<nat>)
    returns (r: Option<Outcome>)
    ensures r == if openFails || !IsRegular(d, p) || FailsWithin(readAt, |d.inodes[d.live[p]].data|) then None
                 else Some(OutcomeOf(h, d.inodes[d.live[p]].data))
  {
    if openFails || !IsRegular(d, p) { return None; }
    var data := d.inodes[d.live[p]].data;
    var fed, size := [], 0;
    while size < |data|
      invariant size <= |data| && fed == data[..size]
    {
      if FailsWithin(readAt, size) { return None; }
      var chunk, more := ReadChunk(data, size, fed);
      fed, size := more, size + |chunk|;
    }
    if FailsWithin(readAt, size) { return None; }
    assert fed == data;
    r := Some(Outcome(size, "blake3:" + h(fed)));
  }

  // The transfer of `n` bytes gets through: the last read asks for more than there is, a write
  // fails at a byte that it writes.
  predicate Transfers(f: Faults, n: nat) {
    !FailsWithin(f.readAt, n) && !WriteFails(f, n) && !f.flush
  }

  predicate WriteFails(f: Faults, n: nat) {
    f.writeAt.Some? && f.writeAt.value < n
  }

  // The temporary file is opened.
  predicate Opens(f: Faults) {
    !f.sourceStat && !f.makeDir && !f.sourceOpen && !f.create
  }

  predicate Copies(f: Faults, n: nat) {
    !f.sourceOpen && !f.create && Transfers(f, n) && !f.syncFile
  }

  // A copy of `n` bytes blames the source: it could not be opened, or a read failed. When a read and
  // a write fail, the sizes of the chunks decide which comes first.
  predicate CopyBlames(f: Faults, n: nat) {
    f.sourceOpen || (!f.create && FailsWithin(f.readAt, n) && !WriteFails(f, n))
  }

  predicate CopyMayBlame(f: Faults, n: nat) {
    f.sourceOpen || (!f.create && FailsWithin(f.readAt, n))
  }

  // The calls of a reconciliation of `n` equal bytes succeed.
  predicate Reconciles(f: Faults, n: nat) {
    !f.sourceOpen && !f.destOpen && !FailsWithin(f.readAt, n)
  }

  // A state of the copy phase. `safe` says that the run started safe, with the temporary file
  // apart from the destination; it then stays so.
  ghost predicate Copying(d: Disk, j: Job, safe: bool) {
    Setting(d, j) && (safe ==> Safe(d, j) && Apart(d, j))
  }

  // The states since d0, one system call apart, all safe if the run is, and all with the temporary
  // file apart if the first is.
  ghost predicate Logged(d0: Disk, steps: seq<Disk>, d: Disk, j: Job, safe: bool) {
    && j.destination.Entry? && Chain(d0, steps, d) && AllSetting(steps, j)
    && (safe ==> AllSafe(steps, j)) && (Apart(d0, j) ==> AllApart(steps, j))
  }

  lemma LoggedLast(d0: Disk, steps: seq<Disk>, d: Disk, j: Job, safe: bool)
    requires Logged(d0, steps, d, j, safe) && Apart(d0, j)
    ensures Apart(d, j)
  {
  }

  lemma LogStep(d0: Disk, steps: seq<Disk>, d: Disk, op: Op, j: Job, safe: bool)
    requires Logged(d0, steps, d, j, safe) && Enabled(op, d)
    requires Setting(Effect(op, d), j) && (safe ==> Safe(Effect(op, d), j))
    requires Apart(d, j) ==> Apart(Effect(op, d), j)
    ensures Logged(d0, steps + [Effect(op, d)], Effect(op, d), j, safe)
  {
    ChainStep(d0, steps, d, op);
    if Apart(d0, j) { LoggedLast(d0, steps, d, j, safe); }
    AppendSetting(steps, Effect(op, d), j);
    if safe { AppendSafe(steps, Effect(op, d), j); }
  }

  lemma AppendSetting(steps: seq<Disk>, e: Disk, j: Job)
    requires AllSetting(steps, j) && Setting(e, j)
    ensures AllSetting(steps + [e], j)
    ensures AllApart(steps, j) && Apart(e, j) ==> AllApart(steps + [e], j)
  {
  }

  lemma AppendSafe(steps: seq<Disk>, e: Disk, j: Job)
    requires AllSafe(steps, j) && Safe(e, j)
    ensures AllSafe(steps + [e], j)
  {
  }

  lemma LogJoin(a: Disk, s: seq<Disk>, b: Disk, t: seq<Disk>, c: Disk, j: Job, safe: bool)
    requires Logged(a, s, b, j, safe) && Logged(b, t, c, j, safe)
    ensures Logged(a, s + t, c, j, safe)
  {
    ChainJoin(a, s, b, t, c);
    if Apart(a, j) { LoggedLast(a, s, b, j, safe); }
  }

  // Only the file `t` differs, as far as its entries are concerned nothing.
  ghost predicate OnlyData(d0: Disk, d: Disk, t: Ino) {
    && d.live == d0.live && d.pending == d0.pending
    && forall i :: i in d0.inodes && i != t ==> i in d.inodes && d.inodes[i] == d0.inodes[i]
  }

  // A state of the copy loop: since `start` only the temporary file `t` changed.
  ghost predicate InLoop(start: Disk, steps: seq<Disk>, d: Disk, j: Job, t: Ino, safe: bool) {
    && Copying(d, j, safe) && Logged(start, steps, d, j, safe) && OnlyData(start, d, t)
    && Lookup(d, TempPath(j.destination)) == Some(t)
  }

  // Appending to the temporary file stays in the loop.
  lemma WriteStep(start: Disk, steps: seq<Disk>, d: Disk, j: Job, t: Ino, safe: bool, bytes: seq<Byte>)
    requires InLoop(start, steps, d, j, t, safe)
    ensures InLoop(start, steps + [Append(d, t, bytes)], Append(d, t, bytes), j, t, safe)
  {
    RewriteKeeps(d, j, t, Inode(d.inodes[t].regular, d.inodes[t].data + bytes, false));
    LogStep(start, steps, d, Write(t, bytes), j, safe);
  }

  // `write_all` of one chunk; a failed write leaves any prefix of it.
  method WriteChunk(start: Disk, steps0: seq<Disk>, d0: Disk, j: Job, t: Ino, chunk: seq<Byte>, fails: bool,
                    ghost safe: bool)
    returns (d: Disk, steps: seq<Disk>)
    requires InLoop(start, steps0, d0, j, t, safe)
    ensures InLoop(start, steps, d, j, t, safe)
    ensures !fails ==> d.inodes[t] == Inode(d0.inodes[t].regular, d0.inodes[t].data + chunk, false)
  {
    var n :| 0 <= n <= |chunk| && (!fails ==> n == |chunk|);
    WriteStep(start, steps0, d0, j, t, safe, chunk[..n]);
    d := Append(d0, t, chunk[..n]);
    steps := steps0 + [d];
    assert !fails ==> chunk[..n] == chunk;
  }

  // The copy loop after `fed` was read and written.
  ghost predicate CopiedSoFar(d0: Disk, steps: seq<Disk>, d: Disk, j: Job, t: Ino, f: Faults, fed: seq<Byte>,
                              safe: bool)
  {
    && InLoop(d0, steps, d, j, t, safe) && d.inodes[t] == Inode(true, fed, false)
    && |fed| <= |j.content| && fed == j.content[..|fed|] && (f.writeAt.Some? ==> f.writeAt.value >= |fed|)
  }

  // One round of the copy loop; a result other than None ends it.
  method CopyRound(d0: Disk, steps0: seq<Disk>, d1: Disk, j: Job, t: Ino, f: Faults, data: seq<Byte>, fed0: seq<Byte>,
                   ghost safe: bool)
    returns (d: Disk, steps: seq<Disk>, fed: seq<Byte>, error: Option<Result>)
    requires CopiedSoFar(d0, steps0, d1, j, t, f, fed0, safe) && data == j.content && |fed0| < |data|
    ensures InLoop(d0, steps, d, j, t, safe)
    ensures error.None? ==> CopiedSoFar(d0, steps, d, j, t, f, fed, safe) && |fed0| < |fed|
    ensures error.Some? ==> !Transfers(f, |data|) && !error.value.Ok?
    ensures error.Some? ==> if error.value.ArtifactUnavailable? then FailsWithin(f.readAt, |data|)
                            else WriteFails(f, |data|)
  {
    d, steps, fed, error := d1, steps0, fed0, None;
    if FailsWithin(f.readAt, |fed0|) { return d, steps, fed, Some(ArtifactUnavailable); }
    var chunk, more := ReadChunk(data, |fed0|, fed0);
    var failed := FailsWithin(f.writeAt, |more| - 1);
    d, steps := WriteChunk(d0, steps, d, j, t, chunk, failed, safe);
    if failed { return d, steps, fed, Some(BackupFailure); }
    fed := more;
  }

  // The copy loop: reads chunk by chunk and appends each chunk to the temporary file `t`.
  method CopyChunks(h: seq<Byte> -> Digest, d0: Disk, j: Job, t: Ino, f: Faults, ghost safe: bool)
    returns (d: Disk, r: Result, steps: seq<Disk>)
    requires Copying(d0, j, safe)
    requires Lookup(d0, TempPath(j.destination)) == Some(t) && d0.inodes[t] == Inode(true, [], false)
    ensures InLoop(d0, steps, d, j, t, safe)
    ensures r.Ok? <==> Transfers(f, |j.content|)
    ensures r.Ok? ==> r.outcome == OutcomeOf(h, j.content) && d.inodes[t] == Inode(true, j.content, false)
    ensures r.ArtifactUnavailable? ==> FailsWithin(f.readAt, |j.content|)
    ensures FailsWithin(f.readAt, |j.content|) && !WriteFails(f, |j.content|) ==> r.ArtifactUnavailable?
  {
    var data := d0.inodes[d0.live[j.source]].data;
    d, steps := d0, [];
    assert Chain(d0, [], d0);
    var fed, error := [], None;
    while |fed| < |data|
      invariant CopiedSoFar(d0, steps, d, j, t, f, fed, safe)
      decreases |data| - |fed|
    {
      d, steps, fed, error := CopyRound(d0, steps, d, j, t, f, data, fed, safe);
      if error.Some? { return d, error.value, steps; }
    }
    assert fed == data;
    if FailsWithin(f.readAt, |fed|) { return d, ArtifactUnavailable, steps; }
    if f.flush { return d, BackupFailure, steps; }
    r := Ok(Outcome(|fed|, "blake3:" + h(fed)));
  }

  // How a copy phase from d0 may treat the destination: its entry stays, and so does the file
  // there if the temporary file was apart from it.
  ghost predicate Spares(d0: Disk, d: Disk, j: Job) {
    && j.destination.Entry? && Possible(d, j.destination) == Possible(d0, j.destination)
    && Lookup(d, j.destination) == Lookup(d0, j.destination)
    && (Apart(d0, j) ==> Untouched(d0, d, j) && Apart(d, j))
  }

  lemma DataSpares(d0: Disk, d: Disk, e: Disk, j: Job, t: Ino)
    requires Setting(d0, j) && Spares(d0, d, j) && OnlyData(d, e, t) && Lookup(d, TempPath(j.destination)) == Some(t)
    ensures Spares(d0, e, j)
  {
    if Apart(d0, j) { assert Lookup(d0, j.destination) in Possible(d0, j.destination); }
  }

  // `File::create` on the temporary path.
  method OpenTemp(d0: Disk, j: Job, ghost safe: bool) returns (d: Disk, t: Ino)
    requires Copying(d0, j, safe)
    ensures Logged(d0, [d], d, j, safe) && Copying(d, j, safe) && Spares(d0, d, j)
    ensures Lookup(d, TempPath(j.destination)) == Some(t) && d.inodes[t] == Inode(true, [], false)
    ensures Safe(d0, j) && !Apart(d0, j) ==> !Safe(d, j)
  {
    SpareIno(d0.inodes.Keys);
    var spare: Ino :| spare !in d0.inodes;
    CreateKeeps(d0, j, spare);
    if Safe(d0, j) { CreateSafeIff(d0, j, spare); }
    var made := Create(d0, TempPath(j.destination), spare);
    d, t := made.0, made.1;
    assert Chain(d0, [], d0);
    LogStep(d0, [], d0, Open(TempPath(j.destination), spare), j, safe);
    assert [] + [d] == [d];
    CreateSpares(d0, j, spare);
  }

  lemma CreateSpares(d0: Disk, j: Job, spare: Ino)
    requires Setting(d0, j) && spare !in d0.inodes
    ensures Spares(d0, Create(d0, TempPath(j.destination), spare).0, j)
  {
    CreateKeeps(d0, j, spare);
    assert Lookup(d0, j.destination) in Possible(d0, j.destination);
    assert forall i :: Some(i) in Possible(d0, j.destination) ==> i in d0.inodes;
  }

  lemma SyncStep(d0: Disk, steps: seq<Disk>, d: Disk, j: Job, t: Ino, safe: bool)
    requires Setting(d0, j) && Logged(d0, steps, d, j, safe) && Copying(d, j, safe) && Spares(d0, d, j)
    requires Lookup(d, TempPath(j.destination)) == Some(t) && d.inodes[t].regular
    ensures var e := SyncFile(d, t);
            Logged(d0, steps + [e], e, j, safe) && Copying(e, j, safe) && Spares(d0, e, j)
  {
    RewriteKeeps(d, j, t, d.inodes[t].(synced := true));
    LogStep(d0, steps, d, Fsync(t), j, safe);
    DataSpares(d0, d, SyncFile(d, t), j, t);
  }

  method CopySourceToTemp(h: seq<Byte> -> Digest, d0: Disk, j: Job, f: Faults, ghost safe: bool)
    returns (d: Disk, r: Result, t: Ino, steps: seq<Disk>)
    requires Copying(d0, j, safe)
    ensures Logged(d0, steps, d, j, safe) && Copying(d, j, safe) && Spares(d0, d, j)
    ensures r.Ok? <==> Copies(f, |j.content|)
    ensures r.Ok? ==> && r.outcome == OutcomeOf(h, j.content) && Lookup(d, TempPath(j.destination)) == Some(t)
                      && d.inodes[t] == Inode(true, j.content, true)
    ensures CopyBlames(f, |j.content|) ==> r.ArtifactUnavailable?
    ensures r.ArtifactUnavailable? ==> CopyMayBlame(f, |j.content|)
    ensures if f.sourceOpen || f.create then d == d0 && steps == []
            else Safe(d0, j) && !Apart(d0, j) ==> steps != [] && !Safe(steps[0], j)
  {
    if f.sourceOpen { return d0, ArtifactUnavailable, 0, []; }
    if f.create { return d0, BackupFailure, 0, []; }
    var created, more;
    created, t := OpenTemp(d0, j, safe);
    d, r, more := CopyChunks(h, created, j, t, f, safe);
    DataSpares(d0, created, d, j, t);
    LogJoin(d0, [created], created, more, d, j, safe);
    steps := [created] + more;
    if !r.Ok? { return; }
    if f.syncFile { r := BackupFailure; return; }
    SyncStep(d0, steps, d, j, t, safe);
    d := SyncFile(d, t);
    steps := steps + [d];
  }

  // The clean-up of the temporary file, whose own failure is ignored.
  method RemoveTemp(d0: Disk, j: Job, f: Faults, ghost safe: bool) returns (d: Disk, steps: seq<Disk>)
    requires Copying(d0, j, safe)
    ensures Logged(d0, steps, d, j, safe) && Copying(d, j, safe) && Spares(d0, d, j)
    ensures Safe(d0, j) ==> AllSafe(steps, j) && Safe(d, j)
    ensures !f.remove ==> TempPath(j.destination) !in d.live
  {
    d, steps := d0, [];
    if !f.remove && TempPath(j.destination) in d.live {
      RemoveKeeps(d, j);
      LogStep(d0, [], d, Unlink(TempPath(j.destination)), j, safe);
      d := SetEntry(d, TempPath(j.destination), None);
      steps := [] + [d];
    }
  }

  // Rename and directory sync of a complete temporary file `t`.
  method Promote(d0: Disk, j: Job, t: Ino, syncFails: bool, ghost safe: bool)
    returns (d: Disk, ok: bool, steps: seq<Disk>)
    requires Copying(d0, j, safe) && j.source != j.destination
    requires Lookup(d0, TempPath(j.destination)) == Some(t) && d0.inodes[t] == Inode(true, j.content, true)
    ensures Logged(d0, steps, d, j, safe) && Setting(d, j) && (safe ==> Safe(d, j))
    ensures Holds(d, j.destination, j.content) && Lookup(d, j.destination) == Some(t)
    ensures Lookup(d0, j.destination) != Some(t) ==> TempPath(j.destination) !in d.live
    ensures ok == !syncFails
    ensures ok ==> None !in Possible(d, j.destination)
    ensures !ok ==> Possible(d0, j.destination) <= Possible(d, j.destination)
  {
    RenameKeeps(d0, j, t);
    assert Chain(d0, [], d0);
    LogStep(d0, [], d0, Move(TempPath(j.destination), j.destination), j, safe);
    d := Rename(d0, TempPath(j.destination), j.destination);
    steps := [] + [d];
    ok := !syncFails;
    if !ok { return; }
    SyncDirKeeps(d, j);
    LogStep(d0, steps, d, FsyncDir(j.destination.dir), j, safe);
    d := SyncDir(d, j.destination.dir);
    steps := steps + [d];
  }

  // The copy path, and what it does to the destination for every combination of faults.
  ghost predicate CopyReport(h: seq<Byte> -> Digest, d0: Disk, d: Disk, r: Result, j: Job, f: Faults) {
    && Setting(d0, j) && Setting(d, j)
    && (r.Ok? <==> Copies(f, |j.content|) && !f.rename && !f.syncDir)
    && (r.Ok? ==> r.outcome == OutcomeOf(h, j.content) && None !in Possible(d, j.destination))
    && (CopyBlames(f, |j.content|) ==> r.ArtifactUnavailable?)
    && (r.ArtifactUnavailable? ==> CopyMayBlame(f, |j.content|))
    && (if Copies(f, |j.content|) && !f.rename
        then && Holds(d, j.destination, j.content)
             && (Apart(d0, j) ==> && Lookup(d, j.destination) != Lookup(d0, j.destination)
                                  && TempPath(j.destination) !in d.live)
             && (f.syncDir ==> r == BackupFailure && Possible(d0, j.destination) <= Possible(d, j.destination))
        else Spares(d0, d, j) && (!f.remove ==> TempPath(j.destination) !in d.live))
  }

  method CopyIntoTempThenPromote(h: seq<Byte> -> Digest, d0: Disk, j: Job, f: Faults, ghost safe: bool)
    returns (d: Disk, r: Result, steps: seq<Disk>)
    requires Copying(d0, j, safe) && j.source != j.destination
    ensures Logged(d0, steps, d, j, safe) && (safe ==> Safe(d, j))
    ensures CopyReport(h, d0, d, r, j, f)
    ensures Safe(d0, j) && !Apart(d0, j) ==> (AllSafe(steps, j) && Safe(d, j) <==> f.sourceOpen || f.create)
  {
    var copied, t, more, ok;
    copied, r, t, steps := CopySourceToTemp(h, d0, j, f, safe);
    if !r.Ok? || f.rename {
      r := if r.Ok? then BackupFailure else r;
      d, more := RemoveTemp(copied, j, f, safe);
    } else {
      d, ok, more := Promote(copied, j, t, f.syncDir, safe);
      r := if ok then r else BackupFailure;
      if Apart(d0, j) { assert Apart(copied, j) && Lookup(copied, j.destination) in Possible(copied, j.destination); }
    }
    LogJoin(d0, steps, copied, more, d, j, safe);
    assert steps != [] ==> (steps + more)[0] == steps[0];
    steps := steps + more;
  }

  method ReconcileExistingDestination(h: seq<Byte> -> Digest, d: Disk, j: Job, f: Faults) returns (r: Result)
    requires CollisionFree(h) && j.destination in d.live
    ensures r.Ok? ==> IsRegular(d, j.source) && r.outcome == OutcomeOf(h, d.inodes[d.live[j.source]].data)
    ensures r.Ok? <==> && IsRegular(d, j.source) && Holds(d, j.destination, d.inodes[d.live[j.source]].data)
                       && Reconciles(f, |d.inodes[d.live[j.source]].data|)
    ensures r.ArtifactUnavailable? <==>
              f.sourceOpen || !IsRegular(d, j.source) || FailsWithin(f.readAt, |d.inodes[d.live[j.source]].data|)
  {
    var sourceFacts := HashStream(h, d, j.source, f.sourceOpen, f.readAt);
    if sourceFacts.None? { return ArtifactUnavailable; }
    var destFacts := HashStream(h, d, j.destination, f.destOpen, f.readAt);
    if destFacts.None? { return BackupFailure; }
    OutcomeInjective(h, d.inodes[d.live[j.source]].data, d.inodes[d.live[j.destination]].data);
    r := if sourceFacts == destFacts then Ok(sourceFacts.value) else BackupFailure;
  }

  // ---- the whole backup ----

  // The destination is there and its metadata lookup finds it.
  ghost predicate Seen(d0: Disk, j: Job, f: Faults) {
    j.destination in d0.live && !f.destStat
  }

  // Exactly when the backup reports success.
  ghost predicate Succeeds(d0: Disk, j: Job, f: Faults) {
    && IsRegular(d0, j.source) && j.destination.Entry? && !f.sourceStat && !f.makeDir
    && if Seen(d0, j, f) then Holds(d0, j.destination, j.content) && Reconciles(f, |j.content|)
       else Copies(f, |j.content|) && !f.rename && !f.syncDir
  }

  // Exactly when the backup renames its copy over the destination path.
  ghost predicate Renames(d0: Disk, j: Job, f: Faults) {
    && IsRegular(d0, j.source) && j.destination.Entry? && !f.sourceStat && !f.makeDir
    && !Seen(d0, j, f) && Copies(f, |j.content|) && !f.rename
  }

  // A failed lookup lets the backup reopen a temporary file that the destination is linked to.
  ghost predicate Truncates(d0: Disk, j: Job, f: Faults)
    requires j.destination.Entry?
  {
    f.destStat && Opens(f) && !Apart(d0, j)
  }

  // The states on the way, one system call apart. From a safe state every one of them is safe, so
  // that a crash leaves the destination absent or complete, exactly unless a failed lookup lets a
  // linked temporary file be truncated. A destination that was seen is left alone at every step.
  ghost predicate CrashReport(d0: Disk, d: Disk, steps: seq<Disk>, j: Job, f: Faults)
    requires j.destination.Entry?
  {
    && Chain(d0, steps, d) && Setting(d, j) && AllSetting(steps, j)
    && (Safe(d0, j) ==> (AllSafe(steps, j) && Safe(d, j) <==> !Truncates(d0, j, f)))
    && (Apart(d0, j) ==> AllApart(steps, j))
    && (Seen(d0, j, f) ==> OnlyDirs(d0, d) && forall i :: 0 <= i < |steps| ==> OnlyDirs(d0, steps[i]))
  }

  ghost predicate Report(h: seq<Byte> -> Digest, d0: Disk, d: Disk, r: Result, j: Job, f: Faults)
    requires j.destination.Entry?
  {
    // Success, exactly; it means a complete copy, reported with its size and checksum.
    && (r.Ok? <==> Succeeds(d0, j, f))
    && (r.Ok? ==> && r.outcome.sizeBytes == |j.content| && r.outcome.checksum == "blake3:" + h(j.content)
                  && r.outcome == OutcomeOf(h, j.content) && Holds(d, j.destination, j.content))
    // The source is blamed when it could not be looked up, opened or read, and only then; every
    // other failure is a failure of the backup.
    && (f.sourceStat ==> r.ArtifactUnavailable?)
    && (!f.sourceStat && f.makeDir ==> r == BackupFailure)
    && (!f.sourceStat && !f.makeDir && Seen(d0, j, f) ==>
          (r.ArtifactUnavailable? <==> f.sourceOpen || FailsWithin(f.readAt, |j.content|)))
    && (!f.sourceStat && !f.makeDir && !Seen(d0, j, f) ==>
          && (CopyBlames(f, |j.content|) ==> r.ArtifactUnavailable?)
          && (r.ArtifactUnavailable? ==> CopyMayBlame(f, |j.content|)))
    // A new copy has a durable directory entry; without the directory sync it fails and has not.
    && (r.Ok? && !Seen(d0, j, f) ==> None !in Possible(d, j.destination))
    && (Renames(d0, j, f) && f.syncDir ==>
          r == BackupFailure && Possible(d0, j.destination) <= Possible(d, j.destination))
    // The destination path gets the copy exactly when the rename happens: an entry that was there
    // is then replaced, and otherwise it and its file stay as they were.
    && (Renames(d0, j, f) ==> Holds(d, j.destination, j.content))
    && (Apart(d0, j) && j.destination in d0.live ==>
          && (Lookup(d, j.destination) != Lookup(d0, j.destination) <==> Renames(d0, j, f))
          && (!Renames(d0, j, f) ==> Untouched(d0, d, j)))
  }

  method BackUpFile(h: seq<Byte> -> Digest, d0: Disk, j: Job, f: Faults)
    returns (d: Disk, r: Result, steps: seq<Disk>)
    requires CollisionFree(h) && Valid(d0)
    requires IsRegular(d0, j.source) && j.destination.Entry? ==> Setting(d0, j)
    requires f.destStat ==> j.source != j.destination
    ensures !IsRegular(d0, j.source) ==> r == ArtifactUnavailable && d == d0 && steps == []
    ensures IsRegular(d0, j.source) && j.destination.Top? ==>
              r == (if f.sourceStat then ArtifactUnavailable else BackupFailure) && d == d0 && steps == []
    ensures IsRegular(d0, j.source) && j.destination.Entry? ==>
              CrashReport(d0, d, steps, j, f) && Report(h, d0, d, r, j, f)
  {
    if f.sourceStat || !IsRegular(d0, j.source) { return d0, ArtifactUnavailable, []; }
    if j.destination.Top? || f.makeDir { return d0, BackupFailure, []; }
    d, r, steps := BackUpInto(h, d0, j, f);
  }

  // From the creation of the destination's directory on.
  method BackUpInto(h: seq<Byte> -> Digest, d0: Disk, j: Job, f: Faults)
    returns (d: Disk, r: Result, steps: seq<Disk>)
    requires CollisionFree(h) && Setting(d0, j) && !f.sourceStat && !f.makeDir
    requires f.destStat ==> j.source != j.destination
    ensures CrashReport(d0, d, steps, j, f) && Report(h, d0, d, r, j, f)
  {
    var made := MakeDir(d0, j.destination.dir);
    MakeDirKeeps(d0, j.destination.dir, j);
    assert made == Effect(MkDir(j.destination.dir), d0);
    if !f.destStat && j.destination in made.live {
      d, steps := made, [made];
      r := ReconcileExistingDestination(h, made, j, f);
      return;
    }
    var more;
    d, r, more := CopyIntoTempThenPromote(h, made, j, f, Safe(made, j) && Apart(made, j));
    steps := [made] + more;
    CopyPathCrashes(d0, made, more, d, j, f);
    CopyPathReports(h, d0, made, d, r, j, f);
  }

  lemma CopyPathCrashes(d0: Disk, made: Disk, more: seq<Disk>, d: Disk, j: Job, f: Faults)
    requires Setting(d0, j) && made == MakeDir(d0, j.destination.dir) && !Seen(d0, j, f)
    requires !f.sourceStat && !f.makeDir && Setting(d, j)
    requires Logged(made, more, d, j, Safe(made, j) && Apart(made, j))
    requires Safe(made, j) && Apart(made, j) ==> Safe(d, j)
    requires Safe(made, j) && !Apart(made, j) ==> (AllSafe(more, j) && Safe(d, j) <==> f.sourceOpen || f.create)
    ensures CrashReport(d0, d, [made] + more, j, f)
  {
    MakeDirKeeps(d0, j.destination.dir, j);
    MakeDirChain(d0, made, j.destination.dir, more, d);
    FirstAndRestSafe(made, more, j);
    FirstAndRestSetting(made, more, j);
    FirstAndRestApart(made, more, j);
    if Safe(d0, j) && !f.destStat { assert Possible(d0, j.destination) == {None}; }
  }

  lemma MakeDirChain(d0: Disk, made: Disk, dir: string, more: seq<Disk>, d: Disk)
    requires made == MakeDir(d0, dir) && Chain(made, more, d)
    ensures Chain(d0, [made] + more, d)
  {
    assert OneOp(d0, made) by { assert made == Effect(MkDir(dir), d0); }
    assert Chain(d0, [made], made);
    ChainJoin(d0, [made], made, more, d);
  }

  lemma FirstAndRestSafe(first: Disk, rest: seq<Disk>, j: Job)
    ensures AllSafe([first] + rest, j) <==> Safe(first, j) && AllSafe(rest, j)
  {
    var all := [first] + rest;
    assert all[0] == first && forall i :: 0 <= i < |rest| ==> rest[i] == all[i + 1];
  }

  lemma FirstAndRestApart(first: Disk, rest: seq<Disk>, j: Job)
    requires j.destination.Entry?
    ensures AllApart([first] + rest, j) <==> Apart(first, j) && AllApart(rest, j)
  {
    var all := [first] + rest;
    assert all[0] == first && forall i :: 0 <= i < |rest| ==> rest[i] == all[i + 1];
  }

  lemma FirstAndRestSetting(first: Disk, rest: seq<Disk>, j: Job)
    ensures AllSetting([first] + rest, j) <==> Setting(first, j) && AllSetting(rest, j)
  {
    var all := [first] + rest;
    assert all[0] == first && forall i :: 0 <= i < |rest| ==> rest[i] == all[i + 1];
  }

  lemma CopyPathReports(h: seq<Byte> -> Digest, d0: Disk, made: Disk, d: Disk, r: Result, j: Job, f: Faults)
    requires Setting(d0, j) && made == MakeDir(d0, j.destination.dir) && !Seen(d0, j, f)
    requires !f.sourceStat && !f.makeDir && CopyReport(h, made, d, r, j, f)
    ensures Report(h, d0, d, r, j, f)
  {
  }

  // ---- whole histories ----

  // `e` is one of the states, or what a crash in one of them leaves.
  ghost predicate LeftBehind(states: seq<Disk>, e: Disk) {
    states != [] && (forall i :: 0 <= i < |states| ==> Valid(states[i])) ==>
      exists i :: 0 <= i < |states| && (e == states[i] || Crash(states[i], e))
  }

  lemma LeftBehindKeeps(d: Disk, steps: seq<Disk>, e: Disk, j: Job)
    requires Setting(d, j) && AllSetting(steps, j) && LeftBehind([d] + steps, e)
    ensures Setting(e, j) && (Safe(d, j) && AllSafe(steps, j) ==> Safe(e, j))
  {
    var states := [d] + steps;
    var i :| 0 <= i < |states| && (e == states[i] || Crash(states[i], e));
    if e != states[i] {
      CrashKeepsSetting(states[i], e, j);
      if Safe(states[i], j) { CrashKeepsSafe(states[i], e, j); }
    }
  }

  // What attempt n leaves of the states it went through.
  type Ends = (nat, seq<Disk>) -> Disk

  // Attempt n, from `d`, left `e` behind.
  ghost predicate Attempted(h: seq<Byte> -> Digest, j: Job, attempts: seq<Faults>, left: Ends, n: nat, d: Disk,
                            e: Disk)
  {
    n < |attempts| && j.destination.Entry? &&
    exists steps, end, r ::
      && CrashReport(d, end, steps, j, attempts[n]) && Report(h, d, end, r, j, attempts[n])
      && e == left(n, [d] + steps)
  }

  // `starts` are the disks the attempts found, from the first one on.
  ghost predicate Found(h: seq<Byte> -> Digest, j: Job, attempts: seq<Faults>, left: Ends, starts: seq<Disk>) {
    History((n: nat, d: Disk, e: Disk) => Attempted(h, j, attempts, left, n, d, e), starts)
  }

  lemma FoundNext(h: seq<Byte> -> Digest, j: Job, attempts: seq<Faults>, left: Ends, starts: seq<Disk>, e: Disk)
    requires Found(h, j, attempts, left, starts) && starts != []
    requires Attempted(h, j, attempts, left, |starts| - 1, starts[|starts| - 1], e)
    ensures Found(h, j, attempts, left, starts + [e])
  {
    HistoryGrows((n: nat, d: Disk, e: Disk) => Attempted(h, j, attempts, left, n, d, e), starts, e);
  }

  // Every attempt ends in one of its own states: no crash.
  ghost predicate NoCrash(left: Ends) {
    forall n, states :: states != [] ==> left(n, states) in states
  }

  // Consecutive states, each related to the next one by its own attempt.
  ghost predicate History<T(!new)>(next: (nat, T, T) -> bool, states: seq<T>) {
    forall i :: 0 <= i < |states| - 1 ==> next(i, states[i], states[i + 1])
  }

  lemma HistoryGrows<T(!new)>(next: (nat, T, T) -> bool, states: seq<T>, e: T)
    requires History(next, states) && states != [] && next(|states| - 1, states[|states| - 1], e)
    ensures History(next, states + [e])
  {
  }

  // Any number of attempts with any faults, each ended at any of its steps by itself, by the death
  // of its process or by a crash, followed by one undisturbed attempt: the destination equals the
  // source and the outcome is the one a first attempt would have given, unless one attempt
  // truncated a file that the destination was linked to. `starts` are the disks the attempts found.
  // Only a crash can make such a link.
  method RetryAfterCrashes(h: seq<Byte> -> Digest, d0: Disk, j: Job, attempts: seq<Faults>, left: Ends)
    returns (d: Disk, r: Result, starts: seq<Disk>)
    requires CollisionFree(h) && Safe(d0, j)
    requires forall i :: 0 <= i < |attempts| && attempts[i].destStat ==> j.source != j.destination
    requires forall n, states :: LeftBehind(states, left(n, states))
    ensures |starts| == |attempts| + 1 && starts[0] == d0 && Found(h, j, attempts, left, starts)
    ensures Report(h, starts[|attempts|], d, r, j, NO_FAULTS)
    ensures (forall i :: 0 <= i < |attempts| ==> !Truncates(starts[i], j, attempts[i])) ==>
              r == Ok(OutcomeOf(h, j.content)) && Holds(d, j.destination, j.content) && Safe(d, j)
    ensures Apart(d0, j) && NoCrash(left) ==>
              r == Ok(OutcomeOf(h, j.content)) && Holds(d, j.destination, j.content) && Safe(d, j)
  {
    starts := DisturbedAttempts(h, d0, j, attempts, left);
    d, r := Undisturbed(h, starts[|attempts|], j);
  }

  method DisturbedAttempts(h: seq<Byte> -> Digest, d0: Disk, j: Job, attempts: seq<Faults>, left: Ends)
    returns (starts: seq<Disk>)
    requires CollisionFree(h) && Safe(d0, j)
    requires forall i :: 0 <= i < |attempts| && attempts[i].destStat ==> j.source != j.destination
    requires forall n, states :: LeftBehind(states, left(n, states))
    ensures |starts| == |attempts| + 1 && starts[0] == d0 && Found(h, j, attempts, left, starts)
    ensures Setting(starts[|attempts|], j)
    ensures (forall i :: 0 <= i < |attempts| ==> !Truncates(starts[i], j, attempts[i])) ==> Safe(starts[|attempts|], j)
    ensures Apart(d0, j) && NoCrash(left) ==> Safe(starts[|attempts|], j)
  {
    starts := [d0];
    for n := 0 to |attempts|
      invariant SoFar(h, d0, j, attempts, left, starts) && |starts| == n + 1
    {
      var d := Disturbed(h, starts[n], j, attempts, left, n);
      SoFarNext(h, d0, j, attempts, left, starts, d);
      starts := starts + [d];
    }
  }

  // No attempt so far truncated a linked file.
  ghost predicate Unharmed(j: Job, attempts: seq<Faults>, starts: seq<Disk>)
    requires j.destination.Entry? && |starts| <= |attempts| + 1
  {
    forall i :: 0 <= i < |starts| - 1 ==> !Truncates(starts[i], j, attempts[i])
  }

  ghost predicate SoFar(h: seq<Byte> -> Digest, d0: Disk, j: Job, attempts: seq<Faults>, left: Ends,
                        starts: seq<Disk>)
  {
    && 0 < |starts| <= |attempts| + 1 && starts[0] == d0 && Found(h, j, attempts, left, starts)
    && var d := starts[|starts| - 1];
       && Setting(d, j) && (Unharmed(j, attempts, starts) ==> Safe(d, j))
       && (Apart(d0, j) && NoCrash(left) ==> Unharmed(j, attempts, starts) && Apart(d, j))
  }

  lemma SoFarNext(h: seq<Byte> -> Digest, d0: Disk, j: Job, attempts: seq<Faults>, left: Ends, starts: seq<Disk>,
                  e: Disk)
    requires SoFar(h, d0, j, attempts, left, starts) && |starts| <= |attempts|
    requires Setting(e, j)
    requires var n := |starts| - 1;
             && Attempted(h, j, attempts, left, n, starts[n], e)
             && (Safe(starts[n], j) && !Truncates(starts[n], j, attempts[n]) ==> Safe(e, j))
             && (Apart(starts[n], j) && NoCrash(left) ==> Apart(e, j))
    ensures SoFar(h, d0, j, attempts, left, starts + [e])
  {
    FoundNext(h, j, attempts, left, starts, e);
    UnharmedNext(j, attempts, starts, e);
  }

  lemma UnharmedNext(j: Job, attempts: seq<Faults>, starts: seq<Disk>, e: Disk)
    requires j.destination.Entry? && 0 < |starts| <= |attempts|
    ensures var n := |starts| - 1;
            Unharmed(j, attempts, starts + [e]) <==>
            Unharmed(j, attempts, starts) && !Truncates(starts[n], j, attempts[n])
  {
    var n, more := |starts| - 1, starts + [e];
    if Unharmed(j, attempts, more) {
      assert more[n] == starts[n];
      forall i | 0 <= i < n ensures !Truncates(starts[i], j, attempts[i]) { assert more[i] == starts[i]; }
    }
  }

  method Undisturbed(h: seq<Byte> -> Digest, d0: Disk, j: Job) returns (d: Disk, r: Result)
    requires CollisionFree(h) && Setting(d0, j)
    ensures Report(h, d0, d, r, j, NO_FAULTS)
    ensures Safe(d0, j) ==> r == Ok(OutcomeOf(h, j.content)) && Holds(d, j.destination, j.content) && Safe(d, j)
  {
    var steps;
    d, r, steps := BackUpFile(h, d0, j, NO_FAULTS);
  }

  // One attempt and what it leaves behind.
  method Disturbed(h: seq<Byte> -> Digest, d0: Disk, j: Job, attempts: seq<Faults>, left: Ends, n: nat)
    returns (d: Disk)
    requires CollisionFree(h) && Setting(d0, j) && n < |attempts|
    requires attempts[n].destStat ==> j.source != j.destination
    requires forall states :: LeftBehind(states, left(n, states))
    ensures Attempted(h, j, attempts, left, n, d0, d)
    ensures Setting(d, j) && (Safe(d0, j) && !Truncates(d0, j, attempts[n]) ==> Safe(d, j))
    ensures Apart(d0, j) && NoCrash(left) ==> Apart(d, j)
  {
    var after, result, steps := BackUpFile(h, d0, j, attempts[n]);
    d := left(n, [d0] + steps);
    LeftBehindKeeps(d0, steps, d, j);
    if Apart(d0, j) && NoCrash(left) { FirstAndRestApart(d0, steps, j); }
  }

  // The one loss: a crash after the rename may keep both entries of the complete file. The copy is
  // then in place; an attempt whose lookup of the destination fails opens the temporary path and
  // empties it.
  lemma FailedLookupLosesCopy(d: Disk, j: Job, t: Ino, spare: Ino) returns (e: Disk)
    requires Safe(d, j) && j.source != j.destination && j.destination.dir in d.dirs && spare !in d.inodes
    requires Lookup(d, TempPath(j.destination)) == Some(t) && d.inodes[t] == Inode(true, j.content, true)
    ensures Crash(Rename(d, TempPath(j.destination), j.destination), e)
    ensures Safe(e, j) && Holds(e, j.destination, j.content)
    ensures forall f: Faults :: f.destStat && Opens(f) ==> Truncates(e, j, f)
    ensures var emptied := Create(MakeDir(e, j.destination.dir), TempPath(j.destination), spare).0;
            j.content != [] ==> !Holds(emptied, j.destination, j.content)
  {
    RenameKeeps(d, j, t);
    TempIsOther(j.destination);
    var renamed, temp := Rename(d, TempPath(j.destination), j.destination), TempPath(j.destination);
    assert Some(t) in Possible(renamed, temp);
    CrashedToIsCrash(renamed, renamed.dirs, temp, Some(t));
    e := CrashedTo(renamed, renamed.dirs, temp, Some(t));
    CrashKeepsSafe(renamed, e, j);
    assert Lookup(e, temp) == Some(t) == Lookup(e, j.destination);
  }

  // A retry after a failed directory sync reports success without syncing the directory: some
  // crash still loses the copy that was reported.
  method RetryAfterFailedSync(h: seq<Byte> -> Digest, d0: Disk, j: Job) returns (d: Disk, r: Result)
    requires CollisionFree(h) && Safe(d0, j) && j.destination !in d0.live
    ensures r == Ok(OutcomeOf(h, j.content)) && Holds(d, j.destination, j.content)
    ensures exists e :: Crash(d, e) && !Holds(e, j.destination, j.content)
  {
    var first, steps;
    d, first, steps := BackUpFile(h, d0, j, NO_FAULTS.(syncDir := true));
    ghost var d1 := d;
    d, r, steps := BackUpFile(h, d, j, NO_FAULTS);
    assert Possible(d, j.destination) == Possible(d1, j.destination);
    SurvivesIff(d, j);
  }
}
