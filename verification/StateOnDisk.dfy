/**
 * How `StateFile.save` in scripts/media-evidence-lazy.py reaches the disk: a fresh temporary file is
 * written and synced and then renamed over the state file; the directory is not synced. A version
 * is what the state file holds, None if it is missing.
 */
module StateOnDisk {
  import opened Basics
  import opened CrashDisk

  type Version = Option<seq<Byte>>

  function VersionOf(d: Disk, v: Option<Ino>): Version {
    if v.Some? && v.value in d.inodes then Some(d.inodes[v.value].data) else None
  }

  // What programs read.
  function OnDisk(d: Disk, p: Path): Version {
    VersionOf(d, Lookup(d, p))
  }

  // The versions since the directory was last synced.
  ghost function Versions(d: Disk, p: Path): set<Version> {
    set v | v in Possible(d, p) :: VersionOf(d, v)
  }

  // Each of them is complete and durable.
  ghost predicate Durable(d: Disk, p: Path) {
    && Valid(d) && p.Entry? && p.dir in d.durableDirs
    && forall i :: Some(i) in Possible(d, p) ==> d.inodes[i].regular && d.inodes[i].synced
  }

  // A power loss leaves exactly one of the versions, and it may be any of them.
  lemma PowerLoss(d: Disk, p: Path, version: Version)
    requires Durable(d, p)
    ensures (exists e :: Crash(d, e) && OnDisk(e, p) == version) <==> version in Versions(d, p)
  {
    forall e | Crash(d, e) ensures OnDisk(e, p) in Versions(d, p) { LossLeavesVersion(d, e, p); }
    if version in Versions(d, p) {
      var v :| v in Possible(d, p) && VersionOf(d, v) == version;
      CrashedToIsCrash(d, d.dirs, p, v);
      assert OnDisk(CrashedTo(d, d.dirs, p, v), p) == version;
    }
  }

  lemma LossLeavesVersion(d: Disk, e: Disk, p: Path)
    requires Durable(d, p) && Crash(d, e)
    ensures OnDisk(e, p) in Versions(d, p) && Durable(e, p) && Versions(e, p) == {OnDisk(e, p)}
  {
    var v := Lookup(e, p);
    assert v in Possible(d, p);
    assert VersionOf(e, v) == VersionOf(d, v);
    assert Possible(e, p) == {v};
  }

  // Changing or adding a file that the state file is not linked to changes no version.
  lemma OtherFile(d: Disk, e: Disk, p: Path, t: Ino)
    requires Durable(d, p) && Valid(e) && e.durableDirs == d.durableDirs
    requires Possible(e, p) == Possible(d, p) && Some(t) !in Possible(d, p)
    requires forall i :: i in d.inodes && i != t ==> i in e.inodes && e.inodes[i] == d.inodes[i]
    ensures Durable(e, p) && Versions(e, p) == Versions(d, p)
  {
    assert forall i :: Some(i) in Possible(d, p) ==> i in d.inodes;
    assert forall v :: v in Possible(d, p) ==> VersionOf(e, v) == VersionOf(d, v);
  }

  // The rename adds its version to those that a power loss may leave.
  lemma Replaced(d: Disk, p: Path, temp: Path, t: Ino)
    requires Durable(d, p) && temp != p && Lookup(d, temp) == Some(t) && d.inodes[t].regular && d.inodes[t].synced
    ensures var e := Rename(d, temp, p);
            && Durable(e, p) && OnDisk(e, p) == Some(d.inodes[t].data)
            && Versions(e, p) == Versions(d, p) + {Some(d.inodes[t].data)}
  {
    var d1, e := SetEntry(d, p, Some(t)), Rename(d, temp, p);
    SetEntryValid(d, p, Some(t));
    SetEntryValid(d1, temp, None);
    assert Possible(e, p) == Possible(d, p) + {Some(t)};
    assert forall v :: VersionOf(e, v) == VersionOf(d, v);
    assert Some(t) in Possible(e, p) && VersionOf(e, Some(t)) == Some(d.inodes[t].data);
  }

  // A save in progress since d0: the versions are those of d0, the temporary file is `t`.
  ghost predicate Saving(d0: Disk, d: Disk, p: Path, temp: Path, t: Ino) {
    && Durable(d, p) && Versions(d, p) == Versions(d0, p) && Possible(d, p) == Possible(d0, p)
    && OnDisk(d, p) == OnDisk(d0, p) && temp != p && Lookup(d, temp) == Some(t) && Some(t) !in Possible(d0, p)
  }

  lemma Opened(d: Disk, p: Path, temp: Path, spare: Ino)
    requires Durable(d, p) && temp != p && temp !in d.live && spare !in d.inodes
    ensures var (e, t) := Create(d, temp, spare); Saving(d, e, p, temp, t) && e.inodes[t] == Inode(true, [], false)
  {
    var d1 := d.(inodes := d.inodes[spare := Inode(true, [], false)]);
    SetEntryValid(d1, temp, Some(spare));
    OtherFile(d, Create(d, temp, spare).0, p, spare);
  }

  lemma Rewritten(d0: Disk, d: Disk, p: Path, temp: Path, t: Ino, node: Inode)
    requires Saving(d0, d, p, temp, t)
    ensures Saving(d0, d.(inodes := d.inodes[t := node]), p, temp, t)
  {
    OtherFile(d, d.(inodes := d.inodes[t := node]), p, t);
  }

  // Every state still has the versions of d0, complete.
  ghost predicate AllKeep(d0: Disk, steps: seq<Disk>, p: Path) {
    forall i :: 0 <= i < |steps| ==> Durable(steps[i], p) && Versions(steps[i], p) == Versions(d0, p)
  }

  // The call that fails; a write fails after the given number of bytes.
  datatype SaveFault = Works | NoTemporary | WriteFails(written: nat) | SyncFails | ReplaceFails

  // The states since d0, one system call apart, all with the versions of d0.
  ghost predicate Writing(d0: Disk, steps: seq<Disk>, d: Disk, p: Path, temp: Path, t: Ino) {
    Saving(d0, d, p, temp, t) && Chain(d0, steps, d) && AllKeep(d0, steps, p)
  }

  lemma WritingStep(d0: Disk, steps: seq<Disk>, d: Disk, p: Path, temp: Path, t: Ino, op: Op, node: Inode)
    requires Writing(d0, steps, d, p, temp, t) && Enabled(op, d) && Effect(op, d) == d.(inodes := d.inodes[t := node])
    ensures Writing(d0, steps + [Effect(op, d)], Effect(op, d), p, temp, t)
  {
    Rewritten(d0, d, p, temp, t, node);
    ChainStep(d0, steps, d, op);
  }

  lemma AppendStep(d0: Disk, steps: seq<Disk>, d: Disk, p: Path, temp: Path, t: Ino, bytes: seq<Byte>)
    requires Writing(d0, steps, d, p, temp, t)
    ensures Writing(d0, steps + [Append(d, t, bytes)], Append(d, t, bytes), p, temp, t)
  {
    WritingStep(d0, steps, d, p, temp, t, Write(t, bytes), Inode(d.inodes[t].regular, d.inodes[t].data + bytes, false));
  }

  // Some next piece of `data` below `limit`.
  method NextPiece(data: seq<Byte>, size: nat, limit: nat) returns (piece: seq<Byte>)
    requires size < limit <= |data|
    ensures piece != [] && size + |piece| <= limit && data[..size] + piece == data[..size + |piece|]
  {
    var count :| 1 <= count && size + count <= limit;
    piece := data[size..size + count];
  }

  // Writing `data` in chunks of any size, up to `limit` bytes.
  method WriteData(d0: Disk, d1: Disk, p: Path, temp: Path, t: Ino, data: seq<Byte>, limit: nat,
                   ghost steps0: seq<Disk>)
    returns (d: Disk, ghost steps: seq<Disk>)
    requires Writing(d0, steps0, d1, p, temp, t) && d1.inodes[t] == Inode(true, [], false) && limit <= |data|
    ensures Writing(d0, steps, d, p, temp, t) && d.inodes[t] == Inode(true, data[..limit], false)
  {
    d, steps := d1, steps0;
    var size := 0;
    while size < limit
      invariant size <= limit && Writing(d0, steps, d, p, temp, t)
      invariant d.inodes[t] == Inode(true, data[..size], false)
    {
      var piece := NextPiece(data, size, limit);
      AppendStep(d0, steps, d, p, temp, t, piece);
      d := Append(d, t, piece);
      steps := steps + [d];
      size := size + |piece|;
    }
  }

  // `save` up to the rename. The states on the way are one system call apart, and each of them still
  // has the old versions.
  method WriteTemporary(d0: Disk, p: Path, temp: Path, spare: Ino, data: seq<Byte>, fault: SaveFault)
    returns (d: Disk, t: Ino, ok: bool, ghost steps: seq<Disk>)
    requires Durable(d0, p) && temp != p && temp !in d0.live && spare !in d0.inodes
    ensures Chain(d0, steps, d) && AllKeep(d0, steps, p)
    ensures ok <==> fault.Works? || fault.ReplaceFails?
    ensures ok ==> steps != [] && Saving(d0, d, p, temp, t) && d.inodes[t] == Inode(true, data, true)
    ensures !ok ==> Durable(d, p) && Versions(d, p) == Versions(d0, p) && OnDisk(d, p) == OnDisk(d0, p)
  {
    d, t, ok, steps := d0, spare, false, [];
    assert Chain(d0, [], d0);
    if fault.NoTemporary? { return; }
    Opened(d0, p, temp, spare);
    ChainStep(d0, [], d0, Open(temp, spare));
    var made := Create(d0, temp, spare);
    d, t := made.0, made.1;
    steps := [] + [d];
    var limit := if fault.WriteFails? then Min(fault.written, |data|) else |data|;
    d, steps := WriteData(d0, d, p, temp, t, data, limit, steps);
    if fault.WriteFails? || fault.SyncFails? { return; }
    assert data[..|data|] == data;
    WritingStep(d0, steps, d, p, temp, t, Fsync(t), Inode(true, data, true));
    d := SyncFile(d, t);
    steps, ok := steps + [d], true;
  }

  // `save` as a whole: at each step but the last a power loss leaves what it could have left before,
  // and the last one makes the new version visible.
  method SaveVersion(d0: Disk, p: Path, temp: Path, spare: Ino, data: seq<Byte>, fault: SaveFault)
    returns (d: Disk, ok: bool, ghost steps: seq<Disk>)
    requires Durable(d0, p) && temp != p && temp !in d0.live && spare !in d0.inodes
    ensures Chain(d0, steps, d) && Durable(d, p) && (ok <==> fault.Works?)
    ensures OnDisk(d, p) == if ok then Some(data) else OnDisk(d0, p)
    ensures Versions(d, p) == Versions(d0, p) + (if ok then {Some(data)} else {})
    ensures if ok then steps != [] && AllKeep(d0, steps[..|steps| - 1], p) else AllKeep(d0, steps, p)
  {
    var t, written;
    d, t, written, steps := WriteTemporary(d0, p, temp, spare, data, fault);
    if !written || fault.ReplaceFails? { return d, false, steps; }
    Replaced(d, p, temp, t);
    ChainStep(d0, steps, d, Move(temp, p));
    ghost var before := steps;
    d := Rename(d, temp, p);
    steps, ok := steps + [d], true;
    assert steps[..|steps| - 1] == before;
  }
}
