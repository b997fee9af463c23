/**
 * A small file system with a volatile and a durable side, as crates/voom-backup-worker relies on
 * it: file data is durable after a file sync, directory entries after a sync of their directory.
 * A crash may keep or lose each unsynced change on its own.
 */
module CrashDisk {
  import opened Basics

  type Ino = nat

  // `Top` is a path without a parent directory.
  datatype Path = Top | Entry(dir: string, name: string)

  // `synced`: nothing was written since the last sync.
  datatype Inode = Inode(regular: bool, data: seq<Byte>, synced: bool)

  // `live` is what programs see. `pending` holds, for entries changed since their directory was
  // synced, every value a crash may leave; other entries are durable as they are.
  datatype Disk = Disk(inodes: map<Ino, Inode>, live: map<Path, Ino>, pending: map<Path, set<Option<Ino>>>,
                       dirs: set<string>, durableDirs: set<string>)

  function Lookup(d: Disk, p: Path): Option<Ino> {
    if p in d.live then Some(d.live[p]) else None
  }

  function Possible(d: Disk, p: Path): set<Option<Ino>> {
    if p in d.pending then d.pending[p] else {Lookup(d, p)}
  }

  ghost predicate Valid(d: Disk) {
    && (forall p :: p in d.live ==> d.live[p] in d.inodes)
    && (forall p :: p in d.pending ==> Lookup(d, p) in d.pending[p])
    && (forall p, i :: p in d.pending && Some(i) in d.pending[p] ==> i in d.inodes)
    && d.durableDirs <= d.dirs
  }

  // ---- operations ----

  function MakeDir(d: Disk, dir: string): Disk {
    d.(dirs := d.dirs + {dir})
  }

  function SetEntry(d: Disk, p: Path, v: Option<Ino>): Disk {
    d.(live := if v.None? then d.live - {p} else d.live[p := v.value],
       pending := d.pending[p := Possible(d, p) + {v}])
  }

  // Opening for writing truncates an existing file and otherwise links a new one.
  function Create(d: Disk, p: Path, spare: Ino): (Disk, Ino) {
    match Lookup(d, p)
    case Some(i) => (d.(inodes := d.inodes[i := Inode(true, [], false)]), i)
    case None => (SetEntry(d.(inodes := d.inodes[spare := Inode(true, [], false)]), p, Some(spare)), spare)
  }

  function Append(d: Disk, i: Ino, bytes: seq<Byte>): Disk
    requires i in d.inodes
  {
    d.(inodes := d.inodes[i := Inode(d.inodes[i].regular, d.inodes[i].data + bytes, false)])
  }

  function SyncFile(d: Disk, i: Ino): Disk
    requires i in d.inodes
  {
    d.(inodes := d.inodes[i := d.inodes[i].(synced := true)])
  }

  // Renaming one link of a file onto another does nothing, as POSIX has it.
  function Rename(d: Disk, from: Path, to: Path): Disk
    requires from in d.live
  {
    if Lookup(d, to) == Some(d.live[from]) then d
    else SetEntry(SetEntry(d, to, Some(d.live[from])), from, None)
  }

  function SyncDir(d: Disk, dir: string): Disk {
    d.(pending := d.pending - (set p | p in d.pending && p.Entry? && p.dir == dir))
  }

  // One system call that changes the disk.
  datatype Op =
    | MkDir(dir: string)
    | Open(path: Path, spare: Ino)
    | Write(ino: Ino, bytes: seq<Byte>)
    | Fsync(ino: Ino)
    | Move(from: Path, to: Path)
    | FsyncDir(dir: string)
    | Unlink(path: Path)

  ghost predicate Enabled(op: Op, d: Disk) {
    match op
    case Open(_, spare) => spare !in d.inodes
    case Write(i, _) => i in d.inodes
    case Fsync(i) => i in d.inodes
    case Move(from, _) => from in d.live
    case _ => true
  }

  ghost function Effect(op: Op, d: Disk): Disk
    requires Enabled(op, d)
  {
    match op
    case MkDir(dir) => MakeDir(d, dir)
    case Open(p, spare) => Create(d, p, spare).0
    case Write(i, bytes) => Append(d, i, bytes)
    case Fsync(i) => SyncFile(d, i)
    case Move(from, to) => Rename(d, from, to)
    case FsyncDir(dir) => SyncDir(d, dir)
    case Unlink(p) => SetEntry(d, p, None)
  }

  ghost predicate OneOp(d: Disk, e: Disk) {
    exists op :: Enabled(op, d) && e == Effect(op, d)
  }

  // The state before step `i`.
  ghost function Before<T>(d: T, steps: seq<T>, i: nat): T
    requires i <= |steps|
  {
    if i == 0 then d else steps[i - 1]
  }

  ghost predicate Linked<T(!new)>(next: (T, T) -> bool, d: T, steps: seq<T>, e: T) {
    e == Before(d, steps, |steps|) && forall i :: 0 <= i < |steps| ==> next(Before(d, steps, i), steps[i])
  }

  lemma LinkedJoin<T(!new)>(next: (T, T) -> bool, a: T, s: seq<T>, b: T, t: seq<T>, c: T)
    requires Linked(next, a, s, b) && Linked(next, b, t, c)
    ensures Linked(next, a, s + t, c)
  {
    forall i | 0 <= i < |s + t| ensures next(Before(a, s + t, i), (s + t)[i]) {
      if i < |s| {
        assert next(Before(a, s, i), s[i]);
      } else {
        assert next(Before(b, t, i - |s|), t[i - |s|]);
      }
    }
  }

  // `steps` lists every state from `d` (left out) to `e`, one system call apart.
  ghost predicate Chain(d: Disk, steps: seq<Disk>, e: Disk) {
    Linked(OneOp, d, steps, e)
  }

  lemma ChainJoin(a: Disk, s: seq<Disk>, b: Disk, t: seq<Disk>, c: Disk)
    requires Chain(a, s, b) && Chain(b, t, c)
    ensures Chain(a, s + t, c)
  {
    LinkedJoin(OneOp, a, s, b, t, c);
  }

  lemma ChainStep(d: Disk, steps: seq<Disk>, e: Disk, op: Op)
    requires Chain(d, steps, e) && Enabled(op, e)
    ensures Chain(d, steps + [Effect(op, e)], Effect(op, e))
  {
    var f := Effect(op, e);
    assert OneOp(e, f);
    assert Linked(OneOp, e, [f], f);
    LinkedJoin(OneOp, d, steps, e, [f], f);
  }

  // ---- crashes ----

  ghost predicate Crash(d: Disk, e: Disk) {
    && d.durableDirs <= e.dirs <= d.dirs && e.durableDirs == e.dirs && e.pending == map[]
    && (forall p: Path :: if p.Entry? && p.dir !in e.dirs then p !in e.live else Lookup(e, p) in Possible(d, p))
    && e.inodes.Keys == d.inodes.Keys
    && forall i :: i in d.inodes ==>
         && e.inodes[i].synced && e.inodes[i].regular == d.inodes[i].regular
         && (d.inodes[i].synced ==> e.inodes[i].data == d.inodes[i].data)
  }

  function Settled(i: Inode): Inode {
    i.(synced := true)
  }

  // The crash that keeps exactly the directories `kept` and resolves one entry to `v`, all
  // others as they are live.
  ghost function CrashedTo(d: Disk, kept: set<string>, q: Path, v: Option<Ino>): Disk {
    var live := if v.None? then d.live - {q} else d.live[q := v.value];
    Disk(MapValues(Settled, d.inodes), live - (set p | p in live && p.Entry? && p.dir !in kept), map[], kept, kept)
  }

  lemma CrashedToIsCrash(d: Disk, kept: set<string>, q: Path, v: Option<Ino>)
    requires Valid(d) && d.durableDirs <= kept <= d.dirs && v in Possible(d, q)
    ensures Crash(d, CrashedTo(d, kept, q, v))
  {
  }

  // Every disk has a crash, so statements about all crashes are not empty.
  lemma CrashExists(d: Disk)
    requires Valid(d)
    ensures exists e :: Crash(d, e)
  {
    CrashedToIsCrash(d, d.dirs, Top, Lookup(d, Top));
  }

  // ---- unused inode numbers ----

  lemma SpareIno(s: set<Ino>)
    ensures exists i: Ino :: i !in s
  {
    var bound := Bound(s);
    assert bound !in s;
  }

  lemma {:induction false} Bound(s: set<Ino>) returns (b: nat)
    ensures forall i :: i in s ==> i < b
    decreases |s|
  {
    if s == {} {
      b := 0;
    } else {
      var x :| x in s;
      var c := Bound(s - {x});
      b := if x < c then c else x + 1;
      forall i | i in s ensures i < b { assert i == x || i in s - {x}; }
    }
  }

  // ---- operations keep disks valid ----

  lemma SetEntryValid(d: Disk, p: Path, v: Option<Ino>)
    requires Valid(d) && (v.Some? ==> v.value in d.inodes)
    ensures Valid(SetEntry(d, p, v))
    ensures Lookup(SetEntry(d, p, v), p) == v
    ensures forall q :: q != p ==> Lookup(SetEntry(d, p, v), q) == Lookup(d, q)
    ensures forall q :: q != p ==> Possible(SetEntry(d, p, v), q) == Possible(d, q)
  {
  }
}
