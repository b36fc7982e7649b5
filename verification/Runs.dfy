/** Whole runs: what every operation keeps, when a run leaks or miscounts, and
    that a refused call changes nothing. */
module Runs {
  import opened Layout
  import opened Bitmap
  import opened Image
  import opened Ownership
  import opened Operations
  import opened FileEdits
  import opened FileEffects
  import opened WriteEffects
  import opened DirEdits
  import opened MakeEffects
  import opened RemoveEffects
  import opened RenameEffects

  datatype Op =
    | Create(path: Path, mode: u32, caller: Caller)
    | Mkdir(path: Path, perm: u32, caller: Caller)
    | Unlink(path: Path)
    | Rmdir(path: Path)
    | Rename(src: Path, dst: Path)
    | Chmod(path: Path, mode: u32)
    | Truncate(path: Path, len: int)
    | WriteAt(path: Path, buf: seq<byte>, off: nat, now: u32)

  /** A mode without type bits, or with those of a directory. */
  predicate ForDirectory(mode: u32) { Kind(mode) == 0 || Kind(mode) == 4 }

  /** mode | S_IFDIR */
  function DirMode(perm: u32): (m: u32)
    requires ForDirectory(perm)
    ensures Kind(m) == 4
  {
    if Kind(perm) == 0 then perm + IFDIR else perm
  }

  /** The calls with a defined meaning: paths as parse produces them, a last
      component where one is used, the type bits each call expects, and a write
      that is refused or fits its buffer and the pointer array. */
  ghost predicate Allowed(s: State, op: Op) {
    match op
    case Create(p, mode, _) => 0 < |p| <= MAX_PATH_LEN && Kind(mode) == 8
    case Mkdir(p, perm, _) => 0 < |p| <= MAX_PATH_LEN && ForDirectory(perm)
    case Unlink(p) => p != []
    case Rmdir(p) => p != []
    case WriteAt(p, buf, off, _) => WriteDefined(s, p, off, |buf|)
    case _ => true
  }

  ghost function PlanOf(s: State, op: Op): Plan
    requires Allowed(s, op)
  {
    match op
    case Create(p, mode, c) => MakePlan(s, p, mode, false, c)
    case Mkdir(p, perm, c) => MakePlan(s, p, DirMode(perm), true, c)
    case Unlink(p) => UnlinkPlan(s, p)
    case Rmdir(p) => RmdirPlan(s, p)
    case Rename(src, dst) => RenamePlan(s, src, dst)
    case Chmod(p, mode) => ChmodPlan(s, p, mode)
    case Truncate(p, len) => TruncatePlan(s, p, len)
    case WriteAt(p, buf, off, now) => WritePlan(s, p, buf, off, now)
  }

  ghost function After(s: State, op: Op): State
    requires Allowed(s, op)
  {
    Commit(s, PlanOf(s, op))
  }

  // ------------------------------------------------------ refused calls change nothing

  lemma CommitFail(s: State, e: Errno)
    ensures Commit(s, Fail(s, e)) == s
  {
  }

  lemma MakeRefused(s: State, path: Path, mode: u32, isDir: bool, c: Caller)
    requires path != [] && MakePlan(s, path, mode, isDir, c).result.Err?
    ensures MakePlan(s, path, mode, isDir, c) == Fail(s, MakePlan(s, path, mode, isDir, c).result.error)
  {
  }

  lemma RemoveRefused(s: State, path: Path)
    requires path != []
    ensures UnlinkPlan(s, path).result.Err? ==> UnlinkPlan(s, path) == Fail(s, UnlinkPlan(s, path).result.error)
    ensures RmdirPlan(s, path).result.Err? ==> RmdirPlan(s, path) == Fail(s, RmdirPlan(s, path).result.error)
  {
  }

  lemma RenameRefused(s: State, src: Path, dst: Path)
    requires RenamePlan(s, src, dst).result.Err?
    ensures RenamePlan(s, src, dst) == Fail(s, RenamePlan(s, src, dst).result.error)
  {
  }

  lemma FileRefused(s: State, path: Path, mode: u32, len: int)
    ensures ChmodPlan(s, path, mode).result.Err? ==>
        ChmodPlan(s, path, mode) == Fail(s, ChmodPlan(s, path, mode).result.error)
    ensures TruncatePlan(s, path, len).result.Err? ==>
        TruncatePlan(s, path, len) == Fail(s, TruncatePlan(s, path, len).result.error)
  {
  }

  lemma WriteRefused(s: State, path: Path, buf: seq<byte>, off: nat, now: u32)
    requires WriteDefined(s, path, off, |buf|) && WritePlan(s, path, buf, off, now).result.Err?
    ensures WritePlan(s, path, buf, off, now) == Fail(s, WritePlan(s, path, buf, off, now).result.error)
  {
  }

  /** Whenever an operation reports an error, the disk, the bitmap and both
      counters are what they were. */
  lemma FailedCallChangesNothing(s: State, op: Op)
    requires Allowed(s, op) && PlanOf(s, op).result.Err?
    ensures After(s, op) == s && PlanOf(s, op).writes == []
  {
    match op {
      case Create(p, mode, c) => MakeRefused(s, p, mode, false, c);
      case Mkdir(p, perm, c) => MakeRefused(s, p, DirMode(perm), true, c);
      case Unlink(p) => RemoveRefused(s, p);
      case Rmdir(p) => RemoveRefused(s, p);
      case Rename(src, dst) => RenameRefused(s, src, dst);
      case Chmod(p, mode) => FileRefused(s, p, mode, 0);
      case Truncate(p, len) => FileRefused(s, p, 0, len);
      case WriteAt(p, buf, off, now) => WriteRefused(s, p, buf, off, now);
    }
    CommitFail(s, PlanOf(s, op).result.error);
  }

  // ---------------------------------------------------------- what every call keeps

  /** The bitmap block on the disk records the bits in memory. */
  ghost predicate Synced(s: State) {
    DiskBits(Blk(s.disk, BITMAP_LBA)) == s.bits
  }

  /** Everything in use is marked, in memory and on the disk: what holds at all
      times, crashes included. */
  ghost predicate Safe(s: State, own: Owners) {
    Sound(s.disk, s.bits, own) && Synced(s)
  }

  /** And nothing else is marked. */
  ghost predicate Good(s: State, own: Owners) {
    Safe(s, own) && Exact(s.disk, s.bits, own)
  }

  /** t is safe, and as exact as s was. */
  ghost predicate Kept(s: State, own: Owners, t: State, own': Owners) {
    Safe(t, own') && (Good(s, own) ==> Good(t, own'))
  }

  /** The ownership after an operation. */
  ghost function OwnAfter(s: State, own: Owners, op: Op): Owners
    requires Safe(s, own) && Allowed(s, op)
  {
    if PlanOf(s, op).result.Err? then own
    else match op
      case Create(p, _, _) => MadeOwn(s, own, p, false)
      case Mkdir(p, _, _) => MadeOwn(s, own, p, true)
      case Unlink(p) => Without(own, Target(s, p))
      case Rmdir(p) => Without(own, Target(s, p))
      case Truncate(p, len) => Dropped(own, Target(s, p), if len < 0 then 0 else NBlocks(len))
      case WriteAt(p, buf, off, _) => WriteOwn(s, own, Target(s, p), off, |buf|)
      case _ => own
  }

  /** The inode a path leads to. */
  ghost function Target(s: State, p: Path): nat {
    if Resolve(s.disk, p).Ok? then Resolve(s.disk, p).value else 0
  }

  ghost function MadeOwn(s: State, own: Owners, p: Path, isDir: bool): Owners {
    var i := Target(s, Parent(p));
    if HasInode(own, i) && FreeSlot(Ents(s.disk, i), 0) < SLOTS && |Allotted(s, isDir)| == MakeCount(isDir)
      then NewRoles(s, own, i, isDir) else own
  }

  lemma MakeKeeps(s: State, own: Owners, path: Path, mode: u32, isDir: bool, c: Caller)
    requires Safe(s, own) && 0 < |path| <= MAX_PATH_LEN && RightKind(mode, isDir)
    requires MakePlan(s, path, mode, isDir, c).result.Ok?
    ensures Kept(s, own, Commit(s, MakePlan(s, path, mode, isDir, c)), MadeOwn(s, own, path, isDir))
    ensures Makeable(s, own, path, Target(s, Parent(path)), isDir)
    ensures MakePlan(s, path, mode, isDir, c) == MadeBy(s, Target(s, Parent(path)), Last(path), mode, isDir, c)
  {
    var i := Target(s, Parent(path));
    MakeDecision(s, own, path, mode, isDir, c);
    MakeSound(s, own, path, i, mode, isDir, c);
    AllottedFresh(s, own, i, isDir);
    MadeDisk(s, own, path, i, mode, isDir, c, BITMAP_LBA);
  }

  lemma RemovalKeeps(s: State, own: Owners, path: Path, i: nat, j: nat, x: nat, freed: seq<nat>)
    requires Safe(s, own) && Removable(s, own, path, i, j, x) && FreesAll(own, x, freed)
    ensures Kept(s, own, Commit(s, Cleared(s, i, j, freed)), Without(own, x))
  {
    RemovalSound(s, own, path, i, j, x, freed);
    var ws := Cleared(s, i, j, freed).writes;
    ApplyTwo(s.disk, ws[0], ws[1]);
    StoreAt(Store(s.disk, ws[0]), ws[1], BITMAP_LBA);
  }

  /** A successful unlink or rmdir clears the entry and all blocks of its target. */
  lemma RemovalOf(s: State, own: Owners, op: Op) returns (i: nat, j: nat, x: nat, freed: seq<nat>)
    requires Safe(s, own) && Allowed(s, op) && (op.Unlink? || op.Rmdir?) && PlanOf(s, op).result.Ok?
    ensures Removable(s, own, op.path, i, j, x) && FreesAll(own, x, freed) && x == Target(s, op.path)
    ensures PlanOf(s, op) == Cleared(s, i, j, freed)
  {
    if op.Unlink? {
      FileAt(s.disk, s.bits, own, op.path);
      i, j, x, freed := UnlinkIs(s, own, op.path);
    } else {
      i, j, x, freed := RmdirIs(s, own, op.path);
    }
  }

  lemma RemoveKeeps(s: State, own: Owners, op: Op)
    requires Safe(s, own) && Allowed(s, op) && (op.Unlink? || op.Rmdir?) && PlanOf(s, op).result.Ok?
    ensures Kept(s, own, After(s, op), Without(own, Target(s, op.path)))
  {
    var i, j, x, freed := RemovalOf(s, own, op);
    RemovalKeeps(s, own, op.path, i, j, x, freed);
  }

  lemma RenameKeeps(s: State, own: Owners, src: Path, dst: Path)
    requires Safe(s, own) && RenamePlan(s, src, dst).result.Ok?
    ensures Kept(s, own, Commit(s, RenamePlan(s, src, dst)), own)
  {
    RenameDecision(s, own, src, dst);
    var i := Target(s, Parent(src));
    var j := FindSlot(Ents(s.disk, i), Last(src), 0);
    RenameSound(s, own, src, dst, i, j);
    ApplyOne(s.disk, RenamedBy(s, i, j, Last(dst)).writes[0]);
    StoreAt(s.disk, RenamedBy(s, i, j, Last(dst)).writes[0], BITMAP_LBA);
    assert InodeOk(s.disk, own, i) && PlaceOk(s.disk, own, Ino(s.disk, i).ptrs[0]);
  }

  lemma ChmodKeeps(s: State, own: Owners, path: Path, mode: u32)
    requires Safe(s, own) && ChmodPlan(s, path, mode).result.Ok?
    ensures Kept(s, own, Commit(s, ChmodPlan(s, path, mode)), own)
  {
    FileAt(s.disk, s.bits, own, path);
    ChmodEffect(s, own, path, mode, path);
    ChmodDisk(s, own, path, mode);
    OwnedAboveBitmap(s.disk, s.bits, own, Target(s, path));
  }

  lemma TruncateKeeps(s: State, own: Owners, path: Path, len: int)
    requires Safe(s, own) && TruncatePlan(s, path, len).result.Ok?
    ensures len >= 0 && Kept(s, own, Commit(s, TruncatePlan(s, path, len)), Dropped(own, Target(s, path), NBlocks(len)))
  {
    FileAt(s.disk, s.bits, own, path);
    var i := Target(s, path);
    TruncateFileEffect(s, own, i, len);
    var ws := TruncateFile(s, i, Ino(s.disk, i), len).writes;
    ApplyTwo(s.disk, ws[0], ws[1]);
    StoreAt(Store(s.disk, ws[0]), ws[1], BITMAP_LBA);
  }

  lemma WriteKeeps(s: State, own: Owners, path: Path, buf: seq<byte>, off: nat, now: u32)
    requires Safe(s, own) && WriteDefined(s, path, off, |buf|) && WritePlan(s, path, buf, off, now).result.Ok?
    ensures Kept(s, own, Commit(s, WritePlan(s, path, buf, off, now)), WriteOwn(s, own, Target(s, path), off, |buf|))
  {
    WriteDecision(s, own, path, buf, off, now);
    WriteFileEffect(s, own, Target(s, path), buf, off, now);
    WriteSynced(s, own, Target(s, path), buf, off, now);
  }

  /** The only write of fs_write to the bitmap block stores the new bits, and it
      is issued exactly when the bits change. */
  lemma WriteSynced(s: State, own: Owners, i: nat, buf: seq<byte>, off: nat, now: u32)
    requires Synced(s) && Writable(s, own, i, off, |buf|)
    ensures Synced(Commit(s, WriteFile(s, i, buf, off, now)))
  {
    var ws, h := Writes(s, i, buf, off, now), |HeadWrites(s, i, off, |buf|, now)|;
    var grown := WrittenInode(s, i, off, |buf|, now);
    WritesAreRun(s, own, i, buf, off, now);
    forall k | h - 1 <= k < |ws|
      ensures ws[k].lba != BITMAP_LBA
    {
      RunTarget(s.disk, WriteOwn(s, own, i, off, |buf|), i, InodeBlock(grown), grown.ptrs, ws, h, off / 4096,
          LastBlock(off, |buf|),
                DataBytes(s, i, buf, off, now), k);
    }
    if h == 2 {
      ApplyAt(s.disk, ws, 0);
    } else {
      ApplyElsewhere(s.disk, ws, BITMAP_LBA);
    }
  }

  /** Every operation, whatever its arguments and its outcome, keeps the image
      sound and the bitmap block up to date, and the bitmap exact if it was. */
  lemma StepKeeps(s: State, own: Owners, op: Op)
    requires Safe(s, own) && Allowed(s, op)
    ensures Kept(s, own, After(s, op), OwnAfter(s, own, op))
  {
    if PlanOf(s, op).result.Err? {
      FailedCallChangesNothing(s, op);
    } else {
      match op
      case Create(p, mode, c) => MakeKeeps(s, own, p, mode, false, c);
      case Mkdir(p, perm, c) => MakeKeeps(s, own, p, DirMode(perm), true, c);
      case Unlink(p) => RemoveKeeps(s, own, op);
      case Rmdir(p) => RemoveKeeps(s, own, op);
      case Rename(src, dst) => RenameKeeps(s, own, src, dst);
      case Chmod(p, mode) => ChmodKeeps(s, own, p, mode);
      case Truncate(p, len) => TruncateKeeps(s, own, p, len);
      case WriteAt(p, buf, off, now) => WriteKeeps(s, own, p, buf, off, now);
    }
  }

  // -------------------------------------------------------------------- whole runs

  ghost predicate AllAllowed(s: State, ops: seq<Op>)
    decreases |ops|
  {
    ops == [] || (Allowed(s, ops[0]) && AllAllowed(After(s, ops[0]), ops[1..]))
  }

  ghost function Run(s: State, ops: seq<Op>): State
    requires AllAllowed(s, ops)
    decreases |ops|
  {
    if ops == [] then s else Run(After(s, ops[0]), ops[1..])
  }

  /** No run of calls, however long, makes a used block unmarked or lets two
      things share a block; nor does it mark a block in vain. */
  lemma {:induction false} RunKeeps(s: State, own: Owners, ops: seq<Op>) returns (own': Owners)
    requires Safe(s, own) && AllAllowed(s, ops)
    ensures Kept(s, own, Run(s, ops), own') && NothingDangles(Run(s, ops).disk, Run(s, ops).bits)
    decreases |ops|
  {
    if ops == [] {
      own' := own;
      SoundNothingDangles(s.disk, s.bits, own);
    } else {
      StepKeeps(s, own, ops[0]);
      own' := RunKeeps(After(s, ops[0]), OwnAfter(s, own, ops[0]), ops[1..]);
    }
  }

  // ------------------------------------------------------------- where writes go

  /** Block writes go to blocks of the disk other than the superblock. */
  ghost predicate OnDisk(d: Disk, ws: seq<Write>) {
    forall k :: 0 <= k < |ws| ==> 0 < ws[k].lba < |d|
  }

  lemma MakeOnDisk(s: State, own: Owners, path: Path, i: nat, mode: u32, isDir: bool, c: Caller)
    requires Makeable(s, own, path, i, isDir)
    ensures OnDisk(s.disk, MadeBy(s, i, Last(path), mode, isDir, c).writes)
  {
    AllottedFresh(s, own, i, isDir);
  }

  lemma RemovalOnDisk(s: State, own: Owners, path: Path, i: nat, j: nat, x: nat, freed: seq<nat>)
    requires Removable(s, own, path, i, j, x)
    ensures OnDisk(s.disk, Cleared(s, i, j, freed).writes)
  {
    assert InodeOk(s.disk, own, i) && PlaceOk(s.disk, own, Ino(s.disk, i).ptrs[0]);
  }

  lemma RenameOnDisk(s: State, own: Owners, src: Path, dst: Path)
    requires Safe(s, own) && RenamePlan(s, src, dst).result.Ok?
    ensures OnDisk(s.disk, RenamePlan(s, src, dst).writes)
  {
    RenameDecision(s, own, src, dst);
    var i := Target(s, Parent(src));
    assert InodeOk(s.disk, own, i) && PlaceOk(s.disk, own, Ino(s.disk, i).ptrs[0]);
  }

  lemma WriteOnDisk(s: State, own: Owners, i: nat, buf: seq<byte>, off: nat, now: u32)
    requires Writable(s, own, i, off, |buf|)
    ensures OnDisk(s.disk, WriteFile(s, i, buf, off, now).writes)
  {
    var ws, h, grown := Writes(s, i, buf, off, now), |HeadWrites(s, i, off, |buf|, now)|,
        WrittenInode(s, i, off, |buf|, now);
    var bytes := DataBytes(s, i, buf, off, now);
    WritesAreRun(s, own, i, buf, off, now);
    forall k | 0 <= k < |ws|
      ensures 0 < ws[k].lba < |s.disk|
    {
      RunOnDisk(s.disk, WriteOwn(s, own, i, off, |buf|), i, InodeBlock(grown), grown.ptrs, ws, h, off / 4096,
                LastBlock(off, |buf|), bytes, k);
    }
  }

  /** No call writes to the superblock or past the end of the disk. */
  lemma WritesStayOnDisk(s: State, own: Owners, op: Op)
    requires Safe(s, own) && Allowed(s, op)
    ensures OnDisk(s.disk, PlanOf(s, op).writes)
  {
    if PlanOf(s, op).result.Err? {
      FailedCallChangesNothing(s, op);
    } else {
      match op
      case Create(p, mode, c) =>
        MakeKeeps(s, own, p, mode, false, c);
        MakeOnDisk(s, own, p, Target(s, Parent(p)), mode, false, c);
      case Mkdir(p, perm, c) =>
        MakeKeeps(s, own, p, DirMode(perm), true, c);
        MakeOnDisk(s, own, p, Target(s, Parent(p)), DirMode(perm), true, c);
      case Unlink(p) => RemoveOnDisk(s, own, op);
      case Rmdir(p) => RemoveOnDisk(s, own, op);
      case Rename(src, dst) => RenameOnDisk(s, own, src, dst);
      case Chmod(p, mode) => ChmodOnDisk(s, own, p, mode);
      case Truncate(p, len) => TruncateOnDisk(s, own, p, len);
      case WriteAt(p, buf, off, now) =>
        WriteDecision(s, own, p, buf, off, now);
        WriteOnDisk(s, own, Target(s, p), buf, off, now);
    }
  }

  lemma RemoveOnDisk(s: State, own: Owners, op: Op)
    requires Safe(s, own) && Allowed(s, op) && (op.Unlink? || op.Rmdir?) && PlanOf(s, op).result.Ok?
    ensures OnDisk(s.disk, PlanOf(s, op).writes)
  {
    var i, j, x, freed := RemovalOf(s, own, op);
    RemovalOnDisk(s, own, op.path, i, j, x, freed);
  }

  lemma ChmodOnDisk(s: State, own: Owners, path: Path, mode: u32)
    requires Safe(s, own) && ChmodPlan(s, path, mode).result.Ok?
    ensures OnDisk(s.disk, ChmodPlan(s, path, mode).writes)
  {
    FileAt(s.disk, s.bits, own, path);
    OwnedAboveBitmap(s.disk, s.bits, own, Target(s, path));
  }

  lemma TruncateOnDisk(s: State, own: Owners, path: Path, len: int)
    requires Safe(s, own) && TruncatePlan(s, path, len).result.Ok?
    ensures OnDisk(s.disk, TruncatePlan(s, path, len).writes)
  {
    FileAt(s.disk, s.bits, own, path);
    OwnedAboveBitmap(s.disk, s.bits, own, Target(s, path));
  }

  // ----------------------------------------------------------------------- leaks

  /** The path names a directory that has entries, and for rmdir slot 0 is not
      one of them: unlink never checks, and rmdir looks only at the first free slot. */
  ghost predicate Leaky(s: State, op: Op) {
    && (op.Unlink? || op.Rmdir?)
    && View(s.disk, op.path).Ok? && View(s.disk, op.path).value.DirNode?
    && var dir := Ents(s.disk, Target(s, op.path));
       !DirEmpty(dir) && (op.Rmdir? ==> !dir[0].valid)
  }

  /** Those calls are the removals that succeed and take entries with them. */
  lemma LeakyIs(s: State, own: Owners, op: Op)
    requires Safe(s, own) && Allowed(s, op) && (op.Unlink? || op.Rmdir?)
    ensures Leaky(s, op) <==> PlanOf(s, op).result.Ok? && !Childless(s.disk, Target(s, op.path))
  {
    FileAt(s.disk, s.bits, own, op.path);
    if op.Unlink? {
      UnlinkEffect(s, own, op.path, []);
    } else {
      RmdirDecision(s, own, op.path);
    }
  }

  /** Every other operation leaves each inode its entry. */
  lemma StepAttached(s: State, own: Owners, op: Op)
    requires Safe(s, own) && Allowed(s, op) && Attached(s.disk, own)
    ensures Attached(After(s, op).disk, OwnAfter(s, own, op)) <==> !Leaky(s, op)
  {
    if op.Unlink? || op.Rmdir? {
      LeakyIs(s, own, op);
    }
    if PlanOf(s, op).result.Err? {
      FailedCallChangesNothing(s, op);
    } else {
      match op
      case Create(p, mode, c) => MakeStaysAttached(s, own, p, mode, false, c);
      case Mkdir(p, perm, c) => MakeStaysAttached(s, own, p, DirMode(perm), true, c);
      case Unlink(p) => RemovalLeaks(s, own, op);
      case Rmdir(p) => RemovalLeaks(s, own, op);
      case Rename(src, dst) => RenameStaysAttached(s, own, src, dst);
      case Chmod(p, mode) => FileAt(s.disk, s.bits, own, p); ChmodEffect(s, own, p, mode, p);
      case Truncate(p, len) => TruncateStaysAttached(s, own, p, len);
      case WriteAt(p, buf, off, now) => WriteStaysAttached(s, own, p, buf, off, now);
    }
  }

  lemma MakeStaysAttached(s: State, own: Owners, path: Path, mode: u32, isDir: bool, c: Caller)
    requires Safe(s, own) && 0 < |path| <= MAX_PATH_LEN && RightKind(mode, isDir)
    requires MakePlan(s, path, mode, isDir, c).result.Ok? && Attached(s.disk, own)
    ensures Attached(Commit(s, MakePlan(s, path, mode, isDir, c)).disk, MadeOwn(s, own, path, isDir))
  {
    MakeKeeps(s, own, path, mode, isDir, c);
    MakeAttached(s, own, path, Target(s, Parent(path)), mode, isDir, c);
  }

  lemma RemovalLeaks(s: State, own: Owners, op: Op)
    requires Safe(s, own) && Allowed(s, op) && Attached(s.disk, own)
    requires (op.Unlink? || op.Rmdir?) && PlanOf(s, op).result.Ok?
    ensures Attached(After(s, op).disk, Without(own, Target(s, op.path))) <==> Childless(s.disk, Target(s, op.path))
  {
    var i, j, x, freed := RemovalOf(s, own, op);
    RemovalAttached(s, own, op.path, i, j, x, freed);
  }

  lemma RenameStaysAttached(s: State, own: Owners, src: Path, dst: Path)
    requires Safe(s, own) && RenamePlan(s, src, dst).result.Ok? && Attached(s.disk, own)
    ensures Attached(Commit(s, RenamePlan(s, src, dst)).disk, own)
  {
    RenameDecision(s, own, src, dst);
    var i := Target(s, Parent(src));
    RenameAttached(s, own, src, dst, i, FindSlot(Ents(s.disk, i), Last(src), 0));
  }

  lemma TruncateStaysAttached(s: State, own: Owners, path: Path, len: int)
    requires Safe(s, own) && TruncatePlan(s, path, len).result.Ok? && Attached(s.disk, own)
    ensures len >= 0 && Attached(Commit(s, TruncatePlan(s, path, len)).disk,
        Dropped(own, Target(s, path), NBlocks(len)))
  {
    FileAt(s.disk, s.bits, own, path);
    TruncateFileEffect(s, own, Target(s, path), len);
  }

  lemma WriteStaysAttached(s: State, own: Owners, path: Path, buf: seq<byte>, off: nat, now: u32)
    requires Safe(s, own) && WriteDefined(s, path, off, |buf|) && WritePlan(s, path, buf, off, now).result.Ok?
        && Attached(s.disk, own)
    ensures Attached(Commit(s, WritePlan(s, path, buf, off, now)).disk, WriteOwn(s, own, Target(s, path), off, |buf|))
  {
    WriteDecision(s, own, path, buf, off, now);
    WriteFileEffect(s, own, Target(s, path), buf, off, now);
  }

  /** An operation on an image without leaks leaks blocks exactly when it removes
      a directory that still has entries. */
  lemma LeaksExactlyWhen(s: State, own: Owners, op: Op)
    requires Good(s, own) && Allowed(s, op) && NothingLeaks(s.disk, s.bits)
    ensures NothingLeaks(After(s, op).disk, After(s, op).bits) <==> !Leaky(s, op)
  {
    LeaksAreOrphans(s.disk, s.bits, own);
    StepKeeps(s, own, op);
    StepAttached(s, own, op);
    LeaksAreOrphans(After(s, op).disk, After(s, op).bits, OwnAfter(s, own, op));
  }

  // -------------------------------------------------------------- the free counters

  /** The number of clear bits on the disk. */
  ghost function Free(s: State): nat { FreeIn(s.bits, 0, |s.disk|) }

  /** f_bfree and f_bavail are that number. */
  ghost predicate Counted(s: State) {
    s.bfree == Free(s) && s.bavail == Free(s)
  }

  /** From s to t both counters moved k further than the number of free blocks. */
  ghost predicate Drifted(s: State, t: State, k: int) {
    t.bfree - Free(t) == s.bfree - Free(s) + k && t.bavail - Free(t) == s.bavail - Free(s) + k
  }

  /** A write of n bytes at off would end before the last block of the file at path. */
  ghost predicate EndsShort(s: State, path: Path, off: nat, n: nat) {
    && View(s.disk, path).Ok? && View(s.disk, path).value.FileNode?
    && var size := |View(s.disk, path).value.bytes|;
       off <= size && NBlocks(off + n) < NBlocks(size)
  }

  /** The blocks it would not reach. */
  ghost function Excess(s: State, path: Path, off: nat, n: nat): nat {
    if EndsShort(s, path, off, n) then NBlocks(|View(s.disk, path).value.bytes|) - NBlocks(off + n) else 0
  }

  /** A write that ends before the last block of the file it names. */
  ghost predicate Miscounting(s: State, op: Op) {
    op.WriteAt? && EndsShort(s, op.path, op.off, |op.buf|)
  }

  /** By how much a call makes the counters too high. */
  ghost function Overcount(s: State, op: Op): nat {
    if op.WriteAt? then Excess(s, op.path, op.off, |op.buf|) else 0
  }

  /** A plan that moves the counters by what it does to the bitmap. */
  lemma CountsBits(s: State, p: Plan)
    requires FreeIn(p.bits, 0, |s.disk|) == Free(s) + p.released
    ensures Drifted(s, Commit(s, p), 0)
  {
  }

  lemma MakeCounts(s: State, own: Owners, path: Path, mode: u32, isDir: bool, c: Caller)
    requires Safe(s, own) && 0 < |path| <= MAX_PATH_LEN && RightKind(mode, isDir)
    requires MakePlan(s, path, mode, isDir, c).result.Ok?
    ensures Drifted(s, Commit(s, MakePlan(s, path, mode, isDir, c)), 0)
  {
    MakeKeeps(s, own, path, mode, isDir, c);
    TakingCounts(s, own, MakeCount(isDir));
    CountsBits(s, MakePlan(s, path, mode, isDir, c));
  }

  lemma TakingCounts(s: State, own: Owners, n: nat)
    requires Sound(s.disk, s.bits, own)
    ensures var got := LowestFree(s.bits, 0, |s.disk|, n);
      FreeIn(Mark(s.bits, got, true), 0, |s.disk|) == Free(s) - |got|
  {
    var got := LowestFree(s.bits, 0, |s.disk|, n);
    FreshDistinct(s, n);
    forall b | b in got
      ensures b < |s.disk| && !s.bits[b]
    {
      FreshBlocks(s, own, n, b);
    }
    FreeInMark(s.bits, got, true, |s.disk|);
  }

  lemma FreeingCounts(s: State, own: Owners, freed: seq<nat>)
    requires Sound(s.disk, s.bits, own) && Distinct(freed) && forall b :: b in freed ==> b in own
    ensures FreeIn(Mark(s.bits, freed, false), 0, |s.disk|) == Free(s) + |freed|
  {
    forall b | b in freed
      ensures b < |s.disk| && s.bits[b]
    {
      assert PlaceOk(s.disk, own, b);
    }
    FreeInMark(s.bits, freed, false, |s.disk|);
  }

  lemma RemovalCounts(s: State, own: Owners, op: Op)
    requires Safe(s, own) && Allowed(s, op) && (op.Unlink? || op.Rmdir?) && PlanOf(s, op).result.Ok?
    ensures Drifted(s, After(s, op), 0)
  {
    var i, j, x, freed := RemovalOf(s, own, op);
    FreeingCounts(s, own, freed);
    CountsBits(s, Cleared(s, i, j, freed));
  }

  /** rename and chmod leave the bitmap and the counters alone. */
  lemma RenameCounts(s: State, own: Owners, src: Path, dst: Path)
    requires Safe(s, own) && RenamePlan(s, src, dst).result.Ok?
    ensures Drifted(s, Commit(s, RenamePlan(s, src, dst)), 0)
  {
    CountsBits(s, RenamePlan(s, src, dst));
  }

  lemma ChmodCounts(s: State, path: Path, mode: u32)
    requires ChmodPlan(s, path, mode).result.Ok?
    ensures Drifted(s, Commit(s, ChmodPlan(s, path, mode)), 0)
  {
    CountsBits(s, ChmodPlan(s, path, mode));
  }

  lemma TruncateCounts(s: State, own: Owners, path: Path, len: int)
    requires Safe(s, own) && TruncatePlan(s, path, len).result.Ok?
    ensures Drifted(s, Commit(s, TruncatePlan(s, path, len)), 0)
  {
    FileAt(s.disk, s.bits, own, path);
    var i := Target(s, path);
    var ino := Ino(s.disk, i);
    PointersDistinct(s, own, i, NBlocks(len));
    forall b | b in ino.ptrs[NBlocks(len)..Extent(ino)]
      ensures b in own
    {
      FreedBlocks(s, own, i, NBlocks(len), b);
    }
    FreeingCounts(s, own, ino.ptrs[NBlocks(len)..Extent(ino)]);
    CountsBits(s, TruncatePlan(s, path, len));
  }

  lemma BlocksTo(off: nat, n: nat)
    requires n > 0 || off > 0
    ensures LastBlock(off, n) + 1 == NBlocks(off + n)
  {
  }

  /** A write moves the counters by the distance from the end of the file to its
      own end, in blocks; but it never gives blocks back. */
  lemma WriteFileCounts(s: State, own: Owners, i: nat, buf: seq<byte>, off: nat, now: u32, size: nat)
    requires Writable(s, own, i, off, |buf|) && size == Ino(s.disk, i).size <= MAX_FILE
    ensures Drifted(s, Commit(s, WriteFile(s, i, buf, off, now)),
                    if NBlocks(off + |buf|) < NBlocks(size) then NBlocks(size) - NBlocks(off + |buf|) else 0)
  {
    TakingCounts(s, own, Needed(Ino(s.disk, i), off, |buf|));
    BlocksTo(off, |buf|);
  }

  lemma WriteCounts(s: State, own: Owners, path: Path, buf: seq<byte>, off: nat, now: u32)
    requires Safe(s, own) && WriteDefined(s, path, off, |buf|)
    ensures Drifted(s, Commit(s, WritePlan(s, path, buf, off, now)), Excess(s, path, off, |buf|))
  {
    WriteDecision(s, own, path, buf, off, now);
    if WritePlan(s, path, buf, off, now).result.Ok? {
      FileAt(s.disk, s.bits, own, path);
      WriteFileCounts(s, own, Target(s, path), buf, off, now, |View(s.disk, path).value.bytes|);
    }
  }

  /** Every call moves the counters exactly with the number of free blocks, except
      that a write which ends before the last block of the file adds the blocks
      it did not reach. */
  lemma StepDrift(s: State, own: Owners, op: Op)
    requires Safe(s, own) && Allowed(s, op)
    ensures Drifted(s, After(s, op), Overcount(s, op))
  {
    if op.WriteAt? {
      WriteCounts(s, own, op.path, op.buf, op.off, op.now);
    } else if PlanOf(s, op).result.Err? {
      FailedCallChangesNothing(s, op);
    } else {
      match op
      case Create(p, mode, c) => MakeCounts(s, own, p, mode, false, c);
      case Mkdir(p, perm, c) => MakeCounts(s, own, p, DirMode(perm), true, c);
      case Unlink(p) => RemovalCounts(s, own, op);
      case Rmdir(p) => RemovalCounts(s, own, op);
      case Rename(src, dst) => RenameCounts(s, own, src, dst);
      case Chmod(p, mode) => ChmodCounts(s, p, mode);
      case Truncate(p, len) => TruncateCounts(s, own, p, len);
      case WriteAt(p, buf, off, now) =>
    }
  }

  /** The free counters are right after an operation exactly when it is not a
      write that ends before the last block of the file. */
  lemma CountedExactlyWhen(s: State, own: Owners, op: Op)
    requires Safe(s, own) && Allowed(s, op) && Counted(s)
    ensures Counted(After(s, op)) <==> !Miscounting(s, op)
  {
    StepDrift(s, own, op);
  }

  /** By how much the calls of a run make the counters too high, all together. */
  ghost function Drift(s: State, ops: seq<Op>): nat
    requires AllAllowed(s, ops)
    decreases |ops|
  {
    if ops == [] then 0 else Overcount(s, ops[0]) + Drift(After(s, ops[0]), ops[1..])
  }

  /** None of the calls is such a write. */
  ghost predicate NoneMiscounts(s: State, ops: seq<Op>)
    requires AllAllowed(s, ops)
    decreases |ops|
  {
    ops == [] || (!Miscounting(s, ops[0]) && NoneMiscounts(After(s, ops[0]), ops[1..]))
  }

  lemma {:induction false} NoDrift(s: State, ops: seq<Op>)
    requires AllAllowed(s, ops)
    ensures Drift(s, ops) == 0 <==> NoneMiscounts(s, ops)
    decreases |ops|
  {
    if ops != [] {
      NoDrift(After(s, ops[0]), ops[1..]);
    }
  }

  /** After any run the counters are off by exactly that. */
  lemma {:induction false} RunDrift(s: State, own: Owners, ops: seq<Op>)
    requires Safe(s, own) && AllAllowed(s, ops)
    ensures Drifted(s, Run(s, ops), Drift(s, ops))
    decreases |ops|
  {
    if ops != [] {
      StepDrift(s, own, ops[0]);
      StepKeeps(s, own, ops[0]);
      RunDrift(After(s, ops[0]), OwnAfter(s, own, ops[0]), ops[1..]);
    }
  }

  // ---------------------------------------------------------------- careful runs

  /** No call of the run removes a directory with entries or writes short of the
      last block. */
  ghost predicate Careful(s: State, ops: seq<Op>)
    requires AllAllowed(s, ops)
    decreases |ops|
  {
    ops == [] || (!Leaky(s, ops[0]) && !Miscounting(s, ops[0]) && Careful(After(s, ops[0]), ops[1..]))
  }

  /** Over a careful run the bitmap marks exactly what is reachable, and the
      counters are exactly the number of free blocks. */
  lemma {:induction false} CarefulRun(s: State, own: Owners, ops: seq<Op>) returns (own': Owners)
    requires Good(s, own) && AllAllowed(s, ops) && Careful(s, ops)
    requires NothingLeaks(s.disk, s.bits) && Counted(s)
    ensures Good(Run(s, ops), own') && Counted(Run(s, ops))
    ensures NothingLeaks(Run(s, ops).disk, Run(s, ops).bits) && NothingDangles(Run(s, ops).disk, Run(s, ops).bits)
    decreases |ops|
  {
    if ops == [] {
      own' := own;
      SoundNothingDangles(s.disk, s.bits, own);
    } else {
      StepKeeps(s, own, ops[0]);
      LeaksExactlyWhen(s, own, ops[0]);
      CountedExactlyWhen(s, own, ops[0]);
      own' := CarefulRun(After(s, ops[0]), OwnAfter(s, own, ops[0]), ops[1..]);
    }
  }
}
