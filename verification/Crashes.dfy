/** What a crash between two block writes leaves behind: for most operations an
    image in which nothing in use is unmarked, for create and mkdir not. */
module Crashes {
  import opened Layout
  import opened Bitmap
  import opened Image
  import opened Ownership
  import opened Operations
  import Frames
  import opened FileEdits
  import opened FileEffects
  import opened WriteEffects
  import DirEdits
  import DirEffects
  import opened MakeEffects
  import opened RemoveEffects
  import RenameEffects
  import opened Runs

  /** The disk after the first k writes of a plan. */
  ghost function DiskAfter(s: State, p: Plan, k: nat): Disk
    requires k <= |p.writes|
  {
    Apply(s.disk, p.writes[..k])
  }

  /** Everything reachable on the disk is marked in the bitmap block on the disk. */
  ghost predicate SafeOnDisk(d: Disk) {
    NothingDangles(d, DiskBits(Blk(d, BITMAP_LBA)))
  }

  /** With the bitmap it holds, the disk satisfies the invariant: the file system
      can be started on it. */
  ghost predicate Mountable(d: Disk, own: Owners) {
    Sound(d, DiskBits(Blk(d, BITMAP_LBA)), own)
  }

  lemma MountableIsSafe(d: Disk, own: Owners)
    requires Mountable(d, own)
    ensures SafeOnDisk(d)
  {
    SoundNothingDangles(d, DiskBits(Blk(d, BITMAP_LBA)), own);
  }

  lemma AllWritten(s: State, p: Plan, own: Owners)
    requires Safe(Commit(s, p), own)
    ensures Mountable(DiskAfter(s, p, |p.writes|), own)
  {
    assert p.writes[..|p.writes|] == p.writes;
  }

  /** After the directory write of a removal, before the bitmap write. */
  lemma EntryCleared(s: State, own: Owners, path: Path, i: nat, j: nat, x: nat, freed: seq<nat>, d1: Disk)
    requires Safe(s, own) && Removable(s, own, path, i, j, x)
    requires d1 == Store(s.disk, Cleared(s, i, j, freed).writes[0])
    ensures Mountable(d1, own)
  {
    var w := Cleared(s, i, j, freed).writes[0];
    assert InodeOk(s.disk, own, i) && PlaceOk(s.disk, own, Ino(s.disk, i).ptrs[0]);
    forall b: nat
      ensures Blk(d1, b) == if b == w.lba then w.data else Blk(s.disk, b)
    {
      StoreAt(s.disk, w, b);
    }
    RemovalUnnames(s, own, path, i, j, x, d1);
  }

  lemma ClearedHalfway(s: State, own: Owners, path: Path, i: nat, j: nat, x: nat, freed: seq<nat>, p: Plan)
    requires Safe(s, own) && Removable(s, own, path, i, j, x) && p == Cleared(s, i, j, freed)
    ensures |p.writes| == 2 && Mountable(DiskAfter(s, p, 1), own)
  {
    assert p.writes[..1] == [p.writes[0]];
    ApplyOne(s.disk, p.writes[0]);
    EntryCleared(s, own, path, i, j, x, freed, Store(s.disk, p.writes[0]));
  }

  lemma RemovalHalfway(s: State, own: Owners, op: Op)
    requires Safe(s, own) && Allowed(s, op) && (op.Unlink? || op.Rmdir?) && PlanOf(s, op).result.Ok?
    ensures |PlanOf(s, op).writes| == 2 && Mountable(DiskAfter(s, PlanOf(s, op), 1), own)
  {
    var i, j, x, freed := RemovalOf(s, own, op);
    ClearedHalfway(s, own, op.path, i, j, x, freed, PlanOf(s, op));
  }

  /** After the inode write of a truncate, before the bitmap write. */
  lemma TruncateHalfway(s: State, own: Owners, path: Path, len: int)
    requires Safe(s, own) && TruncatePlan(s, path, len).result.Ok?
    ensures len >= 0 && |TruncatePlan(s, path, len).writes| == 2
    ensures Mountable(DiskAfter(s, TruncatePlan(s, path, len), 1), Dropped(own, Target(s, path), NBlocks(len)))
  {
    FileAt(s.disk, s.bits, own, path);
    var i := Target(s, path);
    var p := TruncateFile(s, i, Ino(s.disk, i), len);
    assert p.writes[..1] == [p.writes[0]];
    ApplyOne(s.disk, p.writes[0]);
    OwnedAboveBitmap(s.disk, s.bits, own, i);
    StoredInode(s.disk, i, Cut(Ino(s.disk, i), len));
    CutInodeSound(s, own, i, len, DiskAfter(s, p, 1));
  }

  lemma CutInodeSound(s: State, own: Owners, i: nat, len: nat, d1: Disk)
    requires Sound(s.disk, s.bits, own) && HasInode(own, i) && IsReg(Ino(s.disk, i))
        && NBlocks(len) <= Extent(Ino(s.disk, i))
    requires |d1| == |s.disk| && Ino(d1, i) == Cut(Ino(s.disk, i), len)
    requires forall b: nat :: b != i ==> Blk(d1, b) == Blk(s.disk, b)
    ensures Sound(d1, s.bits, Dropped(own, i, NBlocks(len)))
  {
    TruncateTouches(s, own, i, len, d1);
    Frames.TouchedSound(s.disk, s.bits, d1, s.bits, own, Dropped(own, i, NBlocks(len)), i);
  }

  /** After the first of two head writes, the bitmap one. */
  lemma WriteReserved(s: State, own: Owners, i: nat, buf: seq<byte>, off: nat, now: u32)
    requires Safe(s, own) && Writable(s, own, i, off, |buf|) && |HeadWrites(s, i, off, |buf|, now)| == 2
    ensures Sound(Apply(s.disk, Writes(s, i, buf, off, now)[..1]), WrittenBits(s, i, off, |buf|), own)
  {
    var d1 := Apply(s.disk, Writes(s, i, buf, off, now)[..1]);
    WriteMarks(s, own, i, off, |buf|);
    forall b | b in own
      ensures Blk(d1, b) == Blk(s.disk, b)
    {
      OwnedAboveBitmap(s.disk, s.bits, own, b);
      BitmapFirst(s, own, i, buf, off, now, b);
    }
    MoreMarked(s.disk, s.bits, WrittenBits(s, i, off, |buf|), own);
    DirEdits.UnownedIrrelevant(s.disk, d1, WrittenBits(s, i, off, |buf|), own);
  }

  /** At any point of a write. */
  lemma WritePartway(s: State, own: Owners, i: nat, buf: seq<byte>, off: nat, now: u32, k: nat) returns (own': Owners)
    requires Safe(s, own) && Writable(s, own, i, off, |buf|) && k <= |Writes(s, i, buf, off, now)|
    ensures Mountable(DiskAfter(s, WriteFile(s, i, buf, off, now), k), own')
  {
    var h := |HeadWrites(s, i, off, |buf|, now)|;
    PrefixBitmap(s, own, i, buf, off, now, k);
    own' := own;
    if 0 < k < h {
      WriteReserved(s, own, i, buf, off, now);
    } else if k >= h {
      own' := WriteOwn(s, own, i, off, |buf|);
      WriteMarks(s, own, i, off, |buf|);
      PrefixTouches(s, own, i, buf, off, now, k);
      Frames.TouchedSound(s.disk, s.bits, Apply(s.disk, Writes(s, i, buf, off, now)[..k]),
          WrittenBits(s, i, off, |buf|), own, own', i);
    }
  }

  lemma MoreMarked(d: Disk, bits: Bits, bits': Bits, own: Owners)
    requires Sound(d, bits, own) && Marked(bits', own)
    ensures Sound(d, bits', own)
  {
  }

  /** When a write adds blocks it stores the bitmap first, and nothing else with it. */
  lemma BitmapFirst(s: State, own: Owners, i: nat, buf: seq<byte>, off: nat, now: u32, b: nat)
    requires HasRoom(s, i, off, |buf|) && |HeadWrites(s, i, off, |buf|, now)| == 2 && b != BITMAP_LBA
    ensures Blk(Apply(s.disk, Writes(s, i, buf, off, now)[..1]), b) == Blk(s.disk, b)
  {
    var w := HeadWrites(s, i, off, |buf|, now)[0];
    assert Writes(s, i, buf, off, now)[..1] == [w];
    ApplyOne(s.disk, w);
    StoreAt(s.disk, w, b);
  }

  /** From its first write on, a write has the new bits in the bitmap block. */
  lemma PrefixBitmap(s: State, own: Owners, i: nat, buf: seq<byte>, off: nat, now: u32, k: nat)
    requires Safe(s, own) && Writable(s, own, i, off, |buf|) && k <= |Writes(s, i, buf, off, now)|
    ensures k > 0 ==>
      DiskBits(Blk(Apply(s.disk, Writes(s, i, buf, off, now)[..k]), BITMAP_LBA)) == WrittenBits(s, i, off, |buf|)
  {
    if k > 0 {
      var ws, h, grown := Writes(s, i, buf, off, now)[..k], |HeadWrites(s, i, off, |buf|, now)|,
          WrittenInode(s, i, off, |buf|, now);
      WritesAreRun(s, own, i, buf, off, now);
      forall n | h - 1 <= n < k
        ensures ws[n].lba != BITMAP_LBA
      {
        RunTarget(s.disk, WriteOwn(s, own, i, off, |buf|), i, InodeBlock(grown), grown.ptrs,
            Writes(s, i, buf, off, now), h,
                  off / 4096, LastBlock(off, |buf|), DataBytes(s, i, buf, off, now), n);
      }
      if h == 2 {
        assert ws[0] == HeadWrites(s, i, off, |buf|, now)[0];
        ApplyAt(s.disk, ws, 0);
      } else {
        ApplyElsewhere(s.disk, ws, BITMAP_LBA);
      }
    }
  }

  lemma OneWriteOnly(s: State, own: Owners, op: Op)
    requires Safe(s, own) && (op.Rename? || op.Chmod?) && PlanOf(s, op).result.Ok?
    ensures |PlanOf(s, op).writes| == 1
  {
    match op
    case Rename(src, dst) => RenameEffects.RenameDecision(s, own, src, dst);
    case Chmod(p, mode) =>
      FileAt(s.disk, s.bits, own, p);
      ChmodDisk(s, own, p, mode);
  }

  lemma WritePlanPartway(s: State, own: Owners, path: Path, buf: seq<byte>, off: nat, now: u32, k: nat)
    returns (own': Owners)
    requires Safe(s, own) && WriteDefined(s, path, off, |buf|) && WritePlan(s, path, buf, off, now).result.Ok?
    requires k <= |WritePlan(s, path, buf, off, now).writes|
    ensures Mountable(DiskAfter(s, WritePlan(s, path, buf, off, now), k), own')
  {
    WriteDecision(s, own, path, buf, off, now);
    own' := WritePartway(s, own, Target(s, path), buf, off, now, k);
  }

  /** A crash after k block writes of a call loses nothing: it is not between the
      entry write and the bitmap write of a create or mkdir. */
  ghost predicate Harmless(s: State, op: Op, k: nat)
    requires Allowed(s, op)
  {
    k <= |PlanOf(s, op).writes| && (op.Create? || op.Mkdir? ==> k <= 1 || k == |PlanOf(s, op).writes|)
  }

  /** After a harmless crash the disk satisfies the invariant, with the bitmap
      that is on the disk. */
  lemma CrashMountable(s: State, own: Owners, op: Op, k: nat) returns (own': Owners)
    requires Safe(s, own) && Allowed(s, op) && Harmless(s, op, k)
    ensures Mountable(DiskAfter(s, PlanOf(s, op), k), own')
  {
    own' := own;
    if k == |PlanOf(s, op).writes| {
      StepKeeps(s, own, op);
      own' := OwnAfter(s, own, op);
      AllWritten(s, PlanOf(s, op), own');
    } else if PlanOf(s, op).result.Err? {
      FailedCallChangesNothing(s, op);
    } else if k > 0 {
      own' := CutShort(s, own, op, k);
    }
  }

  lemma CutShort(s: State, own: Owners, op: Op, k: nat) returns (own': Owners)
    requires Safe(s, own) && Allowed(s, op) && Harmless(s, op, k) && PlanOf(s, op).result.Ok?
    requires 0 < k < |PlanOf(s, op).writes|
    ensures Mountable(DiskAfter(s, PlanOf(s, op), k), own')
  {
    own' := own;
    match op
    case Create(p, mode, c) =>
      MakeKeeps(s, own, p, mode, false, c);
      MakeOneWrite(s, own, p, Target(s, Parent(p)), mode, false, c);
    case Mkdir(p, perm, c) =>
      MakeKeeps(s, own, p, DirMode(perm), true, c);
      MakeOneWrite(s, own, p, Target(s, Parent(p)), DirMode(perm), true, c);
    case Unlink(p) => RemovalHalfway(s, own, op);
    case Rmdir(p) => RemovalHalfway(s, own, op);
    case Rename(src, dst) => OneWriteOnly(s, own, op);
    case Chmod(p, mode) => OneWriteOnly(s, own, op);
    case Truncate(p, len) =>
      TruncateHalfway(s, own, p, len);
      own' := Dropped(own, Target(s, p), NBlocks(len));
    case WriteAt(p, buf, off, now) => own' := WritePlanPartway(s, own, p, buf, off, now, k);
  }

  /** unlink, rmdir, rename, chmod, truncate and write, whatever their outcome:
      no crash between two of their block writes leaves a reachable block unmarked. */
  lemma CrashSafe(s: State, own: Owners, op: Op, k: nat)
    requires Safe(s, own) && Allowed(s, op) && !op.Create? && !op.Mkdir?
    requires k <= |PlanOf(s, op).writes|
    ensures SafeOnDisk(DiskAfter(s, PlanOf(s, op), k))
  {
    var own' := CrashMountable(s, own, op, k);
    MountableIsSafe(DiskAfter(s, PlanOf(s, op), k), own');
  }

  // ------------------------------------------------------------- create and mkdir

  lemma PrefixIs(a: Write, e: Write, z: seq<Write>, m: Write, k: nat)
    requires |z| <= 1 && 1 <= k < 3 + |z|
    ensures ([a, e] + z + [m])[..k] == if k == 1 then [a] else if k == 2 then [a, e] else [a, e] + z
  {
  }

  lemma AfterTwo(d: Disk, a: Write, e: Write, b: nat)
    requires a.lba < |d| && e.lba < |d| && a.lba != e.lba
    ensures Blk(Apply(d, [a]), b) == if b == a.lba then a.data else Blk(d, b)
    ensures Blk(Apply(d, [a, e]), b) == if b == e.lba then e.data else if b == a.lba then a.data else Blk(d, b)
  {
    ApplyOne(d, a);
    ApplyTwo(d, a, e);
    StoreAt(d, a, b);
    StoreAt(Store(d, a), e, b);
  }

  lemma AfterZero(d: Disk, ws: seq<Write>, z: seq<Write>, b: nat)
    requires |z| == 1 && b != z[0].lba
    ensures Blk(Apply(d, ws + z), b) == Blk(Apply(d, ws), b)
  {
    assert ws + z == ws + [z[0]];
    ApplySnoc(d, ws, z[0]);
    StoreAt(Apply(d, ws), z[0], b);
  }

  /** The first k, but not all, of an inode, an entry, possibly a zero and a bitmap write. */
  lemma PrefixOfMake(d: Disk, a: Write, e: Write, z: seq<Write>, m: Write, k: nat, b: nat)
    requires |z| <= 1 && 1 <= k < 3 + |z| && a.lba < |d| && e.lba < |d| && a.lba != e.lba
    requires |z| == 1 ==> z[0].lba != a.lba && z[0].lba != e.lba
    ensures var d' := Apply(d, ([a, e] + z + [m])[..k]);
      && (b != a.lba && b != e.lba && (|z| == 1 ==> b != z[0].lba) ==> Blk(d', b) == Blk(d, b))
      && (k == 1 && b != a.lba ==> Blk(d', b) == Blk(d, b))
      && (k >= 2 && b == e.lba ==> Blk(d', b) == e.data)
  {
    PrefixIs(a, e, z, m, k);
    AfterTwo(d, a, e, b);
    if k > 2 && b != z[0].lba {
      AfterZero(d, [a, e], z, b);
    }
  }

  /** After k writes of a create or mkdir, k neither 0 nor all of them. */
  lemma MakePrefix(s: State, own: Owners, path: Path, i: nat, mode: u32, isDir: bool, c: Caller, k: nat, b: nat)
    requires Makeable(s, own, path, i, isDir)
    requires 1 <= k < |MadeBy(s, i, Last(path), mode, isDir, c).writes|
    ensures var got, d' := Allotted(s, isDir), DiskAfter(s, MadeBy(s, i, Last(path), mode, isDir, c), k);
      && (b !in got && b != Ino(s.disk, i).ptrs[0] ==> Blk(d', b) == Blk(s.disk, b))
      && (k == 1 && b !in got ==> Blk(d', b) == Blk(s.disk, b))
      && (k >= 2 && b == Ino(s.disk, i).ptrs[0] ==>
          Blk(d', b) == DirBlock(MadeDir(Ents(s.disk, i), Last(path), got[0])))
  {
    var got, lba, p := Allotted(s, isDir), Ino(s.disk, i).ptrs[0], MadeBy(s, i, Last(path), mode, isDir, c);
    AllottedFresh(s, own, i, isDir);
    PrefixOfMake(s.disk, Write(got[0], InodeBlock(NewInode(mode, if isDir then got[1] else 0, c))),
                 Write(lba, DirBlock(MadeDir(Ents(s.disk, i), Last(path), got[0]))),
                 if isDir then [Write(got[1], Zeros())] else [], Write(BITMAP_LBA, BitmapBlock(p.bits)), k, b);
  }

  lemma MakeNamesEarly(s: State, own: Owners, path: Path, i: nat, mode: u32, isDir: bool, c: Caller, k: nat)
    requires Makeable(s, own, path, i, isDir)
    requires 2 <= k < |MadeBy(s, i, Last(path), mode, isDir, c).writes|
    ensures var j := FreeSlot(Ents(s.disk, i), 0);
      DirEffects.NameAdded(s.disk, DiskAfter(s, MadeBy(s, i, Last(path), mode, isDir, c), k), own, i, j,
                NewEntry(Ents(s.disk, i)[j], Last(path), Allotted(s, isDir)[0]), path)
  {
    var d', lba := DiskAfter(s, MadeBy(s, i, Last(path), mode, isDir, c), k), Ino(s.disk, i).ptrs[0];
    assert DirOk(own, i, Ents(s.disk, i));
    NewEntryOk(own, i, Ents(s.disk, i), Last(path), Allotted(s, isDir)[0]);
    MakePrefix(s, own, path, i, mode, isDir, c, k, lba);
    forall b | b in own && b != lba
      ensures Blk(d', b) == Blk(s.disk, b)
    {
      AllottedFresh(s, own, i, isDir);
      MakePrefix(s, own, path, i, mode, isDir, c, k, b);
    }
  }

  /** create and mkdir store the entry before the bitmap: between those two
      writes, and only there, a crash leaves a reachable inode unmarked. */
  lemma MakeCrash(s: State, own: Owners, op: Op, k: nat)
    requires Safe(s, own) && Allowed(s, op) && (op.Create? || op.Mkdir?) && PlanOf(s, op).result.Ok?
    requires k <= |PlanOf(s, op).writes|
    ensures SafeOnDisk(DiskAfter(s, PlanOf(s, op), k)) <==> Harmless(s, op, k)
  {
    if Harmless(s, op, k) {
      var own' := CrashMountable(s, own, op, k);
      MountableIsSafe(DiskAfter(s, PlanOf(s, op), k), own');
    } else {
      var isDir, mode := op.Mkdir?, if op.Mkdir? then DirMode(op.perm) else op.mode;
      MakeKeeps(s, own, op.path, mode, isDir, op.caller);
      MakeDangles(s, own, op.path, Target(s, Parent(op.path)), mode, isDir, op.caller, k);
    }
  }

  /** The inode write of a create or mkdir touches nothing in use. */
  lemma FirstWriteUnseen(s: State, own: Owners, path: Path, i: nat, mode: u32, isDir: bool, c: Caller, b: nat)
    requires Makeable(s, own, path, i, isDir) && (b in own || b == BITMAP_LBA)
    ensures Blk(DiskAfter(s, MadeBy(s, i, Last(path), mode, isDir, c), 1), b) == Blk(s.disk, b)
  {
    AllottedFresh(s, own, i, isDir);
    MakePrefix(s, own, path, i, mode, isDir, c, 1, b);
  }

  lemma MakeOneWrite(s: State, own: Owners, path: Path, i: nat, mode: u32, isDir: bool, c: Caller)
    requires Safe(s, own) && Makeable(s, own, path, i, isDir)
    ensures Mountable(DiskAfter(s, MadeBy(s, i, Last(path), mode, isDir, c), 1), own)
  {
    var d' := DiskAfter(s, MadeBy(s, i, Last(path), mode, isDir, c), 1);
    FirstWriteUnseen(s, own, path, i, mode, isDir, c, BITMAP_LBA);
    forall b | b in own
      ensures Blk(d', b) == Blk(s.disk, b)
    {
      FirstWriteUnseen(s, own, path, i, mode, isDir, c, b);
    }
    DirEdits.UnownedIrrelevant(s.disk, d', s.bits, own);
  }

  /** The new inode can be found although its block is still marked free. */
  lemma MakeFoundEarly(s: State, own: Owners, path: Path, i: nat, mode: u32, isDir: bool, c: Caller, k: nat)
    requires Makeable(s, own, path, i, isDir)
    requires 2 <= k < |MadeBy(s, i, Last(path), mode, isDir, c).writes|
    ensures Resolve(DiskAfter(s, MadeBy(s, i, Last(path), mode, isDir, c), k), path) == Ok(Allotted(s, isDir)[0])
  {
    var j := FreeSlot(Ents(s.disk, i), 0);
    MakeNamesEarly(s, own, path, i, mode, isDir, c, k);
    DirEffects.AddAside(s.disk, s.bits, DiskAfter(s, MadeBy(s, i, Last(path), mode, isDir, c), k), own, i, j,
             NewEntry(Ents(s.disk, i)[j], Last(path), Allotted(s, isDir)[0]), path, path);
  }

  lemma FoundUnmarked(d: Disk, path: Path, x: nat)
    requires Resolve(d, path) == Ok(x) && x < NBITS && !DiskBits(Blk(d, BITMAP_LBA))[x]
    ensures !SafeOnDisk(d)
  {
    assert PartOf(d, x, x);
    assert Reachable(d, x);
  }

  lemma MakeDangles(s: State, own: Owners, path: Path, i: nat, mode: u32, isDir: bool, c: Caller, k: nat)
    requires Safe(s, own) && Makeable(s, own, path, i, isDir)
    requires 2 <= k < |MadeBy(s, i, Last(path), mode, isDir, c).writes|
    ensures !SafeOnDisk(DiskAfter(s, MadeBy(s, i, Last(path), mode, isDir, c), k))
  {
    AllottedFresh(s, own, i, isDir);
    MakeFoundEarly(s, own, path, i, mode, isDir, c, k);
    MakePrefix(s, own, path, i, mode, isDir, c, k, BITMAP_LBA);
    FoundUnmarked(DiskAfter(s, MadeBy(s, i, Last(path), mode, isDir, c), k), path, Allotted(s, isDir)[0]);
  }

  // ------------------------------------------------------------ running on after

  /** fs_init on a disk: the bitmap comes from the disk, the counters from it. */
  ghost function Mounted(d: Disk): State {
    var bits := DiskBits(Blk(d, BITMAP_LBA));
    State(d, bits, FreeIn(bits, 0, |d|), FreeIn(bits, 0, |d|))
  }

  /** A call that completes, or one cut short after k of its block writes, after
      which the file system is started again. */
  datatype Event = Call(op: Op) | Crash(op: Op, k: nat)

  ghost predicate CanHappen(s: State, e: Event) {
    Allowed(s, e.op) && (e.Crash? ==> Harmless(s, e.op, e.k))
  }

  ghost function Afterwards(s: State, e: Event): State
    requires CanHappen(s, e)
  {
    match e
    case Call(op) => After(s, op)
    case Crash(op, k) => Mounted(DiskAfter(s, PlanOf(s, op), k))
  }

  ghost predicate AllCanHappen(s: State, es: seq<Event>)
    decreases |es|
  {
    es == [] || (CanHappen(s, es[0]) && AllCanHappen(Afterwards(s, es[0]), es[1..]))
  }

  ghost function History(s: State, es: seq<Event>): State
    requires AllCanHappen(s, es)
    decreases |es|
  {
    if es == [] then s else History(Afterwards(s, es[0]), es[1..])
  }

  /** However many times power fails, outside the critical section of create and
      mkdir, and whatever is called in between: the invariant holds, with nothing
      in use unmarked. What a crash can do is leak blocks. */
  lemma {:induction false} HistoryKeeps(s: State, own: Owners, es: seq<Event>) returns (own': Owners)
    requires Safe(s, own) && AllCanHappen(s, es)
    ensures Safe(History(s, es), own')
    ensures NothingDangles(History(s, es).disk, History(s, es).bits) && SafeOnDisk(History(s, es).disk)
    decreases |es|
  {
    if es == [] {
      own' := own;
      SoundNothingDangles(s.disk, s.bits, own);
    } else {
      var next: Owners;
      match es[0] {
        case Call(op) =>
          StepKeeps(s, own, op);
          next := OwnAfter(s, own, op);
        case Crash(op, k) => next := CrashMountable(s, own, op, k);
      }
      own' := HistoryKeeps(Afterwards(s, es[0]), next, es[1..]);
    }
  }
}
