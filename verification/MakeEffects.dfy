/** What create and mkdir do: when they refuse, and what the tree and the
    invariant look like after they succeed. */
module MakeEffects {
  import opened Layout
  import opened Bitmap
  import opened Image
  import opened Ownership
  import opened Operations
  import Frames
  import FileEdits
  import FileEffects
  import opened DirEdits
  import opened DirEffects

  // ------------------------------------------------------------------ decisions

  ghost predicate DirFull(dir: Directory) {
    forall k :: 0 <= k < SLOTS ==> dir[k].valid
  }

  /** create or mkdir of path is past its checks; i is the containing directory. */
  ghost predicate Makeable(s: State, own: Owners, path: Path, i: nat, isDir: bool) {
    && Sound(s.disk, s.bits, own) && path != [] && |path| <= MAX_PATH_LEN
    && Resolve(s.disk, Parent(path)) == Ok(i) && HasInode(own, i) && IsDir(Ino(s.disk, i))
    && FindSlot(Ents(s.disk, i), Last(path), 0) == SLOTS
    && FreeSlot(Ents(s.disk, i), 0) < SLOTS
    && |Allotted(s, isDir)| == MakeCount(isDir)
  }

  ghost function MadeBy(s: State, i: nat, name: Name, mode: u32, isDir: bool, c: Caller): Plan
    requires FreeSlot(Ents(s.disk, i), 0) < SLOTS && |Allotted(s, isDir)| == MakeCount(isDir)
  {
    MakeEntry(s, Ino(s.disk, i).ptrs[0], Ents(s.disk, i), name, mode, isDir, c)
  }

  /** Inside a directory a path resolves exactly when its name is found there. */
  lemma NameFound(d: Disk, bits: Bits, own: Owners, path: Path)
    requires Sound(d, bits, own) && path != [] && Resolve(d, Parent(path)).Ok?
    requires IsDir(Ino(d, Resolve(d, Parent(path)).value))
    ensures var i := Resolve(d, Parent(path)).value;
      && HasInode(own, i) && Ino(d, i).ptrs[0] < |d|
      && Resolve(d, path) == Lookup(Ents(d, i), Last(path))
  {
    ResolveSound(d, bits, own, Parent(path));
    StepOf(d, bits, own, Resolve(d, Parent(path)).value, Last(path));
  }

  /** Which error create and mkdir report, in what order, and when they go ahead. */
  lemma MakeDecision(s: State, own: Owners, path: Path, mode: u32, isDir: bool, c: Caller)
    requires Sound(s.disk, s.bits, own) && path != [] && |path| <= MAX_PATH_LEN
    ensures var p, above := MakePlan(s, path, mode, isDir, c), View(s.disk, Parent(path));
      if above.Err? then p == Fail(s, above.error)
      else if !above.value.DirNode? then p == Fail(s, ENOTDIR)
      else if View(s.disk, path).Ok? then p == Fail(s, EEXIST)
      else
        var i := Resolve(s.disk, Parent(path)).value;
        if DirFull(Ents(s.disk, i)) || FreeIn(s.bits, 0, |s.disk|) < MakeCount(isDir) then p == Fail(s, ENOSPC)
        else Makeable(s, own, path, i, isDir) && p == MadeBy(s, i, Last(path), mode, isDir, c)
  {
    FileEffects.FileAt(s.disk, s.bits, own, Parent(path));
    FileEffects.FileAt(s.disk, s.bits, own, path);
    LowestFreeCount(s.bits, 0, |s.disk|, MakeCount(isDir));
    if View(s.disk, Parent(path)).Ok? && View(s.disk, Parent(path)).value.DirNode? {
      NameFound(s.disk, s.bits, own, path);
    }
  }

  // ------------------------------------------------------------------- the disk

  ghost function NewRoles(s: State, own: Owners, i: nat, isDir: bool): Owners
    requires HasInode(own, i) && FreeSlot(Ents(s.disk, i), 0) < SLOTS && |Allotted(s, isDir)| == MakeCount(isDir)
  {
    var got := Allotted(s, isDir);
    var named := own[got[0] := Child(i, FreeSlot(Ents(s.disk, i), 0), own[i].Depth() + 1)];
    if isDir then named[got[1] := DirData(got[0])] else named
  }

  /** The blocks a new entry takes are free, distinct, and away from everything in use. */
  lemma AllottedFresh(s: State, own: Owners, i: nat, isDir: bool)
    requires Sound(s.disk, s.bits, own) && HasInode(own, i) && IsDir(Ino(s.disk, i))
    requires |Allotted(s, isDir)| == MakeCount(isDir)
    ensures var got, lba := Allotted(s, isDir), Ino(s.disk, i).ptrs[0];
      && Holds(own, lba, DirData(i)) && 2 <= lba < |s.disk|
      && got[0] !in own && 2 <= got[0] < |s.disk| && got[0] != lba && !s.bits[got[0]]
      && (isDir ==> got[1] !in own && 2 <= got[1] < |s.disk| && got[1] != lba && got[1] != got[0] && !s.bits[got[1]])
  {
    assert InodeOk(s.disk, own, i);
    assert PlaceOk(s.disk, own, Ino(s.disk, i).ptrs[0]);
    FileEdits.FreshDistinct(s, MakeCount(isDir));
    FileEdits.FreshBlocks(s, own, MakeCount(isDir), Allotted(s, isDir)[0]);
    if isDir {
      FileEdits.FreshBlocks(s, own, MakeCount(isDir), Allotted(s, isDir)[1]);
    }
  }

  /** Three or four writes to different blocks. */
  lemma ApplyMake(d: Disk, x: Write, e: Write, z: seq<Write>, m: Write, b: nat)
    requires |z| <= 1 && x.lba < |d| && e.lba < |d| && m.lba < |d| && x.lba != e.lba && m.lba != x.lba && m.lba != e.lba
    requires |z| == 1 ==> z[0].lba < |d| && z[0].lba != x.lba && z[0].lba != e.lba && z[0].lba != m.lba
    ensures Blk(Apply(d, [x, e] + z + [m]), b) ==
            if b == x.lba then x.data else if b == e.lba then e.data
            else if b == m.lba then m.data else if |z| == 1 && b == z[0].lba then z[0].data else Blk(d, b)
  {
    var d2 := Apply(d, [x, e]);
    ApplyTwo(d, x, e);
    StoreAt(d, x, b);
    StoreAt(Store(d, x), e, b);
    ApplyAppend(d, [x, e], z);
    if |z| == 1 {
      assert z == [z[0]];
      ApplyOne(d2, z[0]);
      StoreAt(d2, z[0], b);
    }
    ApplySnoc(d, [x, e] + z, m);
    StoreAt(Apply(d, [x, e] + z), m, b);
  }

  /** The disk after a successful create or mkdir, block by block. */
  lemma MadeDisk(s: State, own: Owners, path: Path, i: nat, mode: u32, isDir: bool, c: Caller, b: nat)
    requires Makeable(s, own, path, i, isDir)
    ensures var got, d' := Allotted(s, isDir), Commit(s, MadeBy(s, i, Last(path), mode, isDir, c)).disk;
      Blk(d', b) ==
        if b == got[0] then InodeBlock(NewInode(mode, if isDir then got[1] else 0, c))
        else if b == Ino(s.disk, i).ptrs[0] then DirBlock(MadeDir(Ents(s.disk, i), Last(path), got[0]))
        else if b == BITMAP_LBA then BitmapBlock(Mark(s.bits, got, true))
        else if isDir && b == got[1] then Zeros()
        else Blk(s.disk, b)
  {
    var got, lba := Allotted(s, isDir), Ino(s.disk, i).ptrs[0];
    AllottedFresh(s, own, i, isDir);
    ApplyMake(s.disk, Write(got[0], InodeBlock(NewInode(mode, if isDir then got[1] else 0, c))),
              Write(lba, DirBlock(MadeDir(Ents(s.disk, i), Last(path), got[0]))),
              if isDir then [Write(got[1], Zeros())] else [],
              Write(BITMAP_LBA, BitmapBlock(Mark(s.bits, got, true))), b);
  }

  // --------------------------------------------------------------- the invariant

  /** The disk with the new inode in place but not yet named. */
  ghost function PlantedDisk(s: State, mode: u32, isDir: bool, c: Caller): Disk
    requires |Allotted(s, isDir)| == MakeCount(isDir)
  {
    var got := Allotted(s, isDir);
    var d := Store(s.disk, Write(got[0], InodeBlock(NewInode(mode, if isDir then got[1] else 0, c))));
    if isDir then Store(d, Write(got[1], Zeros())) else d
  }

  lemma PlantedBlock(s: State, mode: u32, isDir: bool, c: Caller, b: nat)
    requires |Allotted(s, isDir)| == MakeCount(isDir)
    ensures var got, d := Allotted(s, isDir), PlantedDisk(s, mode, isDir, c);
      && |d| == |s.disk|
      && (isDir && b == got[1] && got[1] < |d| ==> Blk(d, b) == Zeros())
      && (b == got[0] && got[0] < |d| && (isDir ==> got[0] != got[1]) ==>
            Blk(d, b) == InodeBlock(NewInode(mode, if isDir then got[1] else 0, c)))
      && (b != got[0] && (isDir ==> b != got[1]) ==> Blk(d, b) == Blk(s.disk, b))
  {
    var got := Allotted(s, isDir);
    var w := Write(got[0], InodeBlock(NewInode(mode, if isDir then got[1] else 0, c)));
    StoreAt(s.disk, w, b);
    if isDir {
      StoreAt(Store(s.disk, w), Write(got[1], Zeros()), b);
    }
  }

  lemma NewInodeKind(mode: u32, ptr: u32, c: Caller)
    ensures IsDir(NewInode(mode, ptr, c)) <==> Kind(mode) == 4
    ensures IsReg(NewInode(mode, ptr, c)) <==> Kind(mode) == 8
    ensures NewInode(mode, ptr, c).ptrs[0] == ptr
    ensures forall k :: 1 <= k < NPTRS ==> NewInode(mode, ptr, c).ptrs[k] == 0
  {
  }

  ghost predicate RightKind(mode: u32, isDir: bool) {
    Kind(mode) == if isDir then 4 else 8
  }

  lemma NewInodeOk(d: Disk, own: Owners, x: nat, mode: u32, isDir: bool, ptr: u32, c: Caller)
    requires RightKind(mode, isDir) && Ino(d, x) == NewInode(mode, ptr, c)
    requires isDir ==> Holds(own, ptr, DirData(x))
    requires !isDir ==> ptr == 0
    ensures InodeOk(d, own, x)
  {
    NewInodeKind(mode, ptr, c);
  }

  /** The roles of the new blocks. */
  lemma NewRolesAre(s: State, own: Owners, i: nat, isDir: bool)
    requires Sound(s.disk, s.bits, own) && HasInode(own, i) && IsDir(Ino(s.disk, i))
    requires FreeSlot(Ents(s.disk, i), 0) < SLOTS && |Allotted(s, isDir)| == MakeCount(isDir)
    ensures var got, own' := Allotted(s, isDir), NewRoles(s, own, i, isDir);
      && (forall b :: b in own ==> Holds(own', b, own[b]))
      && Holds(own', got[0], Child(i, FreeSlot(Ents(s.disk, i), 0), own[i].Depth() + 1))
      && (isDir ==> Holds(own', got[1], DirData(got[0])))
      && (forall b :: b in own' ==> b in own || b == got[0] || (isDir && b == got[1]))
  {
    AllottedFresh(s, own, i, isDir);
  }

  lemma PlantedParts(s: State, own: Owners, i: nat, mode: u32, isDir: bool, c: Caller)
    requires Sound(s.disk, s.bits, own) && HasInode(own, i) && IsDir(Ino(s.disk, i))
    requires |Allotted(s, isDir)| == MakeCount(isDir)
    ensures var got, d' := Allotted(s, isDir), PlantedDisk(s, mode, isDir, c);
      && |d'| == |s.disk|
      && Ino(d', got[0]) == NewInode(mode, if isDir then got[1] else 0, c)
      && (isDir ==> Blk(d', got[1]) == Zeros())
      && (forall b :: b in own ==> Blk(d', b) == Blk(s.disk, b))
  {
    var got, d' := Allotted(s, isDir), PlantedDisk(s, mode, isDir, c);
    AllottedFresh(s, own, i, isDir);
    PlantedBlock(s, mode, isDir, c, got[0]);
    if isDir {
      PlantedBlock(s, mode, isDir, c, got[1]);
    }
    forall b | b in own
      ensures Blk(d', b) == Blk(s.disk, b)
    {
      PlantedBlock(s, mode, isDir, c, b);
    }
  }

  lemma MakePlants(s: State, own: Owners, path: Path, i: nat, mode: u32, isDir: bool, c: Caller)
    requires Makeable(s, own, path, i, isDir) && RightKind(mode, isDir)
    ensures Planted(s.disk, PlantedDisk(s, mode, isDir, c), own, NewRoles(s, own, i, isDir), i,
                    FreeSlot(Ents(s.disk, i), 0), Allotted(s, isDir)[0])
  {
    var got, d', own' := Allotted(s, isDir), PlantedDisk(s, mode, isDir, c), NewRoles(s, own, i, isDir);
    var ptr := if isDir then got[1] else 0;
    ResolveSound(s.disk, s.bits, own, Parent(path));
    AllottedFresh(s, own, i, isDir);
    NewRolesAre(s, own, i, isDir);
    PlantedParts(s, own, i, mode, isDir, c);
    NewInodeKind(mode, ptr, c);
    NewInodeOk(d', own', got[0], mode, isDir, ptr, c);
  }

  lemma MakeMarks(s: State, own: Owners, i: nat, isDir: bool)
    requires Sound(s.disk, s.bits, own) && HasInode(own, i) && IsDir(Ino(s.disk, i))
    requires FreeSlot(Ents(s.disk, i), 0) < SLOTS && |Allotted(s, isDir)| == MakeCount(isDir)
    ensures Marked(Mark(s.bits, Allotted(s, isDir), true), NewRoles(s, own, i, isDir))
    ensures Exact(s.disk, s.bits, own) ==>
        Exact(s.disk, Mark(s.bits, Allotted(s, isDir), true), NewRoles(s, own, i, isDir))
  {
    var got := Allotted(s, isDir);
    AllottedFresh(s, own, i, isDir);
    forall b: nat | b < NBITS
      ensures Mark(s.bits, got, true)[b] <==> s.bits[b] || b == got[0] || (isDir && b == got[1])
    {
      MarkAt(s.bits, got, true, b);
    }
  }

  /** The new entry is a good one, in the slot it takes. */
  lemma NewEntryOk(own: Owners, i: nat, dir: Directory, name: Name, x: u31)
    requires HasInode(own, i) && DirOk(own, i, dir) && FreeSlot(dir, 0) < SLOTS && FindSlot(dir, name, 0) == SLOTS
    ensures var j := FreeSlot(dir, 0);
      var e := NewEntry(dir[j], name, x);
      && e.valid && e.inode == x && NameOf(e) == name && e.name[NAME_MAX] == 0
      && UniqueNames(dir[j := e])
  {
    var j := FreeSlot(dir, 0);
    assert EntryOk(own, i, dir[j], j);
    StrnCpyName(dir[j].name, name);
    NewNameUnique(dir, j, NewEntry(dir[j], name, x));
  }

  lemma NewNameUnique(dir: Directory, j: nat, e: Dirent)
    requires UniqueNames(dir) && j < SLOTS
    requires forall k :: 0 <= k < SLOTS && k != j && dir[k].valid ==> NameOf(dir[k]) != NameOf(e)
    ensures UniqueNames(dir[j := e])
  {
  }

  lemma MakeEdits(s: State, own: Owners, path: Path, i: nat, mode: u32, isDir: bool, c: Caller, d0: Disk, own0: Owners)
    requires Makeable(s, own, path, i, isDir)
    requires |d0| == |s.disk| && HasInode(own0, i) && Ino(d0, i) == Ino(s.disk, i) && Ents(d0, i) == Ents(s.disk, i)
    requires forall b :: b in own0 && b != BITMAP_LBA && b != Ino(s.disk, i).ptrs[0] ==>
               Blk(d0, b) == Blk(Commit(s, MadeBy(s, i, Last(path), mode, isDir, c)).disk, b)
    requires BITMAP_LBA !in own0
    ensures var j := FreeSlot(Ents(s.disk, i), 0);
      SlotEdited(d0, Commit(s, MadeBy(s, i, Last(path), mode, isDir, c)).disk, own0, i, j,
                 NewEntry(Ents(s.disk, i)[j], Last(path), Allotted(s, isDir)[0]))
  {
    MadeDisk(s, own, path, i, mode, isDir, c, Ino(s.disk, i).ptrs[0]);
    AllottedFresh(s, own, i, isDir);
  }

  /** The new image: planted, then named. */
  lemma MakeSound(s: State, own: Owners, path: Path, i: nat, mode: u32, isDir: bool, c: Caller)
    requires Makeable(s, own, path, i, isDir) && RightKind(mode, isDir)
    ensures var s', own' := Commit(s, MadeBy(s, i, Last(path), mode, isDir, c)), NewRoles(s, own, i, isDir);
      && Sound(s'.disk, s'.bits, own')
      && (Exact(s.disk, s.bits, own) ==> Exact(s'.disk, s'.bits, own'))
  {
    var s', own' := Commit(s, MadeBy(s, i, Last(path), mode, isDir, c)), NewRoles(s, own, i, isDir);
    var d0, j, got := PlantedDisk(s, mode, isDir, c), FreeSlot(Ents(s.disk, i), 0), Allotted(s, isDir);
    MakePlants(s, own, path, i, mode, isDir, c);
    MakeMarks(s, own, i, isDir);
    PlantSound(s.disk, s.bits, d0, s'.bits, own, own', i, j, got[0]);
    MakeNamesPlanted(s, own, path, i, mode, isDir, c);
    SlotEditSound(d0, s'.bits, s'.disk, own', i, j, NewEntry(Ents(s.disk, i)[j], Last(path), got[0]));
  }

  lemma BitmapUnowned(d: Disk, own: Owners)
    requires Shape(d, own)
    ensures BITMAP_LBA !in own
  {
    assert forall b :: b in own ==> PlaceOk(d, own, b);
  }

  /** Naming the planted inode changes no other owned block. */
  lemma NamingIsLocal(s: State, own: Owners, path: Path, i: nat, mode: u32, isDir: bool, c: Caller, b: nat)
    requires Makeable(s, own, path, i, isDir) && b in NewRoles(s, own, i, isDir) && b != Ino(s.disk, i).ptrs[0]
    ensures b != BITMAP_LBA
    ensures Blk(PlantedDisk(s, mode, isDir, c), b) == Blk(Commit(s, MadeBy(s, i, Last(path), mode, isDir, c)).disk, b)
  {
    BitmapUnowned(s.disk, own);
    AllottedFresh(s, own, i, isDir);
    NewRolesAre(s, own, i, isDir);
    MadeDisk(s, own, path, i, mode, isDir, c, b);
    PlantedBlock(s, mode, isDir, c, b);
  }

  lemma MakeNamesPlanted(s: State, own: Owners, path: Path, i: nat, mode: u32, isDir: bool, c: Caller)
    requires Makeable(s, own, path, i, isDir) && RightKind(mode, isDir)
    ensures var d0, own', j := PlantedDisk(s, mode, isDir, c), NewRoles(s, own, i, isDir), FreeSlot(Ents(s.disk, i), 0);
      var e := NewEntry(Ents(s.disk, i)[j], Last(path), Allotted(s, isDir)[0]);
      && Ents(d0, i) == Ents(s.disk, i)
      && SlotEdited(d0, Commit(s, MadeBy(s, i, Last(path), mode, isDir, c)).disk, own', i, j, e)
      && EntryOk(own', i, e, j) && UniqueNames(Ents(s.disk, i)[j := e])
  {
    var d0, own', j := PlantedDisk(s, mode, isDir, c), NewRoles(s, own, i, isDir), FreeSlot(Ents(s.disk, i), 0);
    MakePlants(s, own, path, i, mode, isDir, c);
    PlantedInode(s.disk, s.bits, d0, own, own', i, j, Allotted(s, isDir)[0], i);
    NamingEntryOk(s, own, path, i, isDir);
    forall b | b in own' && b != Ino(s.disk, i).ptrs[0]
      ensures b != BITMAP_LBA
      ensures Blk(d0, b) == Blk(Commit(s, MadeBy(s, i, Last(path), mode, isDir, c)).disk, b)
    {
      NamingIsLocal(s, own, path, i, mode, isDir, c, b);
    }
    AllottedFresh(s, own, i, isDir);
    MakeEdits(s, own, path, i, mode, isDir, c, d0, own');
  }

  lemma NamingEntryOk(s: State, own: Owners, path: Path, i: nat, isDir: bool)
    requires Makeable(s, own, path, i, isDir)
    ensures var own', j := NewRoles(s, own, i, isDir), FreeSlot(Ents(s.disk, i), 0);
      var e := NewEntry(Ents(s.disk, i)[j], Last(path), Allotted(s, isDir)[0]);
      HasInode(own', i) && EntryOk(own', i, e, j) && UniqueNames(Ents(s.disk, i)[j := e])
  {
    assert DirOk(own, i, Ents(s.disk, i));
    NewEntryOk(own, i, Ents(s.disk, i), Last(path), Allotted(s, isDir)[0]);
    NewRolesAre(s, own, i, isDir);
  }

  // ------------------------------------------------------------------ the views

  /** What appears at the path: an empty file or directory with the given mode,
      owned by the caller. */
  function NewNode(mode: u32, isDir: bool, c: Caller): Node {
    var m := Meta(c.uid, c.gid, mode, c.now, c.now);
    if isDir then DirNode(m) else FileNode(m, [])
  }

  lemma NodeOfNew(d: Disk, mode: u32, isDir: bool, ptr: u32, c: Caller)
    requires RightKind(mode, isDir)
    ensures NodeOf(d, NewInode(mode, ptr, c)) == NewNode(mode, isDir, c)
  {
    NewInodeKind(mode, ptr, c);
  }

  lemma MakeAdds(s: State, own: Owners, path: Path, i: nat, mode: u32, isDir: bool, c: Caller)
    requires Makeable(s, own, path, i, isDir)
    ensures var j := FreeSlot(Ents(s.disk, i), 0);
      NameAdded(s.disk, Commit(s, MadeBy(s, i, Last(path), mode, isDir, c)).disk, own, i, j,
                NewEntry(Ents(s.disk, i)[j], Last(path), Allotted(s, isDir)[0]), path)
  {
    assert DirOk(own, i, Ents(s.disk, i));
    NewEntryOk(own, i, Ents(s.disk, i), Last(path), Allotted(s, isDir)[0]);
    BitmapUnowned(s.disk, own);
    AllottedFresh(s, own, i, isDir);
    forall b | b in own && b != BITMAP_LBA && b != Ino(s.disk, i).ptrs[0]
      ensures Blk(s.disk, b) == Blk(Commit(s, MadeBy(s, i, Last(path), mode, isDir, c)).disk, b)
    {
      MadeDisk(s, own, path, i, mode, isDir, c, b);
    }
    MakeEdits(s, own, path, i, mode, isDir, c, s.disk, own);
  }

  /** Nothing can be found in, or below, the new inode. */
  lemma NewIsEmpty(s: State, own: Owners, path: Path, i: nat, mode: u32, isDir: bool, c: Caller, n: Name)
    requires Makeable(s, own, path, i, isDir) && RightKind(mode, isDir)
    ensures Ino(Commit(s, MadeBy(s, i, Last(path), mode, isDir, c)).disk, Allotted(s, isDir)[0])
            == NewInode(mode, if isDir then Allotted(s, isDir)[1] else 0, c)
    ensures Step(Commit(s, MadeBy(s, i, Last(path), mode, isDir, c)).disk, Allotted(s, isDir)[0], n)
            == Err(if isDir then ENOENT else ENOTDIR)
  {
    var got, d' := Allotted(s, isDir), Commit(s, MadeBy(s, i, Last(path), mode, isDir, c)).disk;
    AllottedFresh(s, own, i, isDir);
    MadeDisk(s, own, path, i, mode, isDir, c, got[0]);
    NewInodeKind(mode, if isDir then got[1] else 0, c);
    StepReads(d', got[0], n);
    if isDir {
      MadeDisk(s, own, path, i, mode, isDir, c, got[1]);
      forall k | 0 <= k < SLOTS
        ensures !DirOf(Zeros())[k].valid
      {
        EmptyDirectory(k);
      }
      FindSlotNone(DirOf(Zeros()), n);
      StepInIs(d', got[0], n, DirOf(Zeros()));
    }
  }

  lemma MakeResolve(s: State, own: Owners, path: Path, i: nat, mode: u32, isDir: bool, c: Caller, q: Path)
    requires Makeable(s, own, path, i, isDir) && RightKind(mode, isDir)
    ensures Resolve(Commit(s, MadeBy(s, i, Last(path), mode, isDir, c)).disk, q) ==
            if q == path then Ok(Allotted(s, isDir)[0])
            else if path <= q then Err(if isDir then ENOENT else ENOTDIR)
            else Resolve(s.disk, q)
  {
    var d', j := Commit(s, MadeBy(s, i, Last(path), mode, isDir, c)).disk, FreeSlot(Ents(s.disk, i), 0);
    MakeAdds(s, own, path, i, mode, isDir, c);
    forall n: Name
      ensures Step(d', Allotted(s, isDir)[0], n) == Err(if isDir then ENOENT else ENOTDIR)
    {
      NewIsEmpty(s, own, path, i, mode, isDir, c, n);
    }
    AddResolve(s.disk, s.bits, d', own, i, j, NewEntry(Ents(s.disk, i)[j], Last(path), Allotted(s, isDir)[0]), path,
               if isDir then ENOENT else ENOTDIR, q);
  }

  lemma MakeViews(s: State, own: Owners, path: Path, i: nat, mode: u32, isDir: bool, c: Caller, q: Path)
    requires Makeable(s, own, path, i, isDir) && RightKind(mode, isDir)
    ensures View(Commit(s, MadeBy(s, i, Last(path), mode, isDir, c)).disk, q) ==
            if q == path then Ok(NewNode(mode, isDir, c))
            else if path <= q then Err(if isDir then ENOENT else ENOTDIR)
            else View(s.disk, q)
  {
    var s' := Commit(s, MadeBy(s, i, Last(path), mode, isDir, c));
    MakeResolve(s, own, path, i, mode, isDir, c, q);
    MakeSound(s, own, path, i, mode, isDir, c);
    Frames.ViewOf(s'.disk, s'.bits, NewRoles(s, own, i, isDir), q);
    if q == path {
      NewIsEmpty(s, own, path, i, mode, isDir, c, Last(path));
      NodeOfNew(s'.disk, mode, isDir, if isDir then Allotted(s, isDir)[1] else 0, c);
    } else if !(path <= q) {
      Frames.ViewOf(s.disk, s.bits, own, q);
      if Resolve(s.disk, q).Ok? {
        OldNodeKept(s, own, path, i, mode, isDir, c, q);
      }
    }
  }

  lemma OldNodeKept(s: State, own: Owners, path: Path, i: nat, mode: u32, isDir: bool, c: Caller, q: Path)
    requires Makeable(s, own, path, i, isDir) && Resolve(s.disk, q).Ok?
    ensures var d', x := Commit(s, MadeBy(s, i, Last(path), mode, isDir, c)).disk, Resolve(s.disk, q).value;
      NodeOf(d', Ino(d', x)) == NodeOf(s.disk, Ino(s.disk, x))
  {
    var d', j := Commit(s, MadeBy(s, i, Last(path), mode, isDir, c)).disk, FreeSlot(Ents(s.disk, i), 0);
    var x := Resolve(s.disk, q).value;
    ResolveSound(s.disk, s.bits, own, q);
    MakeAdds(s, own, path, i, mode, isDir, c);
    EditedInode(s.disk, s.bits, d', own, i, j, NewEntry(Ents(s.disk, i)[j], Last(path), Allotted(s, isDir)[0]), x);
    Frames.SameNode(s.disk, s.bits, d', own, x);
  }

  /** create and mkdir, as seen through every path: the refusals in their order,
      and on success one new empty node, with all other paths as before. */
  lemma MakeEffect(s: State, own: Owners, path: Path, mode: u32, isDir: bool, c: Caller, q: Path)
    requires Sound(s.disk, s.bits, own) && path != [] && |path| <= MAX_PATH_LEN && RightKind(mode, isDir)
    ensures var p, above := MakePlan(s, path, mode, isDir, c), View(s.disk, Parent(path));
      var s' := Commit(s, p);
      if above.Err? then p == Fail(s, above.error)
      else if !above.value.DirNode? then p == Fail(s, ENOTDIR)
      else if View(s.disk, path).Ok? then p == Fail(s, EEXIST)
      else if DirFull(Ents(s.disk, Resolve(s.disk, Parent(path)).value))
          || FreeIn(s.bits, 0, |s.disk|) < MakeCount(isDir)
        then p == Fail(s, ENOSPC)
      else
        && p.result == Ok(0) && p.released == -(MakeCount(isDir) as int)
        && View(s'.disk, q) == if q == path then Ok(NewNode(mode, isDir, c))
                               else if path <= q then Err(if isDir then ENOENT else ENOTDIR)
                               else View(s.disk, q)
  {
    MakeDecision(s, own, path, mode, isDir, c);
    if MakePlan(s, path, mode, isDir, c).result.Ok? {
      MakeViews(s, own, path, Resolve(s.disk, Parent(path)).value, mode, isDir, c, q);
    }
  }

  lemma MakeNamed(s: State, own: Owners, path: Path, i: nat, mode: u32, isDir: bool, c: Caller, y: nat)
    requires Makeable(s, own, path, i, isDir) && RightKind(mode, isDir) && HasInode(NewRoles(s, own, i, isDir), y)
    ensures var d', own' := Commit(s, MadeBy(s, i, Last(path), mode, isDir, c)).disk, NewRoles(s, own, i, isDir);
      if y == Allotted(s, isDir)[0] then NamedBy(d', own', y)
      else HasInode(own, y) && (NamedBy(d', own', y) <==> NamedBy(s.disk, own, y))
  {
    var d0, s', own' := PlantedDisk(s, mode, isDir, c), Commit(s, MadeBy(s, i, Last(path), mode, isDir, c)),
        NewRoles(s, own, i, isDir);
    var j, x := FreeSlot(Ents(s.disk, i), 0), Allotted(s, isDir)[0];
    NewRolesAre(s, own, i, isDir);
    MakePlants(s, own, path, i, mode, isDir, c);
    MakeMarks(s, own, i, isDir);
    PlantSound(s.disk, s.bits, d0, s'.bits, own, own', i, j, x);
    MakeNamesPlanted(s, own, path, i, mode, isDir, c);
    EditedNamed(d0, s'.bits, s'.disk, own', i, j, NewEntry(Ents(s.disk, i)[j], Last(path), x), y);
    if y != x {
      PlantedNamed(s.disk, s.bits, d0, own, own', i, j, x, y);
    }
  }

  /** The new inode has its entry, and no other inode loses its own. */
  lemma MakeAttached(s: State, own: Owners, path: Path, i: nat, mode: u32, isDir: bool, c: Caller)
    requires Makeable(s, own, path, i, isDir) && RightKind(mode, isDir)
    ensures
      Attached(Commit(s, MadeBy(s, i, Last(path), mode, isDir, c)).disk, NewRoles(s, own, i, isDir)) <==>
      Attached(s.disk, own)
  {
    var d', own', x := Commit(s, MadeBy(s, i, Last(path), mode, isDir, c)).disk, NewRoles(s, own, i, isDir),
        Allotted(s, isDir)[0];
    NewRolesAre(s, own, i, isDir);
    AllottedFresh(s, own, i, isDir);
    forall y | HasInode(own', y)
      ensures y == x ==> NamedBy(d', own', y)
      ensures y != x ==> HasInode(own, y) && (NamedBy(d', own', y) <==> NamedBy(s.disk, own, y))
    {
      MakeNamed(s, own, path, i, mode, isDir, c, y);
    }
    forall y | HasInode(own, y)
      ensures HasInode(own', y)
    {
      assert Holds(own', y, own[y]);
    }
  }
}
