/** What unlink and rmdir do: the whole subtree at the path disappears, its top
    inode's blocks are freed, and blocks leak exactly when a non-empty directory
    is removed. */
module RemoveEffects {
  import opened Layout
  import opened Bitmap
  import opened Image
  import opened Ownership
  import opened Operations
  import opened Frames
  import FileEdits
  import FileEffects
  import opened DirEdits
  import DirEffects
  import MakeEffects

  /** Path leads to inode x, which slot j of directory i names. */
  ghost predicate Removable(s: State, own: Owners, path: Path, i: nat, j: nat, x: nat) {
    && Sound(s.disk, s.bits, own) && path != []
    && Resolve(s.disk, Parent(path)) == Ok(i) && HasInode(own, i) && IsDir(Ino(s.disk, i))
    && j < SLOTS && FindSlot(Ents(s.disk, i), Last(path), 0) == j
    && Ents(s.disk, i)[j].valid && NameOf(Ents(s.disk, i)[j]) == Last(path) && Ents(s.disk, i)[j].inode == x
    && Holds(own, x, Child(i, j, own[i].Depth() + 1)) && Resolve(s.disk, path) == Ok(x)
  }

  lemma FoundIsRemovable(s: State, own: Owners, path: Path)
    requires Sound(s.disk, s.bits, own) && path != [] && Resolve(s.disk, path).Ok?
    ensures Resolve(s.disk, Parent(path)).Ok?
    ensures var i := Resolve(s.disk, Parent(path)).value;
      Removable(s, own, path, i, FindSlot(Ents(s.disk, i), Last(path), 0), Resolve(s.disk, path).value)
  {
    ResolveParent(s.disk, s.bits, own, path);
    StepSound(s.disk, s.bits, own, Resolve(s.disk, Parent(path)).value, Last(path));
  }

  /** The blocks freed with inode x: all of its own and no other. */
  ghost predicate FreesAll(own: Owners, x: nat, freed: seq<nat>) {
    && Distinct(freed)
    && forall b :: b in freed <==> b in own && HomeOf(own, b) == x
  }

  ghost function Cleared(s: State, i: nat, j: nat, freed: seq<nat>): Plan
    requires j < SLOTS
  {
    var bits := Mark(s.bits, freed, false);
    Plan(Ok(0), [Write(Ino(s.disk, i).ptrs[0], DirBlock(Ents(s.disk, i)[j := Ents(s.disk, i)[j].(valid := false)])),
                 Write(BITMAP_LBA, BitmapBlock(bits))], bits, |freed|)
  }

  lemma RemovalIs(s: State, own: Owners, path: Path, i: nat, j: nat, x: nat, freed: seq<nat>)
    requires Removable(s, own, path, i, j, x)
    ensures RemovalPlan(s, path, freed) == Cleared(s, i, j, freed)
  {
    ViewOf(s.disk, s.bits, own, Parent(path));
    assert InodeOk(s.disk, own, i) && PlaceOk(s.disk, own, Ino(s.disk, i).ptrs[0]);
  }

  // ----------------------------------------------------------------- freed blocks

  lemma UnlinkFrees(s: State, own: Owners, x: nat)
    requires Sound(s.disk, s.bits, own) && HasInode(own, x)
    ensures FreesAll(own, x, Ino(s.disk, x).ptrs[..Extent(Ino(s.disk, x))] + [x])
  {
    var ino := Ino(s.disk, x);
    assert InodeOk(s.disk, own, x);
    if IsDir(ino) {
      assert ino.ptrs[..Extent(ino)] + [x] == [ino.ptrs[0], x];
      DirFrees(s, own, x, [ino.ptrs[0], x]);
    } else {
      FileFrees(s, own, x);
    }
  }

  lemma DirFrees(s: State, own: Owners, x: nat, freed: seq<nat>)
    requires Sound(s.disk, s.bits, own) && HasInode(own, x) && IsDir(Ino(s.disk, x))
    requires freed == [x, Ino(s.disk, x).ptrs[0]] || freed == [Ino(s.disk, x).ptrs[0], x]
    ensures FreesAll(own, x, freed)
  {
    assert InodeOk(s.disk, own, x);
    assert Holds(own, Ino(s.disk, x).ptrs[0], DirData(x));
    forall b | b in own && HomeOf(own, b) == x
      ensures b in freed
    {
      assert BlockOk(s.disk, own, b);
    }
  }

  lemma FileFrees(s: State, own: Owners, x: nat)
    requires Sound(s.disk, s.bits, own) && HasInode(own, x) && IsReg(Ino(s.disk, x))
    ensures FreesAll(own, x, Ino(s.disk, x).ptrs[..Extent(Ino(s.disk, x))] + [x])
  {
    var ino := Ino(s.disk, x);
    var data := ino.ptrs[0..Extent(ino)];
    assert ino.ptrs[..Extent(ino)] == data;
    FileEdits.PointersDistinct(s, own, x, 0);
    forall b: nat
      ensures b in data <==> DataOf(own, b, x)
      ensures b in own && HomeOf(own, b) == x ==> b == x || DataOf(own, b, x)
    {
      FileEdits.FreedBlocks(s, own, x, 0, b);
      if b in own {
        assert BlockOk(s.disk, own, b);
      }
    }
    DistinctSnoc(data, x);
  }

  lemma DistinctSnoc(s: seq<nat>, b: nat)
    requires Distinct(s) && b !in s
    ensures Distinct(s + [b])
  {
  }

  lemma RemovalMarks(s: State, own: Owners, x: nat, freed: seq<nat>)
    requires Sound(s.disk, s.bits, own) && HasInode(own, x) && FreesAll(own, x, freed)
    ensures Marked(Mark(s.bits, freed, false), Without(own, x))
    ensures Exact(s.disk, s.bits, own) ==> Exact(s.disk, Mark(s.bits, freed, false), Without(own, x))
  {
    forall b: nat | b < NBITS
      ensures Mark(s.bits, freed, false)[b] <==> s.bits[b] && !(b in own && HomeOf(own, b) == x)
      ensures b in own ==> b >= 2 && s.bits[b]
    {
      MarkAt(s.bits, freed, false, b);
      assert b in own ==> PlaceOk(s.disk, own, b);
    }
  }

  // --------------------------------------------------------------- the invariant

  lemma RemovalDisk(s: State, own: Owners, path: Path, i: nat, j: nat, x: nat, freed: seq<nat>)
    requires Removable(s, own, path, i, j, x)
    ensures DirEffects.NameRemoved(s.disk, Commit(s, Cleared(s, i, j, freed)).disk, own, i, j, path)
  {
    var ws, lba := Cleared(s, i, j, freed).writes, Ino(s.disk, i).ptrs[0];
    assert InodeOk(s.disk, own, i) && PlaceOk(s.disk, own, lba);
    MakeEffects.BitmapUnowned(s.disk, own);
    ApplyTwo(s.disk, ws[0], ws[1]);
    forall b | b in own
      ensures Blk(Commit(s, Cleared(s, i, j, freed)).disk, b) == if b == lba then ws[0].data else Blk(s.disk, b)
    {
      StoreAt(s.disk, ws[0], b);
      StoreAt(Store(s.disk, ws[0]), ws[1], b);
    }
  }

  /** Once its entry is invalid, nothing names x. */
  lemma RemovalUnnames(s: State, own: Owners, path: Path, i: nat, j: nat, x: nat, d': Disk)
    requires Removable(s, own, path, i, j, x) && DirEffects.NameRemoved(s.disk, d', own, i, j, path)
    ensures Sound(d', s.bits, own) && Unnamed(d', own, x)
  {
    var e := Ents(s.disk, i)[j].(valid := false);
    assert DirOk(own, i, Ents(s.disk, i));
    assert EntryOk(own, i, Ents(s.disk, i)[j], j);
    DirEffects.InvalidUnique(Ents(s.disk, i), j);
    SlotEditSound(s.disk, s.bits, d', own, i, j, e);
    EditedNamed(s.disk, s.bits, d', own, i, j, e, x);
  }

  /** After a removal the image is sound and exact, whatever was removed. */
  lemma RemovalSound(s: State, own: Owners, path: Path, i: nat, j: nat, x: nat, freed: seq<nat>)
    requires Removable(s, own, path, i, j, x) && FreesAll(own, x, freed)
    ensures var s' := Commit(s, Cleared(s, i, j, freed));
      && Sound(s'.disk, s'.bits, Without(own, x))
      && (Exact(s.disk, s.bits, own) ==> Exact(s'.disk, s'.bits, Without(own, x)))
  {
    var s' := Commit(s, Cleared(s, i, j, freed));
    RemovalDisk(s, own, path, i, j, x, freed);
    RemovalUnnames(s, own, path, i, j, x, s'.disk);
    RemovalMarks(s, own, x, freed);
    PruneSound(s'.disk, s.bits, s'.bits, own, x);
  }

  // --------------------------------------------------------------------- orphans

  ghost predicate DirEmpty(dir: Directory) {
    forall k :: 0 <= k < SLOTS ==> !dir[k].valid
  }

  /** Inode x is a file, or a directory without entries. */
  ghost predicate Childless(d: Disk, x: nat) {
    IsDir(Ino(d, x)) ==> DirEmpty(Ents(d, x))
  }

  lemma RemovalNamed(s: State, own: Owners, path: Path, i: nat, j: nat, x: nat, freed: seq<nat>, y: nat)
    requires Removable(s, own, path, i, j, x) && Attached(s.disk, own) && HasInode(own, y) && y != x
    ensures HasInode(Without(own, x), y)
    ensures NamedBy(Commit(s, Cleared(s, i, j, freed)).disk, Without(own, x), y) <==>
            !(own[y].Child? && own[y].dir == x)
  {
    var d' := Commit(s, Cleared(s, i, j, freed)).disk;
    RemovalDisk(s, own, path, i, j, x, freed);
    RemovalUnnames(s, own, path, i, j, x, d');
    assert NamedBy(s.disk, own, y);
    EditedNamed(s.disk, s.bits, d', own, i, j, Ents(s.disk, i)[j].(valid := false), y);
    PrunedNamed(d', s.bits, own, x, y);
  }

  /** A removal orphans inodes exactly when what it removes has entries. */
  lemma RemovalAttached(s: State, own: Owners, path: Path, i: nat, j: nat, x: nat, freed: seq<nat>)
    requires Removable(s, own, path, i, j, x) && Attached(s.disk, own)
    ensures Attached(Commit(s, Cleared(s, i, j, freed)).disk, Without(own, x)) <==> Childless(s.disk, x)
  {
    var d' := Commit(s, Cleared(s, i, j, freed)).disk;
    forall y | HasInode(own, y) && y != x
      ensures HasInode(Without(own, x), y)
      ensures NamedBy(d', Without(own, x), y) <==> !(own[y].Child? && own[y].dir == x)
    {
      RemovalNamed(s, own, path, i, j, x, freed, y);
    }
    if Childless(s.disk, x) {
      forall y | HasInode(Without(own, x), y)
        ensures NamedBy(d', Without(own, x), y)
      {
        assert HasInode(own, y) && NamedBy(s.disk, own, y);
      }
    } else {
      var k :| 0 <= k < SLOTS && Ents(s.disk, x)[k].valid;
      var y := ChildAt(s, own, x, k);
      assert HasInode(own, y) && !NamedBy(d', Without(own, x), y);
    }
  }

  /** The inode a valid entry of directory x names. */
  lemma ChildAt(s: State, own: Owners, x: nat, k: nat) returns (y: nat)
    requires Sound(s.disk, s.bits, own) && HasInode(own, x) && IsDir(Ino(s.disk, x))
    requires k < SLOTS && Ents(s.disk, x)[k].valid
    ensures HasInode(own, y) && own[y].Child? && own[y].dir == x && y != x
  {
    y := Ents(s.disk, x)[k].inode;
    assert DirOk(own, x, Ents(s.disk, x));
    assert EntryOk(own, x, Ents(s.disk, x)[k], k);
  }

  // ------------------------------------------------------------------- the views

  lemma RemovalViews(s: State, own: Owners, path: Path, i: nat, j: nat, x: nat, freed: seq<nat>, q: Path)
    requires Removable(s, own, path, i, j, x) && FreesAll(own, x, freed)
    ensures View(Commit(s, Cleared(s, i, j, freed)).disk, q) == if path <= q then Err(ENOENT) else View(s.disk, q)
    ensures Resolve(Commit(s, Cleared(s, i, j, freed)).disk, q) == if path <= q then Err(ENOENT) else Resolve(s.disk, q)
  {
    var s' := Commit(s, Cleared(s, i, j, freed));
    RemovalDisk(s, own, path, i, j, x, freed);
    RemovalSound(s, own, path, i, j, x, freed);
    assert DirOk(own, i, Ents(s.disk, i));
    DirEffects.RemoveResolve(s.disk, s.bits, s'.disk, own, i, j, path, q);
    ViewOf(s'.disk, s'.bits, Without(own, x), q);
    ViewOf(s.disk, s.bits, own, q);
    if !(path <= q) && Resolve(s.disk, q).Ok? {
      ResolveSound(s.disk, s.bits, own, q);
      var y := Resolve(s.disk, q).value;
      EditedInode(s.disk, s.bits, s'.disk, own, i, j, Ents(s.disk, i)[j].(valid := false), y);
      SameNode(s.disk, s.bits, s'.disk, own, y);
    }
  }

  /** The number of blocks an inode and its contents take. */
  function BlocksOf(n: Node): nat {
    match n
    case FileNode(_, c) => NBlocks(|c|) + 1
    case DirNode(_) => 2
    case BadNode => 0
  }

  lemma UnlinkCleared(s: State, own: Owners, path: Path, i: nat, j: nat, x: nat, freed: seq<nat>)
    requires Removable(s, own, path, i, j, x)
    requires freed == Ino(s.disk, x).ptrs[..Extent(Ino(s.disk, x))] + [x]
    ensures UnlinkPlan(s, path) == Cleared(s, i, j, freed)
  {
    ViewOf(s.disk, s.bits, own, path);
    RemovalIs(s, own, path, i, j, x, freed);
  }

  /** A successful unlink clears the entry and all blocks of its target. */
  lemma UnlinkIs(s: State, own: Owners, path: Path) returns (i: nat, j: nat, x: nat, freed: seq<nat>)
    requires Sound(s.disk, s.bits, own) && path != [] && Resolve(s.disk, path).Ok?
    ensures Removable(s, own, path, i, j, x) && FreesAll(own, x, freed) && |freed| == Extent(Ino(s.disk, x)) + 1
    ensures UnlinkPlan(s, path) == Cleared(s, i, j, freed)
  {
    FoundIsRemovable(s, own, path);
    i, x := Resolve(s.disk, Parent(path)).value, Resolve(s.disk, path).value;
    j, freed := FindSlot(Ents(s.disk, i), Last(path), 0), Ino(s.disk, x).ptrs[..Extent(Ino(s.disk, x))] + [x];
    UnlinkFrees(s, own, x);
    UnlinkCleared(s, own, path, i, j, x, freed);
  }

  lemma ExtentOf(s: State, own: Owners, x: nat)
    requires Sound(s.disk, s.bits, own) && HasInode(own, x)
    ensures Extent(Ino(s.disk, x)) + 1 == BlocksOf(NodeOf(s.disk, Ino(s.disk, x)))
  {
    assert InodeOk(s.disk, own, x);
  }

  /** unlink removes whatever the path names, file or directory: the path and
      everything below it is gone, every other path shows what it showed. */
  lemma UnlinkEffect(s: State, own: Owners, path: Path, q: Path)
    requires Sound(s.disk, s.bits, own) && path != []
    ensures var p, v := UnlinkPlan(s, path), View(s.disk, path);
      if v.Err? then p == Fail(s, v.error)
      else
        && p.result == Ok(0) && p.released == BlocksOf(v.value)
        && View(Commit(s, p).disk, q) == if path <= q then Err(ENOENT) else View(s.disk, q)
  {
    ViewOf(s.disk, s.bits, own, path);
    if Resolve(s.disk, path).Ok? {
      var i, j, x, freed := UnlinkIs(s, own, path);
      RemovalViews(s, own, path, i, j, x, freed, q);
      ExtentOf(s, own, x);
    }
  }

  /** What rmdir checks, on the directory the path names. */
  lemma RmdirChecks(s: State, own: Owners, path: Path, x: nat)
    requires Sound(s.disk, s.bits, own) && path != [] && Resolve(s.disk, path) == Ok(x) && IsDir(Ino(s.disk, x))
    ensures RmdirPlan(s, path) ==
            if FreeSlot(Ents(s.disk, x), 0) == SLOTS then Fail(s, ENOSPC)
            else if FreeSlot(Ents(s.disk, x), 0) != 0 then Fail(s, ENOTEMPTY)
            else RemovalPlan(s, path, [x, Ino(s.disk, x).ptrs[0]])
  {
    ViewOf(s.disk, s.bits, own, path);
    ResolveSound(s.disk, s.bits, own, path);
    assert InodeOk(s.disk, own, x) && PlaceOk(s.disk, own, Ino(s.disk, x).ptrs[0]);
  }

  /** A successful rmdir clears the entry and both blocks of its target. */
  lemma RmdirIs(s: State, own: Owners, path: Path) returns (i: nat, j: nat, x: nat, freed: seq<nat>)
    requires Sound(s.disk, s.bits, own) && path != [] && RmdirPlan(s, path).result.Ok?
    ensures Removable(s, own, path, i, j, x) && FreesAll(own, x, freed) && |freed| == 2
    ensures RmdirPlan(s, path) == Cleared(s, i, j, freed)
  {
    FileEffects.FileAt(s.disk, s.bits, own, path);
    FoundIsRemovable(s, own, path);
    i, x := Resolve(s.disk, Parent(path)).value, Resolve(s.disk, path).value;
    j, freed := FindSlot(Ents(s.disk, i), Last(path), 0), [x, Ino(s.disk, x).ptrs[0]];
    RmdirChecks(s, own, path, x);
    DirFrees(s, own, x, freed);
    RemovalIs(s, own, path, i, j, x, freed);
  }

  lemma RemovalGoesAhead(s: State, own: Owners, path: Path, freed: seq<nat>)
    requires Sound(s.disk, s.bits, own) && path != [] && Resolve(s.disk, path).Ok?
    ensures RemovalPlan(s, path, freed).result.Ok?
  {
    FoundIsRemovable(s, own, path);
    var i, x := Resolve(s.disk, Parent(path)).value, Resolve(s.disk, path).value;
    RemovalIs(s, own, path, i, FindSlot(Ents(s.disk, i), Last(path), 0), x, freed);
  }

  /** When rmdir refuses and with which error. */
  lemma RmdirDecision(s: State, own: Owners, path: Path)
    requires Sound(s.disk, s.bits, own) && path != []
    ensures var p, v := RmdirPlan(s, path), View(s.disk, path);
      if v.Err? then p == Fail(s, v.error)
      else if !v.value.DirNode? then p == Fail(s, ENOTDIR)
      else
        var dir := Ents(s.disk, Resolve(s.disk, path).value);
        if MakeEffects.DirFull(dir) then p == Fail(s, ENOSPC)
        else if dir[0].valid then p == Fail(s, ENOTEMPTY)
        else RmdirPlan(s, path).result.Ok?
  {
    FileEffects.FileAt(s.disk, s.bits, own, path);
    if View(s.disk, path).Ok? && View(s.disk, path).value.DirNode? {
      var x := Resolve(s.disk, path).value;
      RmdirChecks(s, own, path, x);
      RemovalGoesAhead(s, own, path, [x, Ino(s.disk, x).ptrs[0]]);
    }
  }

  /** rmdir looks only at slot 0: it goes ahead exactly when that slot is free,
      reports a full directory as ENOSPC and any other as ENOTEMPTY. */
  lemma RmdirEffect(s: State, own: Owners, path: Path, q: Path)
    requires Sound(s.disk, s.bits, own) && path != []
    ensures var p, v := RmdirPlan(s, path), View(s.disk, path);
      if v.Err? then p == Fail(s, v.error)
      else if !v.value.DirNode? then p == Fail(s, ENOTDIR)
      else
        var dir := Ents(s.disk, Resolve(s.disk, path).value);
        if MakeEffects.DirFull(dir) then p == Fail(s, ENOSPC)
        else if dir[0].valid then p == Fail(s, ENOTEMPTY)
        else
          && p.result == Ok(0) && p.released == 2
          && View(Commit(s, p).disk, q) == if path <= q then Err(ENOENT) else View(s.disk, q)
  {
    RmdirDecision(s, own, path);
    if RmdirPlan(s, path).result.Ok? {
      var i, j, x, freed := RmdirIs(s, own, path);
      RemovalViews(s, own, path, i, j, x, freed, q);
    }
  }
}
