/** Where paths lead after one directory slot is rewritten: a name added, a name
    removed, a name replaced. */
module DirEffects {
  import opened Layout
  import opened Bitmap
  import opened Image
  import opened Ownership
  import opened DirEdits

  // ------------------------------------------------------------- one component

  /** A lookup in the edited directory. */
  lemma EditedFind(dir: Directory, j: nat, e: Dirent, n: Name)
    requires UniqueNames(dir) && j < SLOTS && UniqueNames(dir[j := e])
    ensures e.valid && NameOf(e) == n ==> FindSlot(dir[j := e], n, 0) == j
    ensures !(e.valid && NameOf(e) == n) && dir[j].valid && NameOf(dir[j]) == n ==> FindSlot(dir[j := e], n, 0) == SLOTS
    ensures !(e.valid && NameOf(e) == n) && !(dir[j].valid && NameOf(dir[j]) == n) ==>
              FindSlot(dir[j := e], n, 0) == FindSlot(dir, n, 0) && FindSlot(dir, n, 0) != j
  {
    var dir' := dir[j := e];
    var k := FindSlot(dir, n, 0);
    if e.valid && NameOf(e) == n {
      FindSlotIs(dir', n, j);
    } else if dir[j].valid && NameOf(dir[j]) == n {
      FindSlotNone(dir', n);
    } else if k < SLOTS {
      FindSlotIs(dir', n, k);
    } else {
      FindSlotNone(dir', n);
    }
  }

  /** Looking a name up in a directory. */
  function Lookup(dir: Directory, n: Name): Result<nat> {
    var k := FindSlot(dir, n, 0);
    if k < SLOTS then Ok(dir[k].inode) else Err(ENOENT)
  }

  /** A lookup once slot j holds e. */
  function EditedLookup(dir: Directory, j: nat, e: Dirent, n: Name): Result<nat>
    requires j < SLOTS
  {
    if e.valid && NameOf(e) == n then Ok(e.inode)
    else if dir[j].valid && NameOf(dir[j]) == n then Err(ENOENT)
    else Lookup(dir, n)
  }

  lemma EditedLookupIs(dir: Directory, j: nat, e: Dirent, n: Name)
    requires UniqueNames(dir) && j < SLOTS && UniqueNames(dir[j := e])
    ensures Lookup(dir[j := e], n) == EditedLookup(dir, j, e, n)
  {
    EditedFind(dir, j, e, n);
  }

  /** A step whose blocks are all on the disk. */
  ghost function StepIn(d: Disk, x: nat, n: Name): Result<nat> {
    if !IsDir(Ino(d, x)) then Err(ENOTDIR) else Lookup(Ents(d, x), n)
  }

  /** One step of translation once slot j of directory i holds e. */
  ghost function EditedResult(d: Disk, i: nat, j: nat, e: Dirent, x: nat, n: Name): Result<nat>
    requires j < SLOTS
  {
    if x == i then EditedLookup(Ents(d, i), j, e, n) else StepIn(d, x, n)
  }

  lemma StepInIs(d: Disk, x: nat, n: Name, dir: Directory)
    requires IsDir(Ino(d, x)) && Ents(d, x) == dir
    ensures StepIn(d, x, n) == Lookup(dir, n)
  {
  }

  /** One step of translation after slot j of directory i was set to e. */
  lemma EditedStep(d: Disk, bits: Bits, d': Disk, own: Owners, i: nat, j: nat, e: Dirent, x: nat, n: Name)
    requires Sound(d, bits, own) && SlotEdited(d, d', own, i, j, e) && HasInode(own, x)
    requires UniqueNames(Ents(d, i)[j := e])
    ensures Step(d', x, n) == EditedResult(d, i, j, e, x, n) && Step(d, x, n) == StepIn(d, x, n)
  {
    StepOf(d, bits, own, x, n);
    EditedInode(d, bits, d', own, i, j, e, x);
    StepReads(d', x, n);
    if IsDir(Ino(d, x)) {
      assert DirOk(own, x, Ents(d, x));
      StepInIs(d, x, n, Ents(d, x));
      StepInIs(d', x, n, Ents(d', x));
      if x == i {
        EditedLookupIs(Ents(d, i), j, e, n);
      }
    }
  }

  lemma StepOf(d: Disk, bits: Bits, own: Owners, x: nat, n: Name)
    requires Sound(d, bits, own) && HasInode(own, x)
    ensures x < |d| && (IsDir(Ino(d, x)) ==> Ino(d, x).ptrs[0] < |d|)
    ensures Step(d, x, n) == StepIn(d, x, n)
  {
    assert InodeOk(d, own, x) && PlaceOk(d, own, x);
    if IsDir(Ino(d, x)) {
      assert PlaceOk(d, own, Ino(d, x).ptrs[0]);
    }
    StepReads(d, x, n);
  }

  lemma StepReads(d: Disk, x: nat, n: Name)
    ensures x < |d| && (IsDir(Ino(d, x)) ==> Ino(d, x).ptrs[0] < |d|) ==> Step(d, x, n) == StepIn(d, x, n)
  {
  }

  /** Two paths into the same directory differ in their last component. */
  lemma SameDirectory(d: Disk, bits: Bits, own: Owners, p: Path, q: Path)
    requires Sound(d, bits, own) && p != [] && q != []
    requires Resolve(d, Parent(p)).Ok? && Resolve(d, Parent(q)) == Resolve(d, Parent(p))
    ensures p == q <==> Last(p) == Last(q)
  {
    OnePath(d, bits, own, Parent(p), Parent(q));
    if Last(p) == Last(q) {
      SamePath(p, q);
    }
  }

  lemma PrefixStep(p: Path, q: Path)
    requires q != []
    ensures p <= q <==> p == q || p <= Parent(q)
  {
  }

  // ------------------------------------------------------------- a name is added

  /** Slot j of directory i, free before, now names x as the last component of path. */
  ghost predicate NameAdded(d: Disk, d': Disk, own: Owners, i: nat, j: nat, e: Dirent, path: Path) {
    && SlotEdited(d, d', own, i, j, e) && UniqueNames(Ents(d, i)[j := e])
    && path != [] && Resolve(d, Parent(path)) == Ok(i)
    && e.valid && NameOf(e) == Last(path) && !Ents(d, i)[j].valid
  }

  /** The added path leads to the new inode; paths not below it lead where they led. */
  lemma {:induction false} AddAside(d: Disk, bits: Bits, d': Disk, own: Owners, i: nat, j: nat, e: Dirent,
          path: Path, q: Path)
    requires Sound(d, bits, own) && NameAdded(d, d', own, i, j, e, path)
    requires path <= q ==> q == path
    ensures Resolve(d', q) == if q == path then Ok(e.inode as nat) else Resolve(d, q)
    decreases |q|
  {
    if q != [] {
      PrefixStep(path, q);
      AddAside(d, bits, d', own, i, j, e, path, Parent(q));
      if Resolve(d, Parent(q)).Ok? {
        ResolveSound(d, bits, own, Parent(q));
        var x := Resolve(d, Parent(q)).value;
        EditedStep(d, bits, d', own, i, j, e, x, Last(q));
        if x == i {
          SameDirectory(d, bits, own, path, q);
        }
      }
    }
  }

  /** If, besides, nothing can be found in the new inode, paths below it fail. */
  lemma {:induction false} AddResolve(d: Disk, bits: Bits, d': Disk, own: Owners, i: nat, j: nat, e: Dirent,
          path: Path, code: Errno, q: Path)
    requires Sound(d, bits, own) && NameAdded(d, d', own, i, j, e, path)
    requires forall n: Name :: Step(d', e.inode, n) == Err(code)
    ensures Resolve(d', q) == if q == path then Ok(e.inode as nat) else if path <= q then Err(code) else Resolve(d, q)
    decreases |q|
  {
    if path <= q && q != path {
      PrefixStep(path, q);
      AddResolve(d, bits, d', own, i, j, e, path, code, Parent(q));
    } else {
      AddAside(d, bits, d', own, i, j, e, path, q);
    }
  }

  // ----------------------------------------------------------- a name is removed

  /** Slot j of directory i, which held the last component of path, is now invalid. */
  ghost predicate NameRemoved(d: Disk, d': Disk, own: Owners, i: nat, j: nat, path: Path) {
    && path != [] && Resolve(d, Parent(path)) == Ok(i) && HasInode(own, i) && j < SLOTS
    && Ents(d, i)[j].valid && NameOf(Ents(d, i)[j]) == Last(path)
    && SlotEdited(d, d', own, i, j, Ents(d, i)[j].(valid := false))
  }

  lemma InvalidUnique(dir: Directory, j: nat)
    requires UniqueNames(dir) && j < SLOTS
    ensures UniqueNames(dir[j := dir[j].(valid := false)])
  {
  }

  /** The removed path and everything below it is gone; every other path leads
      where it led. */
  lemma {:induction false} RemoveResolve(d: Disk, bits: Bits, d': Disk, own: Owners, i: nat, j: nat, path: Path,
          q: Path)
    requires Sound(d, bits, own) && NameRemoved(d, d', own, i, j, path) && UniqueNames(Ents(d, i))
    ensures Resolve(d', q) == if path <= q then Err(ENOENT) else Resolve(d, q)
    decreases |q|
  {
    if q != [] {
      RemoveResolve(d, bits, d', own, i, j, path, Parent(q));
      PrefixStep(path, q);
      InvalidUnique(Ents(d, i), j);
      if Resolve(d, Parent(q)).Ok? && !(path <= Parent(q)) {
        ResolveSound(d, bits, own, Parent(q));
        var x := Resolve(d, Parent(q)).value;
        EditedStep(d, bits, d', own, i, j, Ents(d, i)[j].(valid := false), x, Last(q));
        if x == i {
          SameDirectory(d, bits, own, path, q);
        }
      }
    }
  }

  // ---------------------------------------------------------- a name is replaced

  /** Slot j of directory i held the last component of src and now holds that of dst. */
  ghost predicate NameReplaced(d: Disk, d': Disk, own: Owners, i: nat, j: nat, e: Dirent, src: Path, dst: Path) {
    && SlotEdited(d, d', own, i, j, e) && UniqueNames(Ents(d, i)[j := e]) && UniqueNames(Ents(d, i))
    && src != [] && dst != [] && Parent(src) == Parent(dst) && Last(src) != Last(dst)
    && Resolve(d, Parent(src)) == Ok(i)
    && Ents(d, i)[j].valid && NameOf(Ents(d, i)[j]) == Last(src)
    && e.valid && NameOf(e) == Last(dst) && e.inode == Ents(d, i)[j].inode
  }

  /** q with its prefix dst replaced by src */
  function Rebased(q: Path, dst: Path, src: Path): Path
    requires dst <= q
  {
    src + q[|dst|..]
  }

  lemma RebasedSnoc(q: Path, dst: Path, src: Path)
    requires q != [] && dst <= Parent(q) && src != []
    ensures dst <= q && Rebased(q, dst, src) != []
    ensures Parent(Rebased(q, dst, src)) == Rebased(Parent(q), dst, src) && Last(Rebased(q, dst, src)) == Last(q)
  {
    assert q[|dst|..] == Parent(q)[|dst|..] + [Last(q)];
  }

  /** The subtree moved as a whole: a path below dst leads where its counterpart
      below src led, paths below src are gone, every other path is unaffected. */
  lemma {:induction false} ReplaceResolve(d: Disk, bits: Bits, d': Disk, own: Owners, i: nat, j: nat, e: Dirent,
          src: Path, dst: Path, q: Path)
    requires Sound(d, bits, own) && NameReplaced(d, d', own, i, j, e, src, dst)
    ensures Resolve(d', q) == if dst <= q then Resolve(d, Rebased(q, dst, src))
                              else if src <= q then Err(ENOENT) else Resolve(d, q)
    decreases |q|
  {
    if q != [] {
      ReplaceResolve(d, bits, d', own, i, j, e, src, dst, Parent(q));
      PrefixStep(src, q);
      PrefixStep(dst, q);
      if q == dst {
        ReplacedTop(d, bits, d', own, i, j, e, src, dst);
      } else if dst <= q {
        RebasedSnoc(q, dst, src);
        BelowMoved(d, bits, d', own, i, j, e, src, dst, Rebased(Parent(q), dst, src), Last(q));
      } else if !(src <= Parent(q)) && Resolve(d, Parent(q)).Ok? {
        AsideReplaced(d, bits, d', own, i, j, e, src, dst, q);
      }
    }
  }

  /** The last step of a path outside the moved subtree. */
  lemma AsideReplaced(d: Disk, bits: Bits, d': Disk, own: Owners, i: nat, j: nat, e: Dirent, src: Path, dst: Path,
          q: Path)
    requires Sound(d, bits, own) && NameReplaced(d, d', own, i, j, e, src, dst)
    requires q != [] && q != dst && Resolve(d, Parent(q)).Ok?
    ensures Step(d', Resolve(d, Parent(q)).value, Last(q)) == if q == src then Err(ENOENT) else Resolve(d, q)
  {
    ResolveSound(d, bits, own, Parent(q));
    var x := Resolve(d, Parent(q)).value;
    EditedStep(d, bits, d', own, i, j, e, x, Last(q));
    if x == i {
      SameDirectory(d, bits, own, src, q);
      SameDirectory(d, bits, own, dst, q);
    }
  }

  /** dst itself now leads to what src named. */
  lemma ReplacedTop(d: Disk, bits: Bits, d': Disk, own: Owners, i: nat, j: nat, e: Dirent, src: Path, dst: Path)
    requires Sound(d, bits, own) && NameReplaced(d, d', own, i, j, e, src, dst)
    requires Resolve(d', Parent(dst)) == Resolve(d, Parent(dst))
    ensures Resolve(d', dst) == Resolve(d, Rebased(dst, dst, src))
  {
    ResolveSound(d, bits, own, Parent(src));
    EditedStep(d, bits, d', own, i, j, e, i, Last(dst));
    StepOf(d, bits, own, i, Last(src));
    FindSlotIs(Ents(d, i), Last(src), j);
    assert Rebased(dst, dst, src) == src;
  }

  /** Below the moved entry nothing changed: the renamed directory is not there. */
  lemma BelowMoved(d: Disk, bits: Bits, d': Disk, own: Owners, i: nat, j: nat, e: Dirent, src: Path, dst: Path,
          r: Path, n: Name)
    requires Sound(d, bits, own) && NameReplaced(d, d', own, i, j, e, src, dst) && src <= r
    ensures Resolve(d, r).Ok? ==> Step(d', Resolve(d, r).value, n) == Step(d, Resolve(d, r).value, n)
  {
    if Resolve(d, r).Ok? {
      ResolveSound(d, bits, own, r);
      ResolveSound(d, bits, own, Parent(src));
      EditedStep(d, bits, d', own, i, j, e, Resolve(d, r).value, n);
    }
  }
}
