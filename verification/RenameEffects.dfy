/** What rename does: one slot gets a new name, and with it a whole subtree moves. */
module RenameEffects {
  import opened Layout
  import opened Image
  import opened Ownership
  import opened Operations
  import opened Frames
  import FileEffects
  import DirEdits
  import DirEffects
  import MakeEffects

  /** rename of src to dst is past its checks; slot j of directory i names src. */
  ghost predicate Renamable(s: State, own: Owners, src: Path, dst: Path, i: nat, j: nat) {
    && Sound(s.disk, s.bits, own) && src != [] && dst != [] && Parent(src) == Parent(dst) && Last(src) != Last(dst)
    && Resolve(s.disk, Parent(src)) == Ok(i) && HasInode(own, i) && IsDir(Ino(s.disk, i))
    && j < SLOTS && FindSlot(Ents(s.disk, i), Last(src), 0) == j
    && FindSlot(Ents(s.disk, i), Last(dst), 0) == SLOTS
  }

  ghost function RenamedBy(s: State, i: nat, j: nat, name: Name): Plan
    requires j < SLOTS
  {
    Plan(Ok(0), [Write(Ino(s.disk, i).ptrs[0], DirBlock(Ents(s.disk, i)[j := Renamed(Ents(s.disk, i)[j], name)]))],
        s.bits, 0)
  }

  lemma RenamedEntry(e: Dirent, name: Name)
    ensures var r := Renamed(e, name);
      r.valid == e.valid && r.inode == e.inode && NameOf(r) == name && r.name[NAME_MAX] == 0
  {
    StrnCpyName(seq(28, _ => 0), name);
  }

  /** Which error rename reports, in what order, and when it goes ahead. */
  lemma RenameDecision(s: State, own: Owners, src: Path, dst: Path)
    requires Sound(s.disk, s.bits, own)
    ensures var p := RenamePlan(s, src, dst);
      if View(s.disk, src).Err? then p == Fail(s, View(s.disk, src).error)
      else if View(s.disk, dst).Ok? then p == Fail(s, EEXIST)
      else if |dst| != |src| || Parent(src) != Parent(dst) then p == Fail(s, EINVAL)
      else
        && Resolve(s.disk, Parent(src)).Ok?
        && var i := Resolve(s.disk, Parent(src)).value;
           var j := FindSlot(Ents(s.disk, i), Last(src), 0);
           Renamable(s, own, src, dst, i, j) && p == RenamedBy(s, i, j, Last(dst))
  {
    FileEffects.FileAt(s.disk, s.bits, own, src);
    FileEffects.FileAt(s.disk, s.bits, own, dst);
    if View(s.disk, src).Ok? && View(s.disk, dst).Err? && |dst| == |src| && Parent(src) == Parent(dst) {
      RenameGoes(s, own, src, dst);
    }
  }

  lemma RenameGoes(s: State, own: Owners, src: Path, dst: Path)
    requires Sound(s.disk, s.bits, own) && Resolve(s.disk, src).Ok? && Resolve(s.disk, dst).Err?
    requires |dst| == |src| && Parent(src) == Parent(dst)
    ensures Resolve(s.disk, Parent(src)).Ok?
    ensures var i := Resolve(s.disk, Parent(src)).value;
      var j := FindSlot(Ents(s.disk, i), Last(src), 0);
      Renamable(s, own, src, dst, i, j) && RenamePlan(s, src, dst) == RenamedBy(s, i, j, Last(dst))
  {
    ResolveSound(s.disk, s.bits, own, dst);
    ResolveParent(s.disk, s.bits, own, src);
    var i := Resolve(s.disk, Parent(src)).value;
    StepSound(s.disk, s.bits, own, i, Last(src));
    MakeEffects.NameFound(s.disk, s.bits, own, src);
    MakeEffects.NameFound(s.disk, s.bits, own, dst);
    ViewOf(s.disk, s.bits, own, src);
    ViewOf(s.disk, s.bits, own, dst);
    ViewOf(s.disk, s.bits, own, Parent(src));
  }

  lemma RenameReplaces(s: State, own: Owners, src: Path, dst: Path, i: nat, j: nat)
    requires Renamable(s, own, src, dst, i, j)
    ensures var e := Renamed(Ents(s.disk, i)[j], Last(dst));
      && DirEffects.NameReplaced(s.disk, Commit(s, RenamedBy(s, i, j, Last(dst))).disk, own, i, j, e, src, dst)
      && EntryOk(own, i, e, j)
  {
    var ws, dir := RenamedBy(s, i, j, Last(dst)).writes, Ents(s.disk, i);
    assert InodeOk(s.disk, own, i) && PlaceOk(s.disk, own, Ino(s.disk, i).ptrs[0]);
    assert DirOk(own, i, dir);
    assert EntryOk(own, i, dir[j], j);
    RenamedEntry(dir[j], Last(dst));
    MakeEffects.NewNameUnique(dir, j, Renamed(dir[j], Last(dst)));
    ApplyOne(s.disk, ws[0]);
    forall b: nat
      ensures Blk(Commit(s, RenamedBy(s, i, j, Last(dst))).disk, b) ==
              if b == Ino(s.disk, i).ptrs[0] then ws[0].data else Blk(s.disk, b)
    {
      StoreAt(s.disk, ws[0], b);
    }
  }

  /** A rename keeps the image sound, with the same owners, and orphans nothing. */
  lemma RenameSound(s: State, own: Owners, src: Path, dst: Path, i: nat, j: nat)
    requires Renamable(s, own, src, dst, i, j)
    ensures Sound(Commit(s, RenamedBy(s, i, j, Last(dst))).disk, s.bits, own)
  {
    RenameReplaces(s, own, src, dst, i, j);
    DirEdits.SlotEditSound(s.disk, s.bits, Commit(s, RenamedBy(s, i, j, Last(dst))).disk, own, i, j,
        Renamed(Ents(s.disk, i)[j], Last(dst)));
  }

  lemma RenameAttached(s: State, own: Owners, src: Path, dst: Path, i: nat, j: nat)
    requires Renamable(s, own, src, dst, i, j)
    ensures Attached(Commit(s, RenamedBy(s, i, j, Last(dst))).disk, own) <==> Attached(s.disk, own)
  {
    var d', e := Commit(s, RenamedBy(s, i, j, Last(dst))).disk, Renamed(Ents(s.disk, i)[j], Last(dst));
    RenameReplaces(s, own, src, dst, i, j);
    RenamedEntry(Ents(s.disk, i)[j], Last(dst));
    forall y | HasInode(own, y)
      ensures NamedBy(d', own, y) <==> NamedBy(s.disk, own, y)
    {
      DirEdits.EditedNamed(s.disk, s.bits, d', own, i, j, e, y);
      if own[y].Child? && own[y].dir == i && own[y].slot == j {
        DirEdits.NamedIs(s.disk, own, y, Ents(s.disk, i));
      }
    }
  }

  /** What q shows after the rename of src to dst. */
  ghost function Moved(d: Disk, src: Path, dst: Path, q: Path): Result<Node> {
    if dst <= q then View(d, DirEffects.Rebased(q, dst, src))
    else if src <= q then Err(ENOENT)
    else View(d, q)
  }

  lemma RenameViews(s: State, own: Owners, src: Path, dst: Path, i: nat, j: nat, q: Path)
    requires Renamable(s, own, src, dst, i, j)
    ensures View(Commit(s, RenamedBy(s, i, j, Last(dst))).disk, q) == Moved(s.disk, src, dst, q)
  {
    var d', e := Commit(s, RenamedBy(s, i, j, Last(dst))).disk, Renamed(Ents(s.disk, i)[j], Last(dst));
    var q0 := if dst <= q then DirEffects.Rebased(q, dst, src) else q;
    RenameReplaces(s, own, src, dst, i, j);
    RenameSound(s, own, src, dst, i, j);
    DirEffects.ReplaceResolve(s.disk, s.bits, d', own, i, j, e, src, dst, q);
    ViewOf(d', s.bits, own, q);
    ViewOf(s.disk, s.bits, own, q0);
    if Resolve(d', q).Ok? {
      ResolveSound(s.disk, s.bits, own, q0);
      var y := Resolve(s.disk, q0).value;
      DirEdits.EditedInode(s.disk, s.bits, d', own, i, j, e, y);
      SameNode(s.disk, s.bits, d', own, y);
    }
  }

  /** rename: refusals in their order; on success every path under dst shows what
      its counterpart under src showed, every path under src is gone, and every
      other path shows what it showed. */
  lemma RenameEffect(s: State, own: Owners, src: Path, dst: Path, q: Path)
    requires Sound(s.disk, s.bits, own)
    ensures var p := RenamePlan(s, src, dst);
      if View(s.disk, src).Err? then p == Fail(s, View(s.disk, src).error)
      else if View(s.disk, dst).Ok? then p == Fail(s, EEXIST)
      else if |dst| != |src| || Parent(src) != Parent(dst) then p == Fail(s, EINVAL)
      else
        && p.result == Ok(0) && p.released == 0 && p.bits == s.bits
        && View(Commit(s, p).disk, q) == Moved(s.disk, src, dst, q)
  {
    RenameDecision(s, own, src, dst);
    if RenamePlan(s, src, dst).result.Ok? {
      var i := Resolve(s.disk, Parent(src)).value;
      RenameViews(s, own, src, dst, i, FindSlot(Ents(s.disk, i), Last(src), 0), q);
    }
  }
}
