/** What one call undoes of another: mkdir by rmdir, and create by unlink even
    after the file has been written and truncated in between. */
module Undo {
  import opened Layout
  import opened Bitmap
  import opened Image
  import opened Ownership
  import opened Operations
  import Frames
  import opened FileEdits
  import opened FileEffects
  import WriteEffects
  import opened DirEdits
  import DirEffects
  import opened MakeEffects
  import opened RemoveEffects
  import opened Runs

  /** Below a path that fails to resolve, every path fails in the same way. */
  lemma {:induction false} FailsBelow(d: Disk, p: Path, q: Path)
    requires p <= q && Resolve(d, p).Err?
    ensures Resolve(d, q) == Resolve(d, p)
    decreases |q|
  {
    if q != p {
      DirEffects.PrefixStep(p, q);
      FailsBelow(d, p, Parent(q));
    }
  }

  /** Before a create or mkdir succeeds, its path and all below it are missing. */
  lemma MissingBelow(s: State, own: Owners, path: Path, i: nat, isDir: bool, q: Path)
    requires Makeable(s, own, path, i, isDir) && path <= q
    ensures View(s.disk, q) == Err(ENOENT)
  {
    NameFound(s.disk, s.bits, own, path);
    FailsBelow(s.disk, path, q);
    Frames.ViewOf(s.disk, s.bits, own, q);
  }

  lemma RestoredBits(bits: Bits, got: seq<nat>, freed: seq<nat>)
    requires forall b :: b in got <==> b in freed
    requires forall b :: b in got ==> b < NBITS && !bits[b]
    ensures Mark(Mark(bits, got, true), freed, false) == bits
  {
    forall b | 0 <= b < NBITS
      ensures Mark(Mark(bits, got, true), freed, false)[b] == bits[b]
    {
      MarkAt(bits, got, true, b);
      MarkAt(Mark(bits, got, true), freed, false, b);
    }
  }

  // ---------------------------------------------------------------- mkdir, rmdir

  /** The blocks rmdir frees are the ones mkdir took. */
  lemma FreedAreTaken(s: State, own: Owners, i: nat, freed: seq<nat>)
    requires Sound(s.disk, s.bits, own) && HasInode(own, i) && IsDir(Ino(s.disk, i))
    requires FreeSlot(Ents(s.disk, i), 0) < SLOTS && |Allotted(s, true)| == 2
    requires FreesAll(NewRoles(s, own, i, true), Allotted(s, true)[0], freed)
    ensures forall b :: b in Allotted(s, true) <==> b in freed
    ensures forall b :: b in Allotted(s, true) ==> b < NBITS && !s.bits[b]
  {
    var got, own' := Allotted(s, true), NewRoles(s, own, i, true);
    AllottedFresh(s, own, i, true);
    NewRolesAre(s, own, i, true);
    forall b | b in own
      ensures HomeOf(own', b) != got[0]
    {
      assert BlockOk(s.disk, own, b) && own'[b] == own[b];
    }
  }

  lemma NewDirRemovable(s: State, own: Owners, path: Path, i: nat, mode: u32, c: Caller)
    requires Good(s, own) && Makeable(s, own, path, i, true) && RightKind(mode, true)
    ensures var s1, own1 := Commit(s, MadeBy(s, i, Last(path), mode, true, c)), NewRoles(s, own, i, true);
      && Good(s1, own1) && Resolve(s1.disk, path) == Ok(Allotted(s, true)[0]) && RmdirPlan(s1, path).result.Ok?
  {
    var s1, x := Commit(s, MadeBy(s, i, Last(path), mode, true, c)), Allotted(s, true)[0];
    MakeSound(s, own, path, i, mode, true, c);
    AllottedFresh(s, own, i, true);
    MadeDisk(s, own, path, i, mode, true, c, BITMAP_LBA);
    MakeViews(s, own, path, i, mode, true, c, path);
    MakeResolve(s, own, path, i, mode, true, c, path);
    NewIsEmpty(s, own, path, i, mode, true, c, Last(path));
    MadeDisk(s, own, path, i, mode, true, c, Allotted(s, true)[1]);
    NewInodeKind(mode, Allotted(s, true)[1], c);
    EmptyDirectory(0);
    RmdirDecision(s1, NewRoles(s, own, i, true), path);
  }

  /** The blocks and counters after mkdir, then rmdir. */
  lemma RmdirFreesMade(s: State, own: Owners, path: Path, i: nat, mode: u32, c: Caller, s1: State)
    requires Good(s, own) && Makeable(s, own, path, i, true) && RightKind(mode, true)
    requires s1 == Commit(s, MadeBy(s, i, Last(path), mode, true, c))
    ensures var p := RmdirPlan(s1, path);
      && p.result == Ok(0) && p.bits == s.bits
      && p.released == -MadeBy(s, i, Last(path), mode, true, c).released
  {
    var own1 := NewRoles(s, own, i, true);
    NewDirRemovable(s, own, path, i, mode, c);
    var i1, j1, x, freed := RmdirIs(s1, own1, path);
    FreedAreTaken(s, own, i, freed);
    RestoredBits(s.bits, Allotted(s, true), freed);
  }

  /** What every path shows after mkdir, then rmdir. */
  lemma RmdirRestoresViews(s: State, own: Owners, path: Path, i: nat, mode: u32, c: Caller, s1: State, q: Path)
    requires Good(s, own) && Makeable(s, own, path, i, true) && RightKind(mode, true)
    requires s1 == Commit(s, MadeBy(s, i, Last(path), mode, true, c))
    ensures View(Commit(s1, RmdirPlan(s1, path)).disk, q) == View(s.disk, q)
  {
    NewDirRemovable(s, own, path, i, mode, c);
    RmdirViews(s1, NewRoles(s, own, i, true), path, q);
    MakeViews(s, own, path, i, mode, true, c, q);
    if path <= q {
      MissingBelow(s, own, path, i, true, q);
    }
  }

  lemma RmdirViews(s: State, own: Owners, path: Path, q: Path)
    requires Good(s, own) && path != [] && RmdirPlan(s, path).result.Ok?
    ensures View(Commit(s, RmdirPlan(s, path)).disk, q) == if path <= q then Err(ENOENT) else View(s.disk, q)
  {
    var i, j, x, freed := RmdirIs(s, own, path);
    RemovalViews(s, own, path, i, j, x, freed, q);
  }

  /** The state s1 after mkdir, and rmdir there. */
  lemma RmdirUndoes(s: State, own: Owners, path: Path, i: nat, mode: u32, c: Caller, s1: State, q: Path)
    requires Good(s, own) && Makeable(s, own, path, i, true) && RightKind(mode, true)
    requires s1 == Commit(s, MadeBy(s, i, Last(path), mode, true, c))
    ensures RmdirPlan(s1, path).result == Ok(0)
    ensures var s2 := Commit(s1, RmdirPlan(s1, path));
      && s2.bits == s.bits && s2.bfree == s.bfree && s2.bavail == s.bavail
      && View(s2.disk, q) == View(s.disk, q)
  {
    RmdirFreesMade(s, own, path, i, mode, c, s1);
    RmdirRestoresViews(s, own, path, i, mode, c, s1, q);
  }

  /** rmdir right after mkdir succeeds and restores the bitmap bit for bit, the
      counters, and what every path shows. */
  lemma MkdirThenRmdir(s: State, own: Owners, path: Path, perm: u32, c: Caller, q: Path)
    requires Good(s, own) && 0 < |path| <= MAX_PATH_LEN && ForDirectory(perm)
    requires MakePlan(s, path, DirMode(perm), true, c).result.Ok?
    ensures var s1 := Commit(s, MakePlan(s, path, DirMode(perm), true, c));
      var s2 := Commit(s1, RmdirPlan(s1, path));
      && RmdirPlan(s1, path).result == Ok(0)
      && s2.bits == s.bits && s2.bfree == s.bfree && s2.bavail == s.bavail
      && View(s2.disk, q) == View(s.disk, q)
  {
    var mode := DirMode(perm);
    MakeKeeps(s, own, path, mode, true, c);
    RmdirUndoes(s, own, path, Target(s, Parent(path)), mode, c, Commit(s, MakePlan(s, path, mode, true, c)), q);
  }

  // --------------------------------------------------- create, any edits, unlink

  /** Writes and truncates of one file. */
  ghost predicate EditsOf(path: Path, ops: seq<Op>) {
    forall k :: 0 <= k < |ops| ==> (ops[k].WriteAt? || ops[k].Truncate?) && ops[k].path == path
  }

  /** Editing file x at a path: its own blocks aside, everything is as in s0. */
  ghost predicate Editing(s0: State, own0: Owners, s: State, own: Owners, path: Path, x: nat) {
    && Good(s, own) && HasInode(own, x) && Without(own, x) == own0
    && |s.disk| == |s0.disk| && Resolve(s.disk, path) == Ok(x)
    && forall b :: |s.disk| <= b < NBITS ==> s.bits[b] == s0.bits[b]
  }

  lemma DroppedWithout(own: Owners, x: nat, n: nat)
    requires HasInode(own, x)
    ensures Without(Dropped(own, x, n), x) == Without(own, x) && HasInode(Dropped(own, x, n), x)
  {
  }

  lemma ExtendedWithout(own: Owners, own': Owners, x: nat, got: seq<nat>)
    requires HasInode(own, x) && forall b :: b in own ==> Holds(own', b, own[b])
    requires forall b :: b in own' ==> b in own || Frames.DataOf(own', b, x)
    ensures Without(own', x) == Without(own, x) && HasInode(own', x)
  {
    assert Holds(own', x, own[x]);
    forall b | b in own
      ensures HomeOf(own', b) == HomeOf(own, b)
    {
      assert Holds(own', b, own[b]);
    }
  }

  lemma BitsBeyond(bits: Bits, list: seq<nat>, flag: bool, n: nat)
    requires forall b :: b in list ==> b < n
    ensures forall b :: n <= b < NBITS ==> Mark(bits, list, flag)[b] == bits[b]
  {
    forall b: nat | n <= b < NBITS
      ensures Mark(bits, list, flag)[b] == bits[b]
    {
      MarkAt(bits, list, flag, b);
    }
  }

  lemma TruncateEdits(s0: State, own0: Owners, s: State, own: Owners, path: Path, x: nat, len: int, q: Path)
    requires Editing(s0, own0, s, own, path, x) && TruncatePlan(s, path, len).result.Ok?
    ensures len >= 0 && Editing(s0, own0, Commit(s, TruncatePlan(s, path, len)), Dropped(own, x, NBlocks(len)), path, x)
    ensures q != path ==> View(Commit(s, TruncatePlan(s, path, len)).disk, q) == View(s.disk, q)
  {
    FileAt(s.disk, s.bits, own, path);
    TruncateKeeps(s, own, path, len);
    DroppedWithout(own, x, NBlocks(len));
    TruncateViews(s, own, path, len, path);
    TruncateViews(s, own, path, len, q);
    TruncateFreesOnDisk(s, own, x, NBlocks(len));
  }

  /** What truncate frees lies on the disk. */
  lemma TruncateFreesOnDisk(s: State, own: Owners, x: nat, n: nat)
    requires Sound(s.disk, s.bits, own) && HasInode(own, x) && IsReg(Ino(s.disk, x)) && n <= Extent(Ino(s.disk, x))
    ensures var freed := Ino(s.disk, x).ptrs[n..Extent(Ino(s.disk, x))];
      forall b :: |s.disk| <= b < NBITS ==> Mark(s.bits, freed, false)[b] == s.bits[b]
  {
    var freed := Ino(s.disk, x).ptrs[n..Extent(Ino(s.disk, x))];
    forall b | b in freed
      ensures b < |s.disk|
    {
      FreedBlocks(s, own, x, n, b);
      OwnedAboveBitmap(s.disk, s.bits, own, b);
    }
    BitsBeyond(s.bits, freed, false, |s.disk|);
  }

  lemma WriteEdits(s0: State, own0: Owners, s: State, own: Owners, path: Path, x: nat, buf: seq<byte>, off: nat,
          now: u32, q: Path)
    requires Editing(s0, own0, s, own, path, x)
    requires WriteDefined(s, path, off, |buf|) && WritePlan(s, path, buf, off, now).result.Ok?
    ensures Editing(s0, own0, Commit(s, WritePlan(s, path, buf, off, now)), WriteOwn(s, own, x, off, |buf|), path, x)
    ensures q != path ==> View(Commit(s, WritePlan(s, path, buf, off, now)).disk, q) == View(s.disk, q)
  {
    WriteEffects.WriteDecision(s, own, path, buf, off, now);
    WriteKeeps(s, own, path, buf, off, now);
    WriteEffects.WriteViews(s, own, path, buf, off, now, path);
    WriteEffects.WriteViews(s, own, path, buf, off, now, q);
    WrittenWithout(s, own, x, off, |buf|);
    LowestBelow(s, Needed(Ino(s.disk, x), off, |buf|));
    BitsBeyond(s.bits, Extra(s, x, off, |buf|), true, |s.disk|);
  }

  lemma LowestBelow(s: State, n: nat)
    ensures forall b :: b in LowestFree(s.bits, 0, |s.disk|, n) ==> b < |s.disk|
  {
  }

  lemma WrittenWithout(s: State, own: Owners, x: nat, off: nat, n: nat)
    requires Writable(s, own, x, off, n)
    ensures Without(WriteOwn(s, own, x, off, n), x) == Without(own, x) && HasInode(WriteOwn(s, own, x, off, n), x)
  {
    var own', got := WriteOwn(s, own, x, off, n), Extra(s, x, off, n);
    ExtendedRoles(s, own, x, off, n);
    forall b | b in own'
      ensures b in own || Frames.DataOf(own', b, x)
    {
      if b !in own {
        assert Holds(own', got[IndexOf(got, b)], FileData(x, Extent(Ino(s.disk, x)) + IndexOf(got, b)));
      }
    }
    ExtendedWithout(own, own', x, got);
  }

  lemma EditStep(s0: State, own0: Owners, s: State, own: Owners, path: Path, x: nat, op: Op, q: Path)
    returns (own': Owners)
    requires Editing(s0, own0, s, own, path, x) && (op.WriteAt? || op.Truncate?) && op.path == path && Allowed(s, op)
    ensures Editing(s0, own0, After(s, op), own', path, x)
    ensures q != path ==> View(After(s, op).disk, q) == View(s.disk, q)
  {
    if PlanOf(s, op).result.Err? {
      FailedCallChangesNothing(s, op);
      own' := own;
    } else if op.Truncate? {
      TruncateEdits(s0, own0, s, own, path, x, op.len, q);
      own' := Dropped(own, x, NBlocks(op.len));
    } else {
      WriteEdits(s0, own0, s, own, path, x, op.buf, op.off, op.now, q);
      own' := WriteOwn(s, own, x, op.off, |op.buf|);
    }
  }

  /** Any writes and truncates of the file, failed ones included, touch nothing
      but the file. */
  lemma {:induction false} EditRun(s0: State, own0: Owners, s: State, own: Owners, path: Path, x: nat, ops: seq<Op>,
          q: Path)
    returns (own': Owners)
    requires Editing(s0, own0, s, own, path, x) && EditsOf(path, ops) && AllAllowed(s, ops)
    ensures Editing(s0, own0, Run(s, ops), own', path, x)
    ensures q != path ==> View(Run(s, ops).disk, q) == View(s.disk, q)
    decreases |ops|
  {
    own' := own;
    if ops != [] {
      own' := EditStep(s0, own0, s, own, path, x, ops[0], q);
      own' := EditRun(s0, own0, After(s, ops[0]), own', path, x, ops[1..], q);
    }
  }

  lemma NewFileWithout(s: State, own: Owners, i: nat)
    requires Sound(s.disk, s.bits, own) && HasInode(own, i) && IsDir(Ino(s.disk, i))
    requires FreeSlot(Ents(s.disk, i), 0) < SLOTS && |Allotted(s, false)| == 1
    ensures var x, own' := Allotted(s, false)[0], NewRoles(s, own, i, false);
      HasInode(own', x) && Without(own', x) == own
  {
    var x, own' := Allotted(s, false)[0], NewRoles(s, own, i, false);
    AllottedFresh(s, own, i, false);
    NewRolesAre(s, own, i, false);
    forall b | b in own
      ensures HomeOf(own', b) == HomeOf(own, b) != x
    {
      assert BlockOk(s.disk, own, b) && Holds(own', b, own[b]);
    }
    assert Without(own', x) == own;
  }

  lemma CreateStartsEditing(s: State, own: Owners, path: Path, i: nat, mode: u32, c: Caller, s0: State)
    requires Makeable(s, own, path, i, false) && RightKind(mode, false)
    requires s0 == Commit(s, MadeBy(s, i, Last(path), mode, false, c)) && Good(s0, NewRoles(s, own, i, false))
    ensures Editing(s, own, s0, NewRoles(s, own, i, false), path, Allotted(s, false)[0])
  {
    NewFileWithout(s, own, i);
    MakeResolve(s, own, path, i, mode, false, c, path);
    LowestBelow(s, 1);
    BitsBeyond(s.bits, Allotted(s, false), true, |s.disk|);
  }

  /** Removing the edited file ends where the editing began. */
  lemma UnlinkEndsEditing(s0: State, own0: Owners, s: State, own: Owners, path: Path, x: nat, q: Path)
    requires Good(s0, own0) && Editing(s0, own0, s, own, path, x) && path != []
    ensures UnlinkPlan(s, path).result == Ok(0)
    ensures Commit(s, UnlinkPlan(s, path)).bits == s0.bits
    ensures View(Commit(s, UnlinkPlan(s, path)).disk, q) == if path <= q then Err(ENOENT) else View(s.disk, q)
  {
    var i, j, y, freed := UnlinkIs(s, own, path);
    RemovalKeeps(s, own, path, i, j, y, freed);
    RemovalViews(s, own, path, i, j, y, freed, q);
    var s2 := Commit(s, UnlinkPlan(s, path));
    forall b | b in freed
      ensures b < |s.disk|
    {
      OwnedAboveBitmap(s.disk, s.bits, own, b);
    }
    BitsBeyond(s.bits, freed, false, |s.disk|);
    SameExact(s2, s0, own0);
  }

  /** Two exact bitmaps for the same ownership agree. */
  lemma SameExact(s: State, t: State, own: Owners)
    requires |s.disk| == |t.disk| && Exact(s.disk, s.bits, own) && Exact(t.disk, t.bits, own)
    requires forall b :: |s.disk| <= b < NBITS ==> s.bits[b] == t.bits[b]
    ensures s.bits == t.bits
  {
    forall b | 0 <= b < NBITS
      ensures s.bits[b] == t.bits[b]
    {
    }
  }

  /** Edits of file x, which s0 has and s has not, up to t; and then its removal. */
  lemma EditsThenUnlink(s: State, own: Owners, s0: State, own0: Owners, path: Path, x: nat, ops: seq<Op>, q: Path,
      t: State)
    returns (own': Owners)
    requires Good(s, own) && Editing(s, own, s0, own0, path, x) && path != []
    requires EditsOf(path, ops) && AllAllowed(s0, ops) && t == Run(s0, ops)
    requires if path <= q then View(s.disk, q) == Err(ENOENT) else View(s0.disk, q) == View(s.disk, q)
    ensures Safe(t, own') && UnlinkPlan(t, path).result == Ok(0)
    ensures var s2 := Commit(t, UnlinkPlan(t, path));
      s2.bits == s.bits && |s2.disk| == |s.disk| && View(s2.disk, q) == View(s.disk, q)
  {
    own' := EditRun(s, own, s0, own0, path, x, ops, q);
    UnlinkEndsEditing(s, own, t, own', path, x, q);
  }

  /** Create and unlink count right, so the counters move as the edits let them. */
  lemma EditDrift(s: State, own: Owners, path: Path, mode: u32, c: Caller, s0: State, own0: Owners, ops: seq<Op>,
      t: State,
          own': Owners)
    requires Safe(s, own) && 0 < |path| <= MAX_PATH_LEN && Kind(mode) == 8
    requires MakePlan(s, path, mode, false, c).result.Ok? && s0 == Commit(s, MakePlan(s, path, mode, false, c))
    requires Safe(s0, own0) && AllAllowed(s0, ops) && t == Run(s0, ops) && Safe(t, own')
    requires UnlinkPlan(t, path).result.Ok?
    ensures Drifted(s, Commit(t, UnlinkPlan(t, path)), Drift(s0, ops))
  {
    MakeCounts(s, own, path, mode, false, c);
    RunDrift(s0, own0, ops);
    RemovalCounts(t, own', Unlink(path));
  }

  /** create, any number of writes and truncates of that file, unlink: the bitmap
      is restored bit for bit, and every path shows what it showed before. The
      counters are too high by what the short writes in between added. */
  lemma CreateEditUnlink(s: State, own: Owners, path: Path, mode: u32, c: Caller, ops: seq<Op>, q: Path)
    requires Good(s, own) && 0 < |path| <= MAX_PATH_LEN && Kind(mode) == 8
    requires MakePlan(s, path, mode, false, c).result.Ok?
    requires EditsOf(path, ops) && AllAllowed(Commit(s, MakePlan(s, path, mode, false, c)), ops)
    ensures var s0 := Commit(s, MakePlan(s, path, mode, false, c));
      var t := Run(s0, ops);
      var s2 := Commit(t, UnlinkPlan(t, path));
      && UnlinkPlan(t, path).result == Ok(0)
      && s2.bits == s.bits
      && s2.bfree == s.bfree + Drift(s0, ops) && s2.bavail == s.bavail + Drift(s0, ops)
      && View(s2.disk, q) == View(s.disk, q)
  {
    var s0 := Commit(s, MakePlan(s, path, mode, false, c));
    var t := Run(s0, ops);
    var own0, x := CreateEditing(s, own, path, mode, c, q);
    var own' := EditsThenUnlink(s, own, s0, own0, path, x, ops, q, t);
    EditDrift(s, own, path, mode, c, s0, own0, ops, t, own');
  }

  /** A successful create begins the editing of its file. */
  lemma CreateEditing(s: State, own: Owners, path: Path, mode: u32, c: Caller, q: Path) returns (own0: Owners, x: nat)
    requires Good(s, own) && 0 < |path| <= MAX_PATH_LEN && Kind(mode) == 8
    requires MakePlan(s, path, mode, false, c).result.Ok?
    ensures var s0 := Commit(s, MakePlan(s, path, mode, false, c));
      && Editing(s, own, s0, own0, path, x)
      && if path <= q then View(s.disk, q) == Err(ENOENT) else View(s0.disk, q) == View(s.disk, q)
  {
    var i, s0 := Target(s, Parent(path)), Commit(s, MakePlan(s, path, mode, false, c));
    MakeKeeps(s, own, path, mode, false, c);
    own0, x := NewRoles(s, own, i, false), Allotted(s, false)[0];
    CreateStartsEditing(s, own, path, i, mode, c, s0);
    CreateViews(s, own, path, i, mode, c, s0, q);
  }

  lemma CreateViews(s: State, own: Owners, path: Path, i: nat, mode: u32, c: Caller, s0: State, q: Path)
    requires Makeable(s, own, path, i, false) && RightKind(mode, false)
    requires s0 == Commit(s, MadeBy(s, i, Last(path), mode, false, c))
    ensures path <= q ==> View(s.disk, q) == Err(ENOENT)
    ensures !(path <= q) ==> View(s0.disk, q) == View(s.disk, q)
  {
    MakeViews(s, own, path, i, mode, false, c, q);
    if path <= q {
      MissingBelow(s, own, path, i, false, q);
    }
  }
}
