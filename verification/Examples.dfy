/** Concrete runs, from a fresh image such as the 400-block one of disk2.in, on
    which the code departs from its documentation. The general statements are
    LeaksExactlyWhen, RmdirEffect, CountedExactlyWhen, ReadEffect,
    RegrownByTruncate and MakeCrash. */
module Examples {
  import opened Layout
  import opened Image
  import opened Ownership
  import opened Operations
  import Frames
  import opened FileEffects
  import FileEdits
  import WriteEffects
  import DirEdits
  import opened MakeEffects
  import opened RemoveEffects
  import Reads
  import opened Runs
  import opened Crashes
  import opened EmptyImage
  import Undo
  import opened Appends
  import opened Regrow

  function A(): Name { [97] }
  function X(): Name { [120] }
  function Y(): Name { [121] }

  const ROOT_USER := Caller(0, 0, CREATED)
  const FILE_MODE: u32 := 0x81b6
  const DIR_PERM: u32 := 0x1ff

  // --------------------------------------------------------------- the fresh image

  lemma FreshViews(s: State, home: nat, q: Path)
    requires Fresh(s, home)
    ensures if q == [] then View(s.disk, q).Ok? && View(s.disk, q).value.DirNode? else View(s.disk, q) == Err(ENOENT)
  {
    var own := FreshOwners(home);
    FreshIsGood(s, home);
    FileAt(s.disk, s.bits, own, q);
    if q != [] {
      var first: Path := [q[0]];
      assert Parent(first) == [];
      StepSound(s.disk, s.bits, own, 2, q[0]);
      DirEdits.FindSlotNone(Ents(s.disk, 2), q[0]);
      Undo.FailsBelow(s.disk, first, q);
      Frames.ViewOf(s.disk, s.bits, own, q);
    }
  }

  // ------------------------------------------------------- creating, step by step

  /** Where things stand between two steps of a run: nothing leaks, all is counted. */
  ghost predicate Standing(s: State, own: Owners) {
    Good(s, own) && Counted(s) && NothingLeaks(s.disk, s.bits)
  }

  /** The entries of the directory at a path. */
  ghost function EntriesAt(s: State, p: Path): Directory { Ents(s.disk, Target(s, p)) }

  lemma Made(s: State, own: Owners, path: Path, mode: u32, isDir: bool, c: Caller)
    requires Standing(s, own) && 0 < |path| <= MAX_PATH_LEN && RightKind(mode, isDir)
    requires View(s.disk, Parent(path)).Ok? && View(s.disk, Parent(path)).value.DirNode? && View(s.disk, path).Err?
    requires !DirFull(EntriesAt(s, Parent(path))) && s.bfree >= MakeCount(isDir)
    ensures var p := MakePlan(s, path, mode, isDir, c);
      var t := Commit(s, p);
      && p.result == Ok(0) && t.bfree == s.bfree - MakeCount(isDir) && Good(t, MadeOwn(s, own, path, isDir))
      && FreeSlot(EntriesAt(s, Parent(path)), 0) < SLOTS
      && |Allotted(s, isDir)| == MakeCount(isDir)
      && EntriesAt(t, Parent(path)) == MadeDir(EntriesAt(s, Parent(path)), Last(path), Allotted(s, isDir)[0])
      && (isDir ==> DirEmpty(EntriesAt(t, path)))
  {
    var i, got := Target(s, Parent(path)), Allotted(s, isDir);
    MakeEffect(s, own, path, mode, isDir, c, path);
    FileAt(s.disk, s.bits, own, Parent(path));
    MakeKeeps(s, own, path, mode, isDir, c);
    MadeEntries(s, own, path, i, mode, isDir, c);
  }

  lemma MadeEntries(s: State, own: Owners, path: Path, i: nat, mode: u32, isDir: bool, c: Caller)
    requires Makeable(s, own, path, i, isDir) && RightKind(mode, isDir)
    ensures var t := Commit(s, MadeBy(s, i, Last(path), mode, isDir, c));
      && EntriesAt(t, Parent(path)) == MadeDir(Ents(s.disk, i), Last(path), Allotted(s, isDir)[0])
      && (isDir ==> DirEmpty(EntriesAt(t, path)))
  {
    var t, got, j := Commit(s, MadeBy(s, i, Last(path), mode, isDir, c)), Allotted(s, isDir),
        FreeSlot(Ents(s.disk, i), 0);
    MakeAdds(s, own, path, i, mode, isDir, c);
    DirEdits.EditedInode(s.disk, s.bits, t.disk, own, i, j, NewEntry(Ents(s.disk, i)[j], Last(path), got[0]), i);
    MakeResolve(s, own, path, i, mode, isDir, c, Parent(path));
    if isDir {
      MakeResolve(s, own, path, i, mode, isDir, c, path);
      NewIsEmpty(s, own, path, i, mode, isDir, c, Last(path));
      NewInodeKind(mode, got[1], c);
      AllottedFresh(s, own, i, isDir);
      MadeDisk(s, own, path, i, mode, isDir, c, got[1]);
      forall k | 0 <= k < SLOTS
        ensures !DirOf(Zeros())[k].valid
      {
        EmptyDirectory(k);
      }
    }
  }

  /** A create or mkdir between two standing states. */
  lemma MadeStands(s: State, own: Owners, op: Op, path: Path, mode: u32, isDir: bool, c: Caller)
    requires Standing(s, own) && 0 < |path| <= MAX_PATH_LEN && RightKind(mode, isDir)
    requires View(s.disk, Parent(path)).Ok? && View(s.disk, Parent(path)).value.DirNode? && View(s.disk, path).Err?
    requires !DirFull(EntriesAt(s, Parent(path))) && s.bfree >= MakeCount(isDir)
    requires Allowed(s, op) && !op.WriteAt? && !op.Unlink? && !op.Rmdir?
        && PlanOf(s, op) == MakePlan(s, path, mode, isDir, c)
    ensures Standing(After(s, op), MadeOwn(s, own, path, isDir))
  {
    Made(s, own, path, mode, isDir, c);
    LeaksExactlyWhen(s, own, op);
    CountedExactlyWhen(s, own, op);
  }

  // ------------------------------------------------------------------------ rmdir

  function MkdirA(): Op { Op.Mkdir([A()], DIR_PERM, ROOT_USER) }
  function CreateIn(n: Name): Op { Op.Create([A(), n], FILE_MODE, ROOT_USER) }
  function UnlinkX(): Op { Op.Unlink([A(), X()]) }
  function RmdirA(): Op { Op.Rmdir([A()]) }

  lemma CallsAllowed(s: State, n: Name)
    ensures Allowed(s, MkdirA()) && Allowed(s, CreateIn(n)) && Allowed(s, UnlinkX()) && Allowed(s, RmdirA())
    ensures RightKind(DirMode(DIR_PERM), true) && RightKind(FILE_MODE, false)
    ensures Parent([A(), n]) == [A()] && Last([A(), n]) == n && Parent([A()]) == []
  {
  }

  lemma RootHasRoom(s: State, home: nat)
    requires Fresh(s, home)
    ensures Standing(s, FreshOwners(home)) && !DirFull(EntriesAt(s, []))
  {
    FreshIsGood(s, home);
    assert !EntriesAt(s, [])[0].valid;
  }

  /** mkdir /a on a fresh image. */
  lemma WithA(s: State, home: nat, n: Name, m: Name) returns (t: State, own: Owners)
    requires Fresh(s, home) && s.bfree >= 2
    ensures Allowed(s, MkdirA()) && t == After(s, MkdirA()) && Standing(t, own) && t.bfree == s.bfree - 2
    ensures DirEmpty(EntriesAt(t, [A()])) && View(t.disk, [A()]).Ok? && View(t.disk, [A()]).value.DirNode?
    ensures View(t.disk, [A(), n]) == Err(ENOENT) && View(t.disk, [A(), m]) == Err(ENOENT)
  {
    var own0 := FreshOwners(home);
    CallsAllowed(s, n);
    RootHasRoom(s, home);
    FreshViews(s, home, []);
    FreshViews(s, home, [A()]);
    Made(s, own0, [A()], DirMode(DIR_PERM), true, ROOT_USER);
    MadeStands(s, own0, MkdirA(), [A()], DirMode(DIR_PERM), true, ROOT_USER);
    t, own := After(s, MkdirA()), MadeOwn(s, own0, [A()], true);
    MakeEffect(s, own0, [A()], DirMode(DIR_PERM), true, ROOT_USER, [A()]);
    MakeEffect(s, own0, [A()], DirMode(DIR_PERM), true, ROOT_USER, [A(), n]);
    MakeEffect(s, own0, [A()], DirMode(DIR_PERM), true, ROOT_USER, [A(), m]);
  }

  /** create /a/n on a state where /a is a directory with a free slot. */
  lemma WithFile(s: State, own: Owners, n: Name, q: Path) returns (t: State, own': Owners)
    requires Standing(s, own) && s.bfree >= 1 && !DirFull(EntriesAt(s, [A()]))
    requires View(s.disk, [A()]).Ok? && View(s.disk, [A()]).value.DirNode? && View(s.disk, [A(), n]).Err?
    ensures Allowed(s, CreateIn(n)) && t == After(s, CreateIn(n)) && Standing(t, own') && t.bfree == s.bfree - 1
    ensures FreeSlot(EntriesAt(s, [A()]), 0) < SLOTS && |Allotted(s, false)| == 1
    ensures EntriesAt(t, [A()]) == MadeDir(EntriesAt(s, [A()]), n, Allotted(s, false)[0])
    ensures View(t.disk, [A(), n]).Ok? && View(t.disk, [A(), n]).value.FileNode?
    ensures View(t.disk, [A()]) == View(s.disk, [A()])
    ensures !([A(), n] <= q) ==> View(t.disk, q) == View(s.disk, q)
  {
    CallsAllowed(s, n);
    Made(s, own, [A(), n], FILE_MODE, false, ROOT_USER);
    MadeStands(s, own, CreateIn(n), [A(), n], FILE_MODE, false, ROOT_USER);
    t, own' := After(s, CreateIn(n)), MadeOwn(s, own, [A(), n], false);
    MakeEffect(s, own, [A(), n], FILE_MODE, false, ROOT_USER, [A(), n]);
    MakeEffect(s, own, [A(), n], FILE_MODE, false, ROOT_USER, [A()]);
    MakeEffect(s, own, [A(), n], FILE_MODE, false, ROOT_USER, q);
  }

  /** unlink of a file leaves a standing state, with its slot free. */
  lemma WithoutX(s: State, own: Owners, q: Path) returns (t: State, own': Owners)
    requires Standing(s, own) && View(s.disk, [A(), X()]).Ok? && View(s.disk, [A(), X()]).value.FileNode?
    ensures Allowed(s, UnlinkX()) && t == After(s, UnlinkX()) && Standing(t, own')
    ensures var dir := EntriesAt(s, [A()]);
      var j := FindSlot(dir, X(), 0);
      j < SLOTS && EntriesAt(t, [A()]) == dir[j := dir[j].(valid := false)]
    ensures View(t.disk, [A()]) == View(s.disk, [A()])
    ensures !([A(), X()] <= q) ==> View(t.disk, q) == View(s.disk, q)
  {
    CallsAllowed(s, X());
    FileAt(s.disk, s.bits, own, [A(), X()]);
    var i, j, x, freed := UnlinkIs(s, own, [A(), X()]);
    RemovalKeeps(s, own, [A(), X()], i, j, x, freed);
    t, own' := After(s, UnlinkX()), DirEdits.Without(own, x);
    RemovalDisk(s, own, [A(), X()], i, j, x, freed);
    DirEdits.EditedInode(s.disk, s.bits, t.disk, own, i, j, Ents(s.disk, i)[j].(valid := false), i);
    RemovalViews(s, own, [A(), X()], i, j, x, freed, [A()]);
    RemovalViews(s, own, [A(), X()], i, j, x, freed, q);
    LeaksExactlyWhen(s, own, UnlinkX());
    CountedExactlyWhen(s, own, UnlinkX());
  }

  lemma TwoEntries(dir: Directory, x: u31, y: u31)
    requires DirEmpty(dir) && dir[0].name[NAME_MAX] == 0
    ensures var one := MadeDir(dir, X(), x);
      && !DirFull(dir) && !DirFull(one) && FreeSlot(one, 0) == 1
      && FindSlot(MadeDir(one, Y(), y), X(), 0) == 0 && MadeDir(one, Y(), y)[1].valid
  {
    var one := MadeDir(dir, X(), x);
    assert FreeSlot(dir, 0) == 0;
    StrnCpyName(dir[0].name, X());
    assert !one[1].valid && one[0].valid && NameOf(one[0]) == X();
    assert FreeSlot(one, 0) == 1;
  }

  lemma NamesEnd(s: State, own: Owners, p: Path)
    requires Good(s, own) && View(s.disk, p).Ok? && View(s.disk, p).value.DirNode?
    ensures EntriesAt(s, p)[0].name[NAME_MAX] == 0
  {
    FileAt(s.disk, s.bits, own, p);
    assert DirOk(own, Target(s, p), EntriesAt(s, p));
    assert EntryOk(own, Target(s, p), EntriesAt(s, p)[0], 0);
  }

  /** /a with its slot 0 in use by x and its slot 1 by y. */
  lemma WithXAndY(s: State, own: Owners) returns (t: State, u: State, own': Owners)
    requires Standing(s, own) && s.bfree >= 2 && DirEmpty(EntriesAt(s, [A()]))
    requires View(s.disk, [A()]).Ok? && View(s.disk, [A()]).value.DirNode?
    requires View(s.disk, [A(), X()]).Err? && View(s.disk, [A(), Y()]).Err?
    ensures Allowed(s, CreateIn(X())) && t == After(s, CreateIn(X()))
    ensures Allowed(t, CreateIn(Y())) && u == After(t, CreateIn(Y())) && Standing(u, own')
    ensures View(u.disk, [A()]) == View(s.disk, [A()])
    ensures View(u.disk, [A(), X()]).Ok? && View(u.disk, [A(), X()]).value.FileNode? && View(u.disk, [A(), Y()]).Ok?
    ensures FindSlot(EntriesAt(u, [A()]), X(), 0) == 0 && EntriesAt(u, [A()])[1].valid
  {
    var dir := EntriesAt(s, [A()]);
    NamesEnd(s, own, [A()]);
    TwoEntries(dir, 0, 0);
    var own1;
    t, own1 := WithFile(s, own, X(), [A(), Y()]);
    TwoEntries(dir, Allotted(s, false)[0], 0);
    u, own' := WithFile(t, own1, Y(), [A(), X()]);
    TwoEntries(dir, Allotted(s, false)[0], Allotted(t, false)[0]);
  }

  lemma RunCons(s: State, op: Op, rest: seq<Op>)
    requires Allowed(s, op) && AllAllowed(After(s, op), rest)
    ensures AllAllowed(s, [op] + rest) && Run(s, [op] + rest) == Run(After(s, op), rest)
  {
    assert ([op] + rest)[1..] == rest;
  }

  lemma RunTwo(s: State, a: Op, b: Op)
    requires Allowed(s, a) && Allowed(After(s, a), b)
    ensures AllAllowed(s, [a, b]) && Run(s, [a, b]) == After(After(s, a), b)
  {
    RunCons(After(s, a), b, []);
    RunCons(s, a, [b]);
    assert [a] + [b] == [a, b] && [b] + [] == [b];
  }

  lemma RunThree(s: State, a: Op, b: Op, c: Op)
    requires Allowed(s, a) && Allowed(After(s, a), b) && Allowed(After(After(s, a), b), c)
    ensures AllAllowed(s, [a, b, c]) && Run(s, [a, b, c]) == After(After(After(s, a), b), c)
  {
    RunTwo(After(s, a), b, c);
    RunCons(s, a, [b, c]);
    assert [a] + [b, c] == [a, b, c];
  }

  lemma RunFour(s: State, a: Op, b: Op, c: Op, d: Op)
    requires Allowed(s, a) && Allowed(After(s, a), b) && Allowed(After(After(s, a), b), c)
    requires Allowed(After(After(After(s, a), b), c), d)
    ensures AllAllowed(s, [a, b, c, d]) && Run(s, [a, b, c, d]) == After(After(After(After(s, a), b), c), d)
  {
    RunThree(After(s, a), b, c, d);
    RunCons(s, a, [b, c, d]);
    assert [a] + [b, c, d] == [a, b, c, d];
  }

  /** A directory with slot 0 free and slot 1 in use is removed, and leaks. */
  lemma SlotZeroDecides(s: State, own: Owners)
    requires Standing(s, own) && View(s.disk, [A()]).Ok? && View(s.disk, [A()]).value.DirNode?
    requires !EntriesAt(s, [A()])[0].valid && EntriesAt(s, [A()])[1].valid
    ensures Allowed(s, RmdirA()) && PlanOf(s, RmdirA()).result == Ok(0)
    ensures !NothingLeaks(After(s, RmdirA()).disk, After(s, RmdirA()).bits)
  {
    FileAt(s.disk, s.bits, own, [A()]);
    RmdirEffect(s, own, [A()], []);
    LeaksExactlyWhen(s, own, RmdirA());
  }

  /** mkdir /a; create /a/x; create /a/y; unlink /a/x; rmdir /a: the rmdir succeeds
      although /a/y is still there, and the blocks of /a/y leak. */
  lemma RmdirTakesANonEmptyDirectory(s: State, home: nat) returns (t: State)
    requires Fresh(s, home) && s.bfree >= 4
    ensures AllAllowed(s, [MkdirA(), CreateIn(X()), CreateIn(Y()), UnlinkX()])
    ensures t == Run(s, [MkdirA(), CreateIn(X()), CreateIn(Y()), UnlinkX()]) && Allowed(t, RmdirA())
    ensures View(t.disk, [A(), Y()]).Ok? && PlanOf(t, RmdirA()).result == Ok(0)
    ensures NothingLeaks(t.disk, t.bits) && !NothingLeaks(After(t, RmdirA()).disk, After(t, RmdirA()).bits)
  {
    var s1, own1 := WithA(s, home, X(), Y());
    var s2, s3, own3 := WithXAndY(s1, own1);
    var own4;
    t, own4 := WithoutX(s3, own3, [A(), Y()]);
    RunFour(s, MkdirA(), CreateIn(X()), CreateIn(Y()), UnlinkX());
    SlotZeroDecides(t, own4);
  }

  /** mkdir /a; create /a/x; unlink /a: unlink never looks at what it removes, and
      the blocks of /a/x leak. */
  lemma UnlinkTakesADirectory(s: State, home: nat) returns (t: State)
    requires Fresh(s, home) && s.bfree >= 3
    ensures AllAllowed(s, [MkdirA(), CreateIn(X())]) && t == Run(s, [MkdirA(), CreateIn(X())])
    ensures View(t.disk, [A(), X()]).Ok? && PlanOf(t, Op.Unlink([A()])).result == Ok(0)
    ensures NothingLeaks(t.disk, t.bits)
        && !NothingLeaks(After(t, Op.Unlink([A()])).disk, After(t, Op.Unlink([A()])).bits)
  {
    var s1, own1 := WithA(s, home, X(), X());
    var own2;
    t, own2 := WithX(s1, own1);
    RunTwo(s, MkdirA(), CreateIn(X()));
    UnlinkLeaks(t, own2);
  }

  lemma WithX(s: State, own: Owners) returns (t: State, own': Owners)
    requires Standing(s, own) && s.bfree >= 1 && DirEmpty(EntriesAt(s, [A()]))
    requires View(s.disk, [A()]).Ok? && View(s.disk, [A()]).value.DirNode? && View(s.disk, [A(), X()]).Err?
    ensures Allowed(s, CreateIn(X())) && t == After(s, CreateIn(X())) && Standing(t, own')
    ensures View(t.disk, [A()]) == View(s.disk, [A()]) && View(t.disk, [A(), X()]).Ok? && !DirEmpty(EntriesAt(t, [A()]))
  {
    NamesEnd(s, own, [A()]);
    TwoEntries(EntriesAt(s, [A()]), 0, 0);
    t, own' := WithFile(s, own, X(), [A()]);
    assert EntriesAt(t, [A()])[FreeSlot(EntriesAt(s, [A()]), 0)].valid;
  }

  lemma UnlinkLeaks(s: State, own: Owners)
    requires Standing(s, own) && View(s.disk, [A()]).Ok? && View(s.disk, [A()]).value.DirNode?
    requires !DirEmpty(EntriesAt(s, [A()]))
    ensures PlanOf(s, Op.Unlink([A()])).result == Ok(0)
    ensures !NothingLeaks(After(s, Op.Unlink([A()])).disk, After(s, Op.Unlink([A()])).bits)
  {
    FileAt(s.disk, s.bits, own, [A()]);
    UnlinkEffect(s, own, [A()], []);
    LeaksExactlyWhen(s, own, Op.Unlink([A()]));
  }

  // ---------------------------------------------------------------- write and read

  function CreateA(): Op { Op.Create([A()], FILE_MODE, ROOT_USER) }

  /** 4097 bytes: two blocks. */
  function TwoBlocks(): seq<byte> { seq(4097, _ => 7) }

  /** create /a on a fresh image: an empty file. */
  lemma WithEmptyFile(s: State, home: nat) returns (t: State, own: Owners)
    requires Fresh(s, home) && s.bfree >= 1
    ensures Allowed(s, CreateA()) && t == After(s, CreateA()) && Standing(t, own) && t.bfree == s.bfree - 1
    ensures HasFile(t, [A()]) && Bytes(t, [A()]) == []
  {
    var own0 := FreshOwners(home);
    CallsAllowed(s, X());
    RootHasRoom(s, home);
    FreshViews(s, home, []);
    FreshViews(s, home, [A()]);
    Made(s, own0, [A()], FILE_MODE, false, ROOT_USER);
    MadeStands(s, own0, CreateA(), [A()], FILE_MODE, false, ROOT_USER);
    t, own := After(s, CreateA()), MadeOwn(s, own0, [A()], false);
    MakeEffect(s, own0, [A()], FILE_MODE, false, ROOT_USER, [A()]);
  }

  function WriteA(buf: seq<byte>): Op { Op.WriteAt([A()], buf, 0, MODIFIED) }

  function WriteTwo(): Op { WriteA(TwoBlocks()) }

  lemma TwoBlocksFit()
    ensures |TwoBlocks()| == 4097 && NBlocks(4097) == 2 && TwoBlocks()[..1] == [7]
  {
  }

  /** A first write to the empty file /a. */
  lemma FirstWrite(s: State, own: Owners, buf: seq<byte>) returns (t: State, own': Owners)
    requires Safe(s, own) && Counted(s) && HasFile(s, [A()]) && Bytes(s, [A()]) == []
    requires 0 < |buf| <= MAX_FILE && s.bfree >= NBlocks(|buf|)
    ensures Allowed(s, WriteA(buf)) && PlanOf(s, WriteA(buf)).result.Ok? && t == After(s, WriteA(buf))
    ensures Safe(t, own') && HasFile(t, [A()]) && Bytes(t, [A()]) == buf
  {
    own' := AppendOnce(s, own, [A()], buf, MODIFIED, [A()]);
    t := Commit(s, WritePlan(s, [A()], buf, 0, MODIFIED));
    assert [] + buf == buf;
  }

  lemma FirstWriteCounts(s: State, own: Owners, buf: seq<byte>)
    requires Safe(s, own) && Counted(s) && HasFile(s, [A()]) && Bytes(s, [A()]) == [] && Allowed(s, WriteA(buf))
    ensures Counted(After(s, WriteA(buf)))
  {
    CountedExactlyWhen(s, own, WriteA(buf));
  }

  /** create /a and write to it. */
  lemma WithBytes(s: State, home: nat, buf: seq<byte>) returns (u: State, own1: Owners, t: State, own: Owners)
    requires Fresh(s, home) && 0 < |buf| <= MAX_FILE && s.bfree >= 1 + NBlocks(|buf|)
    ensures Allowed(s, CreateA()) && u == After(s, CreateA()) && Allowed(u, WriteA(buf)) && t == After(u, WriteA(buf))
    ensures Safe(u, own1) && HasFile(u, [A()]) && Bytes(u, [A()]) == [] && PlanOf(u, WriteA(buf)).result.Ok?
    ensures Safe(t, own) && Counted(t) && HasFile(t, [A()]) && Bytes(t, [A()]) == buf
  {
    u, own1 := WithEmptyFile(s, home);
    t, own := FirstWrite(u, own1, buf);
    FirstWriteCounts(u, own1, buf);
  }

  /** create /a; write 4097 bytes; write one byte at 0: the last write adds no
      block, but the free counters grow by one. */
  lemma ShortWriteMiscounts(s: State, home: nat) returns (t: State)
    requires Fresh(s, home) && s.bfree >= 3
    ensures AllAllowed(s, [CreateA(), WriteTwo()]) && t == Run(s, [CreateA(), WriteTwo()]) && Counted(t)
    ensures var call := Op.WriteAt([A()], [7], 0, MODIFIED);
      Allowed(t, call) && PlanOf(t, call).result == Ok(1) && !Counted(After(t, call))
  {
    TwoBlocksFit();
    var u, own1, own;
    u, own1, t, own := WithBytes(s, home, TwoBlocks());
    RunTwo(s, CreateA(), WriteTwo());
    WriteEffects.WriteEffect(t, own, [A()], [7], 0, MODIFIED, [A()]);
    FileAt(t.disk, t.bits, own, [A()]);
    CountedExactlyWhen(t, own, Op.WriteAt([A()], [7], 0, MODIFIED));
  }

  function CutToOne(): Op { Op.Truncate([A()], 1) }

  /** create /a; write 4097 bytes; truncate to 1: reading two bytes reports EIO,
      although the one byte that is left could be returned. */
  lemma ReadAfterTruncateFails(s: State, home: nat, beyond: u32) returns (t: State)
    requires Fresh(s, home) && s.bfree >= 3
    ensures AllAllowed(s, [CreateA(), WriteTwo(), CutToOne()]) && t == Run(s, [CreateA(), WriteTwo(), CutToOne()])
    ensures HasFile(t, [A()]) && Bytes(t, [A()]) == [7]
    ensures ReadResult(t.disk, [A()], 2, 0, beyond) == Err(EIO) && ReadResult(t.disk, [A()], 1, 0, beyond) == Ok([7])
  {
    TwoBlocksFit();
    var u, own1, v, own := WithBytes(s, home, TwoBlocks());
    t := After(v, CutToOne());
    RunThree(s, CreateA(), WriteTwo(), CutToOne());
    ReadCutFile(v, own, t, 1, beyond);
  }

  lemma ReadCutFile(s: State, own: Owners, t: State, len: nat, beyond: u32)
    requires Safe(s, own) && HasFile(s, [A()]) && Bytes(s, [A()]) == TwoBlocks() && len == 1
        && t == Truncated(s, [A()], len)
    ensures HasFile(t, [A()]) && Bytes(t, [A()]) == [7]
    ensures ReadResult(t.disk, [A()], 2, 0, beyond) == Err(EIO) && ReadResult(t.disk, [A()], 1, 0, beyond) == Ok([7])
  {
    TwoBlocksFit();
    TruncatedIsSafe(s, own, [A()], len);
    ReadsPastEndFail(s, own, [A()], len, 2, 0, beyond);
    Reads.ReadEffect(t.disk, t.bits, FileEdits.Dropped(own, Target(s, [A()]), NBlocks(len)), [A()], 1, 0, beyond);
    assert Bytes(t, [A()])[0..1] == [7];
  }

  function TwoBytes(): seq<byte> { [7, 8] }

  /** create /a; write two bytes; truncate to 1; truncate to 3: the byte that was
      cut off is back, and a third one has appeared behind it. */
  lemma TruncateBringsBack(s: State, home: nat) returns (t: State)
    requires Fresh(s, home) && s.bfree >= 2
    ensures AllAllowed(s, [CreateA(), WriteA(TwoBytes()), CutToOne()])
    ensures t == Run(s, [CreateA(), WriteA(TwoBytes()), CutToOne()]) && HasFile(t, [A()]) && Bytes(t, [A()]) == [7]
    ensures TruncatePlan(t, [A()], 3).result.Ok?
    ensures HasFile(Truncated(t, [A()], 3), [A()]) && Bytes(Truncated(t, [A()], 3), [A()]) == [7, 8, 0]
  {
    var u, own1, v, own := WithBytes(s, home, TwoBytes());
    t := After(v, CutToOne());
    RunThree(s, CreateA(), WriteA(TwoBytes()), CutToOne());
    ThirdByte(u, own1, v);
    CutAndRegrown(v, own);
  }

  /** The first write to a file fills its block up with zeros. */
  lemma ThirdByte(s: State, own: Owners, t: State)
    requires Safe(s, own) && HasFile(s, [A()]) && Bytes(s, [A()]) == []
    requires Allowed(s, WriteA(TwoBytes())) && PlanOf(s, WriteA(TwoBytes())).result.Ok?
        && t == After(s, WriteA(TwoBytes()))
    ensures |Held(t, [A()])| > 2 && Held(t, [A()])[2] == 0
  {
    FileAt(s.disk, s.bits, own, [A()]);
    WriteEffects.WriteDecision(s, own, [A()], TwoBytes(), 0, MODIFIED);
    var i := Target(s, [A()]);
    WriteEffects.NeededIsAdded(Ino(s.disk, i), 0, 2);
    TailAfterWrite(s, own, i, TwoBytes(), 0, MODIFIED, 2);
    WriteEffects.WriteViews(s, own, [A()], TwoBytes(), 0, MODIFIED, [A()]);
  }

  lemma CutAndRegrown(s: State, own: Owners)
    requires Safe(s, own) && HasFile(s, [A()]) && Bytes(s, [A()]) == TwoBytes()
    requires |Held(s, [A()])| > 2 && Held(s, [A()])[2] == 0
    ensures var t := Truncated(s, [A()], 1);
      && HasFile(t, [A()]) && Bytes(t, [A()]) == [7] && TruncatePlan(t, [A()], 3).result.Ok?
      && HasFile(Truncated(t, [A()], 3), [A()]) && Bytes(Truncated(t, [A()], 3), [A()]) == [7, 8, 0]
  {
    TruncatedIsSafe(s, own, [A()], 1);
    RegrownByTruncate(s, own, [A()], 1, 3);
    ThreeBytes(Held(s, [A()]));
  }

  lemma ThreeBytes(held: seq<byte>)
    requires TwoBytes() <= held && |held| > 2 && held[2] == 0
    ensures held[..3] == [7, 8, 0] && TwoBytes()[..1] == [7]
  {
    assert held[..2] == TwoBytes();
    assert held[..3] == held[..2] + [held[2]];
  }

  // ----------------------------------------------------------------- a full directory

  /** 128 different names. */
  function Nth(k: nat): Name
    requires k < SLOTS
  {
    [128 + k]
  }

  /** One create in /a for each name from the k-th on. */
  function Creates(k: nat): seq<Op>
    requires k <= SLOTS
    decreases SLOTS - k
  {
    if k == SLOTS then [] else [CreateIn(Nth(k))] + Creates(k + 1)
  }

  lemma CreatesCons(k: nat, next: nat)
    requires k < SLOTS && next == k + 1
    ensures Creates(k) == [CreateIn(Nth(k))] + Creates(next)
  {
  }

  ghost predicate FirstSlots(dir: Directory, k: nat) {
    forall j :: 0 <= j < SLOTS ==> dir[j].valid == (j < k)
  }

  ghost predicate Missing(s: State, k: nat) {
    forall m :: k <= m < SLOTS ==> View(s.disk, [A(), Nth(m)]).Err?
  }

  /** /a is a directory with its first k slots in use, and without the later names. */
  ghost predicate Filled(s: State, own: Owners, k: nat) {
    && Standing(s, own)
    && View(s.disk, [A()]).Ok? && View(s.disk, [A()]).value.DirNode?
    && FirstSlots(EntriesAt(s, [A()]), k) && Missing(s, k)
  }

  lemma OneMoreSlot(dir: Directory, k: nat, next: nat)
    requires FirstSlots(dir, k) && k < SLOTS && next == k + 1
    ensures !DirFull(dir) && FreeSlot(dir, 0) == k
    ensures forall n: Name, x: u31 :: FirstSlots(MadeDir(dir, n, x), next)
  {
    assert !dir[k].valid;
  }

  lemma StillMissing(s: State, own: Owners, k: nat, next: nat)
    requires Filled(s, own, k) && k < SLOTS && next == k + 1 && s.bfree >= 1
    ensures Missing(Commit(s, MakePlan(s, [A(), Nth(k)], FILE_MODE, false, ROOT_USER)), next)
  {
    CallsAllowed(s, Nth(k));
    forall m | next <= m < SLOTS
      ensures View(Commit(s, MakePlan(s, [A(), Nth(k)], FILE_MODE, false, ROOT_USER)).disk, [A(), Nth(m)]).Err?
    {
      StaysMissing(s, own, k, m);
    }
  }

  lemma StaysMissing(s: State, own: Owners, k: nat, m: nat)
    requires Standing(s, own) && k < m < SLOTS && View(s.disk, [A(), Nth(m)]).Err?
    ensures View(Commit(s, MakePlan(s, [A(), Nth(k)], FILE_MODE, false, ROOT_USER)).disk, [A(), Nth(m)]).Err?
  {
    var path, q: Path := [A(), Nth(k)], [A(), Nth(m)];
    CallsAllowed(s, Nth(k));
    assert q[1] != path[1];
    MakeEffect(s, own, path, FILE_MODE, false, ROOT_USER, q);
  }

  lemma FillOne(s: State, own: Owners, k: nat, next: nat) returns (t: State, own': Owners)
    requires Filled(s, own, k) && k < SLOTS && next == k + 1 && s.bfree >= 1
    ensures Allowed(s, CreateIn(Nth(k))) && t == After(s, CreateIn(Nth(k)))
    ensures Filled(t, own', next) && t.bfree == s.bfree - 1
  {
    OneMoreSlot(EntriesAt(s, [A()]), k, next);
    t, own' := WithFile(s, own, Nth(k), [A()]);
    StillMissing(s, own, k, next);
  }

  lemma {:induction false} FillUp(s: State, own: Owners, k: nat) returns (t: State, own': Owners)
    requires k <= SLOTS && Filled(s, own, k) && s.bfree >= SLOTS - k
    ensures AllAllowed(s, Creates(k)) && t == Run(s, Creates(k)) && Filled(t, own', SLOTS)
    decreases SLOTS - k
  {
    t, own' := s, own;
    if k < SLOTS {
      var next: nat := k + 1;
      var s1, own1 := FillOne(s, own, k, next);
      t, own' := FillUp(s1, own1, next);
      CreatesCons(k, next);
      RunCons(s, CreateIn(Nth(k)), Creates(next));
    }
  }

  /** mkdir /a on a fresh image, as the start of filling it. */
  lemma Unfilled(s: State, home: nat) returns (t: State, own: Owners)
    requires Fresh(s, home) && s.bfree >= 2
    ensures Allowed(s, MkdirA()) && t == After(s, MkdirA()) && Filled(t, own, 0) && t.bfree == s.bfree - 2
  {
    t, own := WithA(s, home, X(), X());
    forall m | 0 <= m < SLOTS
      ensures View(t.disk, [A(), Nth(m)]).Err?
    {
      NothingIn(s, home, Nth(m));
    }
  }

  lemma NothingIn(s: State, home: nat, n: Name)
    requires Fresh(s, home) && s.bfree >= 2
    ensures Allowed(s, MkdirA()) && View(After(s, MkdirA()).disk, [A(), n]).Err?
  {
    var t, own := WithA(s, home, n, n);
  }

  /** mkdir /a and 128 creates in it: rmdir of the full directory reports ENOSPC,
      where ENOTEMPTY is meant. */
  lemma RmdirOfAFullDirectory(s: State, home: nat) returns (t: State)
    requires Fresh(s, home) && s.bfree >= 130
    ensures AllAllowed(s, [MkdirA()] + Creates(0)) && t == Run(s, [MkdirA()] + Creates(0))
    ensures DirFull(EntriesAt(t, [A()])) && Allowed(t, RmdirA()) && PlanOf(t, RmdirA()).result == Err(ENOSPC)
  {
    var s1, own1 := Unfilled(s, home);
    var own2;
    t, own2 := FillUp(s1, own1, 0);
    RunCons(s, MkdirA(), Creates(0));
    FullRefused(t, own2);
  }

  lemma FullRefused(s: State, own: Owners)
    requires Filled(s, own, SLOTS)
    ensures DirFull(EntriesAt(s, [A()])) && Allowed(s, RmdirA()) && PlanOf(s, RmdirA()).result == Err(ENOSPC)
  {
    CallsAllowed(s, X());
    FileAt(s.disk, s.bits, own, [A()]);
    RmdirDecision(s, own, [A()]);
  }

  // ------------------------------------------------------------------------- crash

  /** create /a, with power lost after the second of its three block writes: the
      entry is on the disk, the mark of its inode is not. */
  lemma CreateCutShort(s: State, home: nat)
    requires Fresh(s, home) && s.bfree >= 1
    ensures Allowed(s, CreateA()) && PlanOf(s, CreateA()).result == Ok(0) && |PlanOf(s, CreateA()).writes| == 3
    ensures SafeOnDisk(s.disk) && !SafeOnDisk(DiskAfter(s, PlanOf(s, CreateA()), 2))
  {
    var own := FreshOwners(home);
    CallsAllowed(s, X());
    RootHasRoom(s, home);
    FreshViews(s, home, []);
    FreshViews(s, home, [A()]);
    Made(s, own, [A()], FILE_MODE, false, ROOT_USER);
    MakeKeeps(s, own, [A()], FILE_MODE, false, ROOT_USER);
    MakeCrash(s, own, CreateA(), 2);
    MountableIsSafe(s.disk, own);
  }
}
