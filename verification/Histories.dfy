/** The pointers past the end of a file, over whole runs: -1 in exactly those places
    where the file once had a block, whatever else was called in between. They decide
    whether a read that crosses the end of the file fails. */
module Histories {
  import opened Layout
  import opened Image
  import opened Ownership
  import opened Operations
  import opened Runs
  import opened Outcomes
  import DirEdits
  import FileEdits
  import FileEffects
  import MakeEffects
  import Reads
  import RemoveEffects
  import RenameEffects
  import WriteEffects

  /** Inode x is a file. */
  ghost predicate IsFile(s: State, own: Owners, x: nat) {
    HasInode(own, x) && IsReg(Ino(s.disk, x))
  }

  /** The call does not remove inode x. */
  ghost predicate Spares(s: State, op: Op, x: nat)
    requires Allowed(s, op)
  {
    (op.Unlink? || op.Rmdir?) && PlanOf(s, op).result.Ok? ==> Target(s, op.path) != x
  }

  /** The pointers past the end of a file after one step: a block given up leaves
      -1, all others are what they were. */
  ghost predicate Stepped(was: Inode, now: Inode) {
    forall k :: Extent(now) <= k < 1019 ==> now.ptrs[k] == if k < Extent(was) then 0xffff_ffff else was.ptrs[k]
  }

  // ------------------------------------------------------------------ one call

  lemma MakeSteps(s: State, own: Owners, path: Path, mode: u32, isDir: bool, c: Caller, x: nat)
    requires Safe(s, own) && IsFile(s, own, x) && 0 < |path| <= MAX_PATH_LEN && MakeEffects.RightKind(mode, isDir)
    requires MakePlan(s, path, mode, isDir, c).result.Ok?
    ensures HasInode(MadeOwn(s, own, path, isDir), x)
    ensures Ino(Commit(s, MakePlan(s, path, mode, isDir, c)).disk, x) == Ino(s.disk, x)
  {
    MakeKeeps(s, own, path, mode, isDir, c);
    var i := Target(s, Parent(path));
    MakeEffects.AllottedFresh(s, own, i, isDir);
    MakeEffects.NewRolesAre(s, own, i, isDir);
    FileEffects.OwnedAboveBitmap(s.disk, s.bits, own, x);
    MakeEffects.MadeDisk(s, own, path, i, mode, isDir, c, x);
  }

  lemma ClearedSteps(s: State, own: Owners, path: Path, i: nat, j: nat, y: nat, freed: seq<nat>, x: nat, t: State)
    requires Safe(s, own) && IsFile(s, own, x) && RemoveEffects.Removable(s, own, path, i, j, y) && y != x
    requires t == Commit(s, RemoveEffects.Cleared(s, i, j, freed))
    ensures HasInode(DirEdits.Without(own, y), x) && Ino(t.disk, x) == Ino(s.disk, x)
  {
    ClearedBlocks(s, own, path, i, j, y, freed, t);
    FileEffects.OwnedAboveBitmap(s.disk, s.bits, own, x);
    assert InodeOk(s.disk, own, i);
    assert Holds(own, Ino(s.disk, i).ptrs[0], DirData(i));
  }

  lemma RemovalSteps(s: State, own: Owners, op: Op, x: nat)
    requires Safe(s, own) && IsFile(s, own, x) && Allowed(s, op) && (op.Unlink? || op.Rmdir?)
    requires PlanOf(s, op).result.Ok? && Target(s, op.path) != x
    ensures HasInode(DirEdits.Without(own, Target(s, op.path)), x)
    ensures Ino(After(s, op).disk, x) == Ino(s.disk, x)
  {
    var i, j, y, freed := RemovalOf(s, own, op);
    ClearedSteps(s, own, op.path, i, j, y, freed, x, After(s, op));
  }

  lemma RenameSteps(s: State, own: Owners, src: Path, dst: Path, x: nat)
    requires Safe(s, own) && IsFile(s, own, x) && RenamePlan(s, src, dst).result.Ok?
    ensures Ino(Commit(s, RenamePlan(s, src, dst)).disk, x) == Ino(s.disk, x)
  {
    RenameEffects.RenameDecision(s, own, src, dst);
    var i := Target(s, Parent(src));
    RenamedSteps(s, own, i, FindSlot(Ents(s.disk, i), Last(src), 0), Last(dst), x);
  }

  lemma RenamedSteps(s: State, own: Owners, i: nat, j: nat, name: Name, x: nat)
    requires Safe(s, own) && IsFile(s, own, x) && HasInode(own, i) && IsDir(Ino(s.disk, i)) && j < SLOTS
    ensures Ino(Commit(s, RenameEffects.RenamedBy(s, i, j, name)).disk, x) == Ino(s.disk, x)
  {
    RenamedBlocks(s, own, i, j, name, Commit(s, RenameEffects.RenamedBy(s, i, j, name)));
    FileEffects.OwnedAboveBitmap(s.disk, s.bits, own, x);
    assert InodeOk(s.disk, own, i);
    assert Holds(own, Ino(s.disk, i).ptrs[0], DirData(i));
  }

  lemma ChmodSteps(s: State, own: Owners, path: Path, mode: u32, x: nat)
    requires Safe(s, own) && IsFile(s, own, x) && ChmodPlan(s, path, mode).result.Ok?
    ensures var t := Commit(s, ChmodPlan(s, path, mode));
      IsFile(t, own, x) && Extent(Ino(t.disk, x)) == Extent(Ino(s.disk, x))
          && Ino(t.disk, x).ptrs == Ino(s.disk, x).ptrs
  {
    ChmodOutcome(s, own, path, mode);
    OtherThan(s, own, Commit(s, ChmodPlan(s, path, mode)), Resolve(s.disk, path).value, x);
    SameKind(Ino(s.disk, x).mode, Ino(Commit(s, ChmodPlan(s, path, mode)).disk, x).mode);
  }

  /** An inode that is not in block i stays when only that block and the bitmap change. */
  lemma OtherThan(s: State, own: Owners, t: State, i: nat, x: nat)
    requires Safe(s, own) && HasInode(own, x)
    requires OnlyChanged(s.disk, t.disk, [i]) || OnlyChanged(s.disk, t.disk, [i, 1])
    ensures x != i ==> Ino(t.disk, x) == Ino(s.disk, x)
  {
    FileEffects.OwnedAboveBitmap(s.disk, s.bits, own, x);
  }

  lemma SameKind(m: u32, n: u32)
    ensures m / 0x200 == n / 0x200 ==> Kind(m) == Kind(n)
  {
    assert m / 0x200 / 8 == m / 0x1000 && n / 0x200 / 8 == n / 0x1000;
  }

  lemma CutSteps(was: Inode, now: Inode, len: nat)
    requires 0 <= was.size <= MAX_FILE && (len + 4095) / 4096 <= (was.size + 4095) / 4096
    requires now == was.(size := now.size, ptrs := now.ptrs) && now.size == len
    requires CutOff(was.ptrs, now.ptrs, (len + 4095) / 4096, (was.size + 4095) / 4096)
    ensures Stepped(was, now)
  {
  }

  lemma TruncateSteps(s: State, own: Owners, path: Path, len: nat, x: nat)
    requires Safe(s, own) && IsFile(s, own, x) && TruncatePlan(s, path, len).result.Ok?
    ensures var t := Commit(s, TruncatePlan(s, path, len));
      && IsFile(t, FileEdits.Dropped(own, Target(s, path), NBlocks(len)), x)
      && Stepped(Ino(s.disk, x), Ino(t.disk, x))
  {
    var t, i := Commit(s, TruncatePlan(s, path, len)), Target(s, path);
    TruncateOutcome(s, own, path, len);
    OtherThan(s, own, t, i, x);
    if i == x {
      CutSteps(Ino(s.disk, x), Ino(t.disk, x), len);
    }
  }

  lemma WriteStepsOwn(s: State, own: Owners, x: nat, off: nat, n: nat, now: u32)
    requires FileEdits.Writable(s, own, x, off, n)
    ensures Stepped(Ino(s.disk, x), WrittenInode(s, x, off, n, now)) && IsReg(WrittenInode(s, x, off, n, now))
  {
    InodeIsLeft(s, own, x, off, n, now);
    FileEdits.GrownInodeOk(s, own, x, off, n, now);
    TakenBlocks(s, own, x, off, n);
  }

  lemma WriteFileSteps(s: State, own: Owners, i: nat, buf: seq<byte>, off: nat, now: u32, x: nat, t: State)
    requires FileEdits.Writable(s, own, i, off, |buf|) && IsFile(s, own, x)
    requires t == Commit(s, WriteFile(s, i, buf, off, now))
    ensures IsFile(t, FileEdits.WriteOwn(s, own, i, off, |buf|), x) && Stepped(Ino(s.disk, x), Ino(t.disk, x))
  {
    WriteEffects.WriteFileEffect(s, own, i, buf, off, now);
    if i == x {
      WriteStepsOwn(s, own, i, off, |buf|, now);
    }
  }

  lemma WriteSteps(s: State, own: Owners, path: Path, buf: seq<byte>, off: nat, now: u32, x: nat)
    requires Safe(s, own) && IsFile(s, own, x)
    requires WriteDefined(s, path, off, |buf|) && WritePlan(s, path, buf, off, now).result.Ok?
    ensures var t := Commit(s, WritePlan(s, path, buf, off, now));
      && IsFile(t, FileEdits.WriteOwn(s, own, Target(s, path), off, |buf|), x)
      && Stepped(Ino(s.disk, x), Ino(t.disk, x))
  {
    WriteEffects.WriteDecision(s, own, path, buf, off, now);
    WriteFileSteps(s, own, Target(s, path), buf, off, now, x, Commit(s, WritePlan(s, path, buf, off, now)));
  }

  /** The pointer a read past the end follows, after a write: the one the file had
      there before. */
  lemma SpareAfterWrite(s: State, own: Owners, path: Path, buf: seq<byte>, off: nat, now: u32, beyond: u32)
    requires Safe(s, own) && WriteDefined(s, path, off, |buf|) && WritePlan(s, path, buf, off, now).result.Ok?
    ensures var t, i := Commit(s, WritePlan(s, path, buf, off, now)), Target(s, path);
      && Resolve(t.disk, path) == Ok(i)
      && (Extent(Ino(t.disk, i)) < 1019 ==>
            Reads.SparePointer(t.disk, path, beyond) == Ino(s.disk, i).ptrs[Extent(Ino(t.disk, i))])
  {
    WriteEffects.WriteDecision(s, own, path, buf, off, now);
    var i := Target(s, path);
    WriteEffects.WriteViews(s, own, path, buf, off, now, path);
    WriteStepsOwn(s, own, i, off, |buf|, now);
    FileEdits.GrownInodeOk(s, own, i, off, |buf|, now);
    WriteEffects.WriteFileEffect(s, own, i, buf, off, now);
  }

  /** Whatever the call, unless it removes the file. */
  lemma PointersStep(s: State, own: Owners, op: Op, x: nat)
    requires Safe(s, own) && IsFile(s, own, x) && Allowed(s, op) && Spares(s, op, x)
    ensures IsFile(After(s, op), OwnAfter(s, own, op), x)
    ensures Stepped(Ino(s.disk, x), Ino(After(s, op).disk, x))
  {
    if PlanOf(s, op).result.Err? {
      FailedCallChangesNothing(s, op);
    } else {
      match op
      case Create(p, mode, c) => MakeSteps(s, own, p, mode, false, c, x);
      case Mkdir(p, perm, c) => MakeSteps(s, own, p, DirMode(perm), true, c, x);
      case Unlink(p) => RemovalSteps(s, own, op, x);
      case Rmdir(p) => RemovalSteps(s, own, op, x);
      case Rename(src, dst) => RenameSteps(s, own, src, dst, x);
      case Chmod(p, mode) => ChmodSteps(s, own, p, mode, x);
      case Truncate(p, len) => TruncateSteps(s, own, p, len, x);
      case WriteAt(p, buf, off, now) => WriteSteps(s, own, p, buf, off, now, x);
    }
  }

  // ----------------------------------------------------------------- whole runs

  ghost predicate AllSpare(s: State, ops: seq<Op>, x: nat)
    requires AllAllowed(s, ops)
    decreases |ops|
  {
    ops == [] || (Spares(s, ops[0], x) && AllSpare(After(s, ops[0]), ops[1..], x))
  }

  /** The greatest number of blocks file x has at any time of the run. */
  ghost function Peak(s: State, ops: seq<Op>, x: nat): nat
    requires AllAllowed(s, ops)
    decreases |ops|
  {
    var n := Extent(Ino(s.disk, x));
    if ops == [] then n
    else
      var later := Peak(After(s, ops[0]), ops[1..], x);
      if n > later then n else later
  }

  /** Past the end there is -1 below the peak, and above it what was there before. */
  ghost predicate Remembers(was: Inode, now: Inode, peak: nat) {
    && Extent(was) <= peak && Extent(now) <= peak
    && forall k :: Extent(now) <= k < 1019 ==> now.ptrs[k] == if k < peak then 0xffff_ffff else was.ptrs[k]
  }

  lemma RemembersMore(was: Inode, mid: Inode, now: Inode, later: nat, peak: nat)
    requires Stepped(was, mid) && Remembers(mid, now, later)
    requires peak == if Extent(was) > later then Extent(was) else later
    ensures Remembers(was, now, peak)
  {
  }

  /** After any run that spares the file, its pointers past the end are -1 exactly
      where it once had a block, and what they were at the start elsewhere. */
  lemma {:induction false} PointersAfter(s: State, own: Owners, ops: seq<Op>, x: nat) returns (own': Owners)
    requires Safe(s, own) && IsFile(s, own, x) && AllAllowed(s, ops) && AllSpare(s, ops, x)
    ensures Safe(Run(s, ops), own') && IsFile(Run(s, ops), own', x)
    ensures Remembers(Ino(s.disk, x), Ino(Run(s, ops).disk, x), Peak(s, ops, x))
    decreases |ops|
  {
    own' := own;
    if ops != [] {
      PointersStep(s, own, ops[0], x);
      StepKeeps(s, own, ops[0]);
      var t := After(s, ops[0]);
      own' := PointersAfter(t, OwnAfter(s, own, ops[0]), ops[1..], x);
      RemembersMore(Ino(s.disk, x), Ino(t.disk, x), Ino(Run(s, ops).disk, x), Peak(t, ops[1..], x), Peak(s, ops, x));
    }
  }

  /** A read that crosses the end of a file fails exactly when the pointer after
      its last block cannot be followed. */
  lemma CrossingRead(t: State, own: Owners, x: nat, q: Path, n: nat, off: nat, beyond: u32, size: nat)
    requires Safe(t, own) && IsFile(t, own, x) && Resolve(t.disk, q) == Ok(x) && Ino(t.disk, x).size == size
    requires off < size < off + n && (size + 4095) / 4096 < 1019
    ensures Extent(Ino(t.disk, x)) == (size + 4095) / 4096
    ensures ReadResult(t.disk, q, n, off, beyond) == Err(EIO) <==> Ino(t.disk, x).ptrs[(size + 4095) / 4096] >= |t.disk|
  {
    FileEffects.FileAt(t.disk, t.bits, own, q);
    Reads.ReadEffect(t.disk, t.bits, own, q, n, off, beyond);
  }

  /** A read that crosses the end of file x, at path q by then, in terms of the
      pointer that was there at the start of the run. */
  lemma ReadAcrossEnd(s: State, own: Owners, ops: seq<Op>, x: nat, q: Path, n: nat, off: nat, beyond: u32, size: nat)
    requires Safe(s, own) && IsFile(s, own, x) && AllAllowed(s, ops) && AllSpare(s, ops, x)
    requires Resolve(Run(s, ops).disk, q) == Ok(x) && Ino(Run(s, ops).disk, x).size == size
    requires off < size < off + n && (size + 4095) / 4096 < 1019
    ensures var last := (size + 4095) / 4096;
      ReadResult(Run(s, ops).disk, q, n, off, beyond) == Err(EIO) <==>
        last < Peak(s, ops, x) || Ino(s.disk, x).ptrs[last] >= |s.disk|
  {
    var own' := PointersAfter(s, own, ops, x);
    RunSize(s, ops);
    CrossingRead(Run(s, ops), own', x, q, n, off, beyond, size);
  }

  lemma {:induction false} RunSize(s: State, ops: seq<Op>)
    requires AllAllowed(s, ops)
    ensures |Run(s, ops).disk| == |s.disk|
    decreases |ops|
  {
    if ops != [] {
      RunSize(After(s, ops[0]), ops[1..]);
    }
  }

  /** From its creation on: a read that crosses the end of a file fails exactly when
      the file once had more blocks than it has now. */
  lemma ReadFailsIffShrunk(s: State, own: Owners, path: Path, mode: u32, c: Caller, ops: seq<Op>, q: Path, n: nat,
          off: nat, beyond: u32, size: nat)
    requires Safe(s, own) && Allowed(s, Create(path, mode, c)) && PlanOf(s, Create(path, mode, c)).result.Ok?
    requires var s0 := After(s, Create(path, mode, c));
      && AllAllowed(s0, ops) && Resolve(s0.disk, path).Ok? && AllSpare(s0, ops, Resolve(s0.disk, path).value)
      && Resolve(Run(s0, ops).disk, q) == Resolve(s0.disk, path)
      && Ino(Run(s0, ops).disk, Resolve(s0.disk, path).value).size == size
    requires off < size < off + n && (size + 4095) / 4096 < 1019
    ensures var s0 := After(s, Create(path, mode, c));
      ReadResult(Run(s0, ops).disk, q, n, off, beyond) == Err(EIO) <==>
        (size + 4095) / 4096 < Peak(s0, ops, Resolve(s0.disk, path).value)
  {
    var s0, own0 := After(s, Create(path, mode, c)), OwnAfter(s, own, Create(path, mode, c));
    var i, j, x := CreateOutcome(s, own, path, mode, c);
    StepKeeps(s, own, Create(path, mode, c));
    FileEffects.FileAt(s0.disk, s0.bits, own0, path);
    ReadAcrossEnd(s0, own0, ops, x, q, n, off, beyond, size);
  }
}
