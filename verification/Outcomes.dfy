/** What each successful call leaves behind, field by field and block by block: the
    inode, the directory entries, the data, the bitmap, the counters, and the order
    of the block writes. Nothing here refers to how the operations compute it. */
module Outcomes {
  import opened Layout
  import opened Bitmap
  import opened Image
  import opened Ownership
  import opened Operations
  import opened FileEdits
  import opened FileEffects
  import opened WriteEffects
  import opened MakeEffects
  import opened RemoveEffects
  import opened Runs
  import opened Binary
  import Modes
  import RenameEffects

  /** The blocks written, in order. */
  function Targets(ws: seq<Write>): seq<nat> {
    seq(|ws|, k requires 0 <= k < |ws| => ws[k].lba)
  }

  /** Blocks other than those listed are what they were. */
  ghost predicate OnlyChanged(d: Disk, d': Disk, listed: seq<nat>) {
    |d'| == |d| && forall b: nat :: b < |d| && b !in listed ==> d'[b] == d[b]
  }

  lemma OnlyBlocks(d: Disk, d': Disk, listed: seq<nat>)
    requires |d'| == |d| && forall b: nat :: b !in listed ==> Blk(d', b) == Blk(d, b)
    ensures OnlyChanged(d, d', listed)
  {
    forall b: nat | b < |d| && b !in listed
      ensures d'[b] == d[b]
    {
      assert Blk(d', b) == Blk(d, b);
    }
  }

  // -------------------------------------------------------------------- chmod

  lemma NewPermissions(mode: u32, perm: u32)
    ensures var m := WithPermissions(mode, perm);
      && m / 0x200 == mode / 0x200 && m % 0x200 == perm % 0x200
      && m == Or.On(And.On(mode, Xor.On(0x1ff, 0xffff_ffff)), And.On(perm, 0x1ff))
  {
    Modes.PermissionBits(mode, perm);
  }

  /** chmod: the nine permission bits are replaced, and nothing else in the inode
      or on the disk changes. */
  lemma ChmodOutcome(s: State, own: Owners, path: Path, mode: u32)
    requires Safe(s, own) && ChmodPlan(s, path, mode).result.Ok?
    ensures Resolve(s.disk, path).Ok?
    ensures var i, p := Resolve(s.disk, path).value, ChmodPlan(s, path, mode);
      var t := Commit(s, p);
      var old', new' := Ino(s.disk, i), Ino(t.disk, i);
      && new' == old'.(mode := new'.mode)
      && new'.mode / 0x200 == old'.mode / 0x200 && new'.mode % 0x200 == mode % 0x200
      && new'.mode == Or.On(And.On(old'.mode, Xor.On(0x1ff, 0xffff_ffff)), And.On(mode, 0x1ff))
      && OnlyChanged(s.disk, t.disk, [i]) && Targets(p.writes) == [i]
      && t.bits == s.bits && t.bfree == s.bfree && t.bavail == s.bavail
  {
    FileAt(s.disk, s.bits, own, path);
    var i := Resolve(s.disk, path).value;
    ChmodDisk(s, own, path, mode);
    NewPermissions(Ino(s.disk, i).mode, mode);
    OnlyBlocks(s.disk, Commit(s, ChmodPlan(s, path, mode)).disk, [i]);
  }

  // ----------------------------------------------------------------- truncate

  /** Pointers from want up to have are -1 now, the others as they were. */
  ghost predicate CutOff(old': Pointers, new': Pointers, want: nat, have: nat) {
    forall k :: 0 <= k < 1019 ==> new'[k] == if want <= k < have then 0xffff_ffff else old'[k]
  }

  /** Marked are the blocks that were, without the listed ones. */
  ghost predicate OnlyFreed(bits: Bits, bits': Bits, freed: seq<nat>) {
    forall b :: 0 <= b < 32768 ==> (bits'[b] <==> bits[b] && b !in freed)
  }

  lemma MarkedFalse(bits: Bits, freed: seq<nat>)
    ensures OnlyFreed(bits, Mark(bits, freed, false), freed)
  {
    forall b | 0 <= b < 32768
      ensures Mark(bits, freed, false)[b] <==> bits[b] && b !in freed
    {
      MarkAt(bits, freed, false, b);
    }
  }

  lemma CutFields(ino: Inode, len: nat)
    requires 0 <= ino.size <= MAX_FILE && NBlocks(len) <= Extent(ino)
    ensures var cut := Cut(ino, len);
      && cut == ino.(size := len, ptrs := cut.ptrs)
      && CutOff(ino.ptrs, cut.ptrs, (len + 4095) / 4096, (ino.size + 4095) / 4096)
  {
    CutSize(ino, len);
  }

  lemma CutOutcome(s: State, own: Owners, i: nat, len: nat, t: State)
    requires Sound(s.disk, s.bits, own) && HasInode(own, i) && IsReg(Ino(s.disk, i))
    requires NBlocks(len) <= Extent(Ino(s.disk, i)) && t == Commit(s, TruncateFile(s, i, Ino(s.disk, i), len))
    ensures OnlyChanged(s.disk, t.disk, [i, 1]) && Ino(t.disk, i) == Cut(Ino(s.disk, i), len)
    ensures OnlyFreed(s.bits, t.bits, Ino(s.disk, i).ptrs[NBlocks(len)..Extent(Ino(s.disk, i))])
    ensures Targets(TruncateFile(s, i, Ino(s.disk, i), len).writes) == [i, 1]
  {
    TruncateDisk(s, own, i, len);
    OnlyBlocks(s.disk, t.disk, [i, 1]);
    CutBits(s, i, len);
  }

  lemma CutBits(s: State, i: nat, len: nat)
    requires NBlocks(len) <= Extent(Ino(s.disk, i))
    ensures var p, ino := TruncateFile(s, i, Ino(s.disk, i), len), Ino(s.disk, i);
      OnlyFreed(s.bits, p.bits, ino.ptrs[NBlocks(len)..Extent(ino)]) && Targets(p.writes) == [i, 1]
  {
    MarkedFalse(s.bits, Ino(s.disk, i).ptrs[NBlocks(len)..Extent(Ino(s.disk, i))]);
  }

  /** What truncate to len does to inode i, and to the rest. */
  ghost predicate TruncatedTo(s: State, t: State, i: nat, len: nat, written: seq<nat>) {
    var was, now := Ino(s.disk, i), Ino(t.disk, i);
    && 0 <= was.size <= 1019 * 4096
    && var want, have := (len + 4095) / 4096, (was.size + 4095) / 4096;
    && want <= have <= 1019
    && now == was.(size := len, ptrs := now.ptrs) && CutOff(was.ptrs, now.ptrs, want, have)
    && OnlyFreed(s.bits, t.bits, was.ptrs[want..have])
    && OnlyChanged(s.disk, t.disk, [i, 1]) && written == [i, 1]
    && t.bfree == s.bfree + (have - want) && t.bavail == s.bavail + (have - want)
  }

  /** truncate: the new size, -1 in exactly the pointers given up, the blocks they
      led to freed, and the inode written before the bitmap. */
  lemma TruncateOutcome(s: State, own: Owners, path: Path, len: nat)
    requires Safe(s, own) && TruncatePlan(s, path, len).result.Ok?
    ensures Resolve(s.disk, path).Ok?
    ensures var t := Commit(s, TruncatePlan(s, path, len));
      && TruncatedTo(s, t, Resolve(s.disk, path).value, len, Targets(TruncatePlan(s, path, len).writes))
      && |t.disk| > 1 && DiskBits(t.disk[1]) == t.bits
  {
    FileAt(s.disk, s.bits, own, path);
    var i, t := Resolve(s.disk, path).value, Commit(s, TruncatePlan(s, path, len));
    CutOutcome(s, own, i, len, t);
    CutFields(Ino(s.disk, i), len);
    TruncateKeeps(s, own, path, len);
    OnlyBitmapBlock(t);
  }

  lemma OnlyBitmapBlock(s: State)
    requires Synced(s) && |s.disk| > 1
    ensures DiskBits(s.disk[1]) == s.bits
  {
  }

  // ------------------------------------------------------------ unlink and rmdir

  /** Entry j is out of use, and every other bit of the directory as it was. */
  ghost predicate EntryGone(was: Directory, now: Directory, j: nat) {
    forall k :: 0 <= k < 128 ==> now[k] == if k == j then Dirent(false, was[k].inode, was[k].name) else was[k]
  }

  /** What removing inode x, entry j of directory i, does. */
  ghost predicate RemovedFrom(s: State, t: State, i: nat, j: nat, x: nat, written: seq<nat>) {
    var lba, gone := Ino(s.disk, i).ptrs[0], Ino(s.disk, x);
    && 0 <= gone.size <= 1019 * 4096 && lba < |t.disk| == |s.disk|
    && var have := (gone.size + 4095) / 4096;
    && have <= 1019
    && EntryGone(DirOf(s.disk[lba]), DirOf(t.disk[lba]), j)
    && OnlyFreed(s.bits, t.bits, [x] + gone.ptrs[..have])
    && OnlyChanged(s.disk, t.disk, [lba as nat, 1]) && written == [lba, 1]
    && t.bfree == s.bfree + have + 1 && t.bavail == s.bavail + have + 1
  }

  /** Path p leads through entry j of directory i to inode x. */
  ghost predicate NamedAt(d: Disk, p: Path, i: nat, j: nat, x: nat) {
    && p != [] && Resolve(d, Parent(p)) == Ok(i) && Resolve(d, p) == Ok(x) && j < 128
    && Ents(d, i)[j].valid && NameOf(Ents(d, i)[j]) == Last(p) && Ents(d, i)[j].inode == x
  }

  lemma SameFreed(bits: Bits, bits': Bits, freed: seq<nat>, freed': seq<nat>)
    requires OnlyFreed(bits, bits', freed) && forall b :: b in freed <==> b in freed'
    ensures OnlyFreed(bits, bits', freed')
  {
  }

  lemma FreedOf(s: State, own: Owners, x: nat, freed: seq<nat>)
    requires Sound(s.disk, s.bits, own) && HasInode(own, x) && FreesAll(own, x, freed)
    ensures var ino := Ino(s.disk, x);
      && 0 <= ino.size <= 1019 * 4096 && (ino.size + 4095) / 4096 == Extent(ino) <= 1019
      && (forall b :: b in freed <==> b in [x] + ino.ptrs[..Extent(ino)])
  {
    var ino := Ino(s.disk, x);
    assert InodeOk(s.disk, own, x);
    UnlinkFrees(s, own, x);
    assert forall b :: b in ino.ptrs[..Extent(ino)] + [x] <==> b in [x] + ino.ptrs[..Extent(ino)];
  }

  lemma ClearedBlocks(s: State, own: Owners, path: Path, i: nat, j: nat, x: nat, freed: seq<nat>, t: State)
    requires Removable(s, own, path, i, j, x) && t == Commit(s, Cleared(s, i, j, freed))
    ensures var lba := Ino(s.disk, i).ptrs[0];
      && lba < |s.disk| && OnlyChanged(s.disk, t.disk, [lba as nat, 1])
      && EntryGone(DirOf(s.disk[lba]), DirOf(t.disk[lba]), j)
      && Targets(Cleared(s, i, j, freed).writes) == [lba, 1]
  {
    var ws, lba := Cleared(s, i, j, freed).writes, Ino(s.disk, i).ptrs[0];
    assert InodeOk(s.disk, own, i) && PlaceOk(s.disk, own, lba);
    ApplyTwo(s.disk, ws[0], ws[1]);
    forall b: nat
      ensures Blk(t.disk, b) == if b == 1 then ws[1].data else if b == lba then ws[0].data else Blk(s.disk, b)
    {
      StoreAt(s.disk, ws[0], b);
      StoreAt(Store(s.disk, ws[0]), ws[1], b);
    }
    OnlyBlocks(s.disk, t.disk, [lba as nat, 1]);
  }

  lemma ClearedOutcome(s: State, own: Owners, path: Path, i: nat, j: nat, x: nat, freed: seq<nat>, t: State)
    requires Removable(s, own, path, i, j, x) && FreesAll(own, x, freed) && |freed| == Extent(Ino(s.disk, x)) + 1
    requires t == Commit(s, Cleared(s, i, j, freed))
    ensures RemovedFrom(s, t, i, j, x, Targets(Cleared(s, i, j, freed).writes))
  {
    ClearedBlocks(s, own, path, i, j, x, freed, t);
    FreedOf(s, own, x, freed);
    MarkedFalse(s.bits, freed);
    SameFreed(s.bits, t.bits, freed, [x] + Ino(s.disk, x).ptrs[..Extent(Ino(s.disk, x))]);
  }

  lemma UnlinkOutcome(s: State, own: Owners, path: Path) returns (i: nat, j: nat, x: nat)
    requires Safe(s, own) && path != [] && UnlinkPlan(s, path).result.Ok?
    ensures NamedAt(s.disk, path, i, j, x)
    ensures RemovedFrom(s, Commit(s, UnlinkPlan(s, path)), i, j, x, Targets(UnlinkPlan(s, path).writes))
  {
    FileAt(s.disk, s.bits, own, path);
    var freed;
    i, j, x, freed := UnlinkIs(s, own, path);
    ClearedOutcome(s, own, path, i, j, x, freed, Commit(s, UnlinkPlan(s, path)));
  }

  lemma RmdirOutcome(s: State, own: Owners, path: Path) returns (i: nat, j: nat, x: nat)
    requires Safe(s, own) && path != [] && RmdirPlan(s, path).result.Ok?
    ensures NamedAt(s.disk, path, i, j, x) && Ino(s.disk, x).size == 4096
    ensures RemovedFrom(s, Commit(s, RmdirPlan(s, path)), i, j, x, Targets(RmdirPlan(s, path).writes))
  {
    var freed;
    i, j, x, freed := RmdirIs(s, own, path);
    RmdirDecision(s, own, path);
    FileAt(s.disk, s.bits, own, path);
    assert InodeOk(s.disk, own, x);
    ClearedOutcome(s, own, path, i, j, x, freed, Commit(s, RmdirPlan(s, path)));
  }

  // ------------------------------------------------------------------- rename

  /** Entry j has the new name, padded with zeros; the rest is as it was. */
  ghost predicate EntryRenamed(was: Directory, now: Directory, j: nat, name: Name) {
    forall k :: 0 <= k < 128 ==>
      if k != j then now[k] == was[k]
      else
        && now[k].valid == was[k].valid && now[k].inode == was[k].inode
        && forall m :: 0 <= m < 28 ==> now[k].name[m] == if m < |name| then name[m] else 0
  }

  lemma RenameOutcome(s: State, own: Owners, src: Path, dst: Path) returns (i: nat, j: nat)
    requires Safe(s, own) && RenamePlan(s, src, dst).result.Ok?
    ensures dst != [] && Resolve(s.disk, src).Ok? && NamedAt(s.disk, src, i, j, Resolve(s.disk, src).value)
    ensures var p, lba := RenamePlan(s, src, dst), Ino(s.disk, i).ptrs[0];
      var t := Commit(s, p);
      && lba < |s.disk| == |t.disk| && EntryRenamed(DirOf(s.disk[lba]), DirOf(t.disk[lba]), j, Last(dst))
      && OnlyChanged(s.disk, t.disk, [lba as nat]) && Targets(p.writes) == [lba]
      && t.bits == s.bits && t.bfree == s.bfree && t.bavail == s.bavail
  {
    RenameEffects.RenameDecision(s, own, src, dst);
    i := Resolve(s.disk, Parent(src)).value;
    j := FindSlot(Ents(s.disk, i), Last(src), 0);
    FileAt(s.disk, s.bits, own, src);
    FoundIsRemovable(s, own, src);
    RenamedBlocks(s, own, i, j, Last(dst), Commit(s, RenamePlan(s, src, dst)));
  }

  lemma RenamedBlocks(s: State, own: Owners, i: nat, j: nat, name: Name, t: State)
    requires Sound(s.disk, s.bits, own) && HasInode(own, i) && IsDir(Ino(s.disk, i)) && j < SLOTS
    requires t == Commit(s, RenameEffects.RenamedBy(s, i, j, name))
    ensures var p, lba := RenameEffects.RenamedBy(s, i, j, name), Ino(s.disk, i).ptrs[0];
      && lba < |s.disk| == |t.disk| && EntryRenamed(DirOf(s.disk[lba]), DirOf(t.disk[lba]), j, name)
      && OnlyChanged(s.disk, t.disk, [lba as nat]) && Targets(p.writes) == [lba]
  {
    var w, lba := RenameEffects.RenamedBy(s, i, j, name).writes[0], Ino(s.disk, i).ptrs[0];
    assert InodeOk(s.disk, own, i) && PlaceOk(s.disk, own, lba);
    ApplyOne(s.disk, w);
    forall b: nat
      ensures Blk(t.disk, b) == if b == lba then w.data else Blk(s.disk, b)
    {
      StoreAt(s.disk, w, b);
    }
    OnlyBlocks(s.disk, t.disk, [lba as nat]);
  }

  // ------------------------------------------------------------ create and mkdir

  /** The new inode, in full. */
  ghost predicate NewInodeIs(ino: Inode, mode: u32, isDir: bool, y: nat, c: Caller) {
    && ino.uid == c.uid && ino.gid == c.gid && ino.mode == mode && ino.ctime == c.now && ino.mtime == c.now
    && ino.size == (if isDir then 4096 else 0)
    && forall k :: 0 <= k < 1019 ==> ino.ptrs[k] == if k == 0 && isDir then y else 0
  }

  /** Entry j names inode x, in the way strncpy leaves the field; the rest is as it was. */
  ghost predicate EntryAdded(was: Directory, now: Directory, j: nat, name: Name, x: nat) {
    forall k :: 0 <= k < 128 ==>
      if k != j then now[k] == was[k]
      else
        && now[k].valid && now[k].inode == x
        && forall m :: 0 <= m < 28 ==>
             now[k].name[m] == if m < |name| then name[m] else if m < 27 then 0 else was[k].name[27]
  }

  /** x is the lowest free block, and y the next. */
  ghost predicate TwoLowest(bits: Bits, hi: nat, x: nat, y: nat, two: bool) {
    && x < hi <= 32768 && !bits[x] && (forall b :: 0 <= b < x ==> bits[b])
    && (two ==> x < y < hi && !bits[y] && forall b :: x < b < y ==> bits[b])
  }

  lemma LowestTwo(bits: Bits, hi: nat, n: nat)
    requires hi <= NBITS && 1 <= n <= 2 && |LowestFree(bits, 0, hi, n)| == n
    ensures var got := LowestFree(bits, 0, hi, n);
      TwoLowest(bits, hi, got[0], if n == 2 then got[1] else 0, n == 2)
  {
    var got := LowestFree(bits, 0, hi, n);
    LowestFreeIncreases(bits, 0, hi, n);
    forall k | 0 <= k < n
      ensures !bits[got[k]]
    {
      LowestFreeIsFree(bits, 0, hi, n, got[k]);
    }
    assert got[0] in got && (n == 2 ==> got[1] in got);
    forall b | 0 <= b < got[n - 1] && b !in got
      ensures bits[b]
    {
      if !bits[b] {
        LowestFreeIsLowest(bits, 0, hi, n, b);
      }
    }
  }

  /** What making entry j of directory i does; y is the block of a new directory. */
  ghost predicate MadeAt(s: State, t: State, i: nat, j: nat, x: nat, y: nat, name: Name, mode: u32, isDir: bool,
          c: Caller, written: seq<nat>) {
    var lba := Ino(s.disk, i).ptrs[0];
    && lba < |s.disk| == |t.disk| && TwoLowest(s.bits, |s.disk|, x, y, isDir)
    && j < 128 && !DirOf(s.disk[lba])[j].valid && (forall k :: 0 <= k < j ==> DirOf(s.disk[lba])[k].valid)
    && NewInodeIs(InodeOf(t.disk[x]), mode, isDir, y, c)
    && EntryAdded(DirOf(s.disk[lba]), DirOf(t.disk[lba]), j, name, x)
    && (isDir ==> forall m :: 0 <= m < 4096 ==> t.disk[y][m] == 0)
    && (forall b :: 0 <= b < 32768 ==> (t.bits[b] <==> s.bits[b] || b == x || (isDir && b == y)))
    && OnlyChanged(s.disk, t.disk, if isDir then [x, lba as nat, y, 1] else [x, lba as nat, 1])
    && written == (if isDir then [x, lba, y, 1] else [x, lba, 1])
    && var n := if isDir then 2 else 1;
    t.bfree == s.bfree - n && t.bavail == s.bavail - n
  }

  lemma MadeBits(bits: Bits, got: seq<nat>, isDir: bool)
    requires |got| == MakeCount(isDir)
    ensures forall b :: 0 <= b < 32768 ==>
              (Mark(bits, got, true)[b] <==> bits[b] || b == got[0] || (isDir && b == got[1]))
  {
    forall b | 0 <= b < 32768
      ensures Mark(bits, got, true)[b] <==> bits[b] || b == got[0] || (isDir && b == got[1])
    {
      MarkAt(bits, got, true, b);
    }
  }

  lemma MadeBlocks(s: State, own: Owners, path: Path, i: nat, mode: u32, isDir: bool, c: Caller, t: State)
    requires Makeable(s, own, path, i, isDir) && RightKind(mode, isDir)
    requires t == Commit(s, MadeBy(s, i, Last(path), mode, isDir, c))
    ensures var lba, j, x, y := Ino(s.disk, i).ptrs[0], FreeSlot(Ents(s.disk, i), 0), Allotted(s, isDir)[0],
        if isDir then Allotted(s, isDir)[1] else 0;
      && lba < |s.disk| == |t.disk| && x < |s.disk| && y < |s.disk|
      && NewInodeIs(InodeOf(t.disk[x]), mode, isDir, y, c)
      && EntryAdded(DirOf(s.disk[lba]), DirOf(t.disk[lba]), j, Last(path), x)
      && (isDir ==> t.disk[y] == Zeros())
      && OnlyChanged(s.disk, t.disk, if isDir then [x, lba as nat, y, 1] else [x, lba as nat, 1])
  {
    var lba, x, y := Ino(s.disk, i).ptrs[0], Allotted(s, isDir)[0], if isDir then Allotted(s, isDir)[1] else 0;
    AllottedFresh(s, own, i, isDir);
    MadeDisk(s, own, path, i, mode, isDir, c, x);
    MadeDisk(s, own, path, i, mode, isDir, c, lba);
    MadeDisk(s, own, path, i, mode, isDir, c, y);
    forall b: nat | b !in if isDir then [x, lba as nat, y, 1] else [x, lba as nat, 1]
      ensures Blk(t.disk, b) == Blk(s.disk, b)
    {
      MadeDisk(s, own, path, i, mode, isDir, c, b);
    }
    OnlyBlocks(s.disk, t.disk, if isDir then [x, lba as nat, y, 1] else [x, lba as nat, 1]);
  }

  lemma MadeOutcome(s: State, own: Owners, path: Path, i: nat, mode: u32, isDir: bool, c: Caller, t: State)
    requires Makeable(s, own, path, i, isDir) && RightKind(mode, isDir)
    requires t == Commit(s, MadeBy(s, i, Last(path), mode, isDir, c))
    ensures var j, x := FreeSlot(Ents(s.disk, i), 0), Allotted(s, isDir)[0];
      var y := if isDir then Allotted(s, isDir)[1] else 0;
      MadeAt(s, t, i, j, x, y, Last(path), mode, isDir, c, Targets(MadeBy(s, i, Last(path), mode, isDir, c).writes))
  {
    MadeBlocks(s, own, path, i, mode, isDir, c, t);
    MadeBits(s.bits, Allotted(s, isDir), isDir);
    LowestTwo(s.bits, |s.disk|, MakeCount(isDir));
  }

  lemma MakeOutcome(s: State, own: Owners, path: Path, mode: u32, isDir: bool, c: Caller)
    returns (i: nat, j: nat, x: nat, y: nat)
    requires Safe(s, own) && 0 < |path| <= MAX_PATH_LEN && RightKind(mode, isDir)
    requires MakePlan(s, path, mode, isDir, c).result.Ok?
    ensures Resolve(s.disk, Parent(path)) == Ok(i) && (!isDir ==> y == 0)
    ensures var t := Commit(s, MakePlan(s, path, mode, isDir, c));
      && Resolve(t.disk, path) == Ok(x)
      && MadeAt(s, t, i, j, x, y, Last(path), mode, isDir, c, Targets(MakePlan(s, path, mode, isDir, c).writes))
  {
    MakeKeeps(s, own, path, mode, isDir, c);
    i := Target(s, Parent(path));
    j, x, y := FreeSlot(Ents(s.disk, i), 0), Allotted(s, isDir)[0], if isDir then Allotted(s, isDir)[1] else 0;
    MadeOutcome(s, own, path, i, mode, isDir, c, Commit(s, MakePlan(s, path, mode, isDir, c)));
    MakeResolve(s, own, path, i, mode, isDir, c, path);
  }

  /** create: a file of the mode given. */
  lemma CreateOutcome(s: State, own: Owners, path: Path, mode: u32, c: Caller) returns (i: nat, j: nat, x: nat)
    requires Safe(s, own) && Allowed(s, Create(path, mode, c)) && PlanOf(s, Create(path, mode, c)).result.Ok?
    ensures Resolve(s.disk, Parent(path)) == Ok(i)
    ensures var t := After(s, Create(path, mode, c));
      && Resolve(t.disk, path) == Ok(x)
      && MadeAt(s, t, i, j, x, 0, Last(path), mode, false, c, Targets(PlanOf(s, Create(path, mode, c)).writes))
  {
    var y;
    i, j, x, y := MakeOutcome(s, own, path, mode, false, c);
  }

  /** mkdir: a directory with the permissions asked for and the directory bit. */
  lemma MkdirOutcome(s: State, own: Owners, path: Path, perm: u32, c: Caller) returns (i: nat, j: nat, x: nat, y: nat)
    requires Safe(s, own) && Allowed(s, Mkdir(path, perm, c)) && PlanOf(s, Mkdir(path, perm, c)).result.Ok?
    ensures Or.On(perm, 0x4000) == (if Kind(perm) == 0 then perm + 0x4000 else perm) < 0x1_0000_0000
    ensures Resolve(s.disk, Parent(path)) == Ok(i)
    ensures var t := After(s, Mkdir(path, perm, c));
      && Resolve(t.disk, path) == Ok(x)
      && MadeAt(s, t, i, j, x, y, Last(path), Or.On(perm, 0x4000), true, c,
          Targets(PlanOf(s, Mkdir(path, perm, c)).writes))
  {
    Modes.DirectoryBit(perm);
    i, j, x, y := MakeOutcome(s, own, path, DirMode(perm), true, c);
  }

  // -------------------------------------------------------------------- write

  /** The pointers from have on are the new blocks, as many as there are; the
      others, also those behind them, as they were. */
  ghost predicate PointersGrown(was: Pointers, now: Pointers, have: nat, got: seq<nat>) {
    have + |got| <= 1019 &&
    forall k :: 0 <= k < 1019 ==> now[k] == if have <= k < have + |got| then got[k - have] else was[k]
  }

  /** The lowest free blocks below hi, in increasing order. */
  ghost predicate LowestOf(bits: Bits, hi: nat, got: seq<nat>) {
    && hi <= 32768 && Increasing(got)
    && (forall k :: 0 <= k < |got| ==> got[k] < hi && !bits[got[k]])
    && (forall b :: 0 <= b < hi && !bits[b] ==> b in got || forall k :: 0 <= k < |got| ==> got[k] < b)
  }

  lemma LowestIs(bits: Bits, hi: nat, n: nat)
    requires hi <= NBITS && |LowestFree(bits, 0, hi, n)| == n
    ensures LowestOf(bits, hi, LowestFree(bits, 0, hi, n))
  {
    var got := LowestFree(bits, 0, hi, n);
    LowestFreeIncreases(bits, 0, hi, n);
    forall k | 0 <= k < n
      ensures got[k] < hi && !bits[got[k]]
    {
      LowestFreeIsFree(bits, 0, hi, n, got[k]);
    }
    forall b, k | 0 <= b < hi && !bits[b] && b !in got && 0 <= k < |got|
      ensures got[k] < b
    {
      LowestFreeIsLowest(bits, 0, hi, n, b);
      assert got[k] in got;
    }
  }

  lemma GrownFields(ino: Inode, off: nat, n: nat, got: seq<nat>, now: u32)
    requires 0 <= ino.size <= MAX_FILE && off <= ino.size && WriteFits(off, n)
    requires |got| == Needed(ino, off, n) && forall k :: 0 <= k < |got| ==> got[k] < NBITS
    ensures Extent(ino) + |got| <= NPTRS
    ensures var grown := Grown(ino, Extent(ino), got, off + n, now);
      && grown == ino.(size := if off + n > ino.size then off + n else ino.size, mtime := now, ptrs := grown.ptrs)
      && PointersGrown(ino.ptrs, grown.ptrs, (ino.size + 4095) / 4096, got)
  {
    GrownExtent(ino, off, n, got, now);
  }

  /** Byte m of block p of the file once buf is written at off: a byte of buf, or
      what the block held, or zero where a first or second block is filled up. */
  function ByteLeft(held: Block, have: nat, first: nat, last: nat, off: nat, buf: seq<byte>, p: nat, m: nat): byte
    requires m < 4096
  {
    var k := 4096 * p + m;
    if off <= k < off + |buf| then buf[k - off]
    else if p < have || have > 1 || (have == 1 && first == last) then held[m]
    else 0
  }

  /** Blocks first..last of the file hold that. */
  ghost predicate DataLeft(d: Disk, d': Disk, ptrs: Pointers, have: nat, first: nat, last: nat, off: nat,
      buf: seq<byte>) {
    last < 1019 && forall p, m :: first <= p <= last && 0 <= m < 4096 ==>
      Blk(d', ptrs[p])[m] == ByteLeft(Blk(d, ptrs[p]), have, first, last, off, buf, p, m)
  }

  lemma ChunkLeft(d: Disk, ptrs: Pointers, size: nat, off: nat, buf: seq<byte>, p: nat, m: nat, bytes: seq<byte>,
          chunk: seq<byte>)
    requires WriteFits(off, |buf|) && off <= size <= MAX_FILE && m < 4096
    requires off / 4096 <= p <= LastBlock(off, |buf|)
    requires bytes == WriteBuffer(d, ptrs, NBlocks(size), off / 4096, LastBlock(off, |buf|), off, buf)
    requires chunk == Chunk(bytes, p - off / 4096)
    ensures chunk[m] == ByteLeft(Blk(d, ptrs[p]), NBlocks(size), off / 4096, LastBlock(off, |buf|), off, buf, p, m)
  {
    var first, last := off / 4096, LastBlock(off, |buf|);
    var at := 4096 * (p - first) + m;
    assert chunk[m] == bytes[at];
    BufferAt(d, ptrs, NBlocks(size), off, buf, at);
    Places(size, off, |buf|, p, m);
  }

  lemma BufferAt(d: Disk, ptrs: Pointers, have: nat, off: nat, buf: seq<byte>, at: nat)
    requires WriteFits(off, |buf|) && at < 4096 * (LastBlock(off, |buf|) - off / 4096 + 1)
    ensures var first, last := off / 4096, LastBlock(off, |buf|);
      WriteBuffer(d, ptrs, have, first, last, off, buf)[at] ==
        if off % 4096 <= at < off % 4096 + |buf| then buf[at - off % 4096]
        else if have > 1 && at >= 4096 * (last - first) then Blk(d, ptrs[last])[at - 4096 * (last - first)]
        else if have > 0 && at < 4096 then Blk(d, ptrs[first])[at]
        else 0
  {
  }

  /** A byte of the range that the caller does not write lies in the first or in
      the last block; and in the first only if the file has it. */
  lemma Places(size: nat, off: nat, n: nat, p: nat, m: nat)
    requires WriteFits(off, n) && off <= size && m < 4096 && off / 4096 <= p <= LastBlock(off, n)
    ensures var k := 4096 * p + m;
      && (off <= k < off + n <==> off % 4096 <= k - 4096 * (off / 4096) < off % 4096 + n)
      && (k < off ==> p == off / 4096 && p < NBlocks(size))
      && (k >= off + n ==> p == LastBlock(off, n))
  {
  }

  lemma BlockLeft(s: State, own: Owners, i: nat, buf: seq<byte>, off: nat, now: u32, p: nat, m: nat)
    requires Writable(s, own, i, off, |buf|) && off / 4096 <= p <= LastBlock(off, |buf|) && m < 4096
    ensures p < 1019
    ensures var ptrs := WrittenInode(s, i, off, |buf|, now).ptrs;
      Blk(Apply(s.disk, Writes(s, i, buf, off, now)), ptrs[p])[m] ==
        ByteLeft(Blk(s.disk, ptrs[p]), Extent(Ino(s.disk, i)), off / 4096, LastBlock(off, |buf|), off, buf, p, m)
  {
    var ws, h, bytes := Writes(s, i, buf, off, now), |HeadWrites(s, i, off, |buf|, now)|,
        DataBytes(s, i, buf, off, now);
    var grown, own' := WrittenInode(s, i, off, |buf|, now), WriteOwn(s, own, i, off, |buf|);
    WritableSize(s, own, i, off, |buf|);
    GrownExtent(Ino(s.disk, i), off, |buf|, Extra(s, i, off, |buf|), now);
    TargetOwned(s, own, i, off, |buf|, now, p);
    WritesAreRun(s, own, i, buf, off, now);
    assert ws[..h] == HeadWrites(s, i, off, |buf|, now);
    RunLeft(s.disk, own', i, InodeBlock(grown), grown.ptrs, ws, h, Ino(s.disk, i).size, off, buf, bytes, p, m);
  }

  lemma RunLeft(d: Disk, own: Owners, i: nat, iblock: Block, ptrs: Pointers, ws: seq<Write>, h: nat, size: nat,
          off: nat, buf: seq<byte>, bytes: seq<byte>, p: nat, m: nat)
    requires WriteFits(off, |buf|) && off <= size <= MAX_FILE && m < 4096
    requires off / 4096 <= p <= LastBlock(off, |buf|) < NPTRS
    requires WriteRun(d, own, i, iblock, ptrs, ws, h, off / 4096, LastBlock(off, |buf|), bytes)
    requires bytes == WriteBuffer(Apply(d, ws[..h]), ptrs, NBlocks(size), off / 4096, LastBlock(off, |buf|), off, buf)
    requires Holds(own, ptrs[p], FileData(i, p)) && ptrs[p] != BITMAP_LBA
    ensures Blk(Apply(d, ws), ptrs[p])[m] ==
            ByteLeft(Blk(d, ptrs[p]), NBlocks(size), off / 4096, LastBlock(off, |buf|), off, buf, p, m)
  {
    var first, last := off / 4096, LastBlock(off, |buf|);
    RunBlock(d, own, i, iblock, ptrs, ws, h, first, last, bytes, p);
    RunElsewhere(d, own, i, iblock, ptrs, ws, h, first, last, bytes, h, ptrs[p]);
    ChunkLeft(Apply(d, ws[..h]), ptrs, size, off, buf, p, m, bytes, Chunk(bytes, p - first));
  }

  /** The blocks a write stores, in order. */
  function WrittenInOrder(i: nat, ptrs: Pointers, first: nat, last: nat, grows: bool): seq<nat>
    requires first <= last < 1019
  {
    (if grows then [1, i]
        else [i]) + seq(last + 1 - first, k requires 0 <= k < last + 1 - first => ptrs[first + k] as nat)
  }

  /** The blocks of the run that is issued. */
  lemma RunTargets(d: Disk, own: Owners, i: nat, iblock: Block, ptrs: Pointers, ws: seq<Write>, h: nat, first: nat,
          last: nat, bytes: seq<byte>)
    requires WriteRun(d, own, i, iblock, ptrs, ws, h, first, last, bytes) && h <= 2
    ensures Targets(ws) == WrittenInOrder(i, ptrs, first, last, h == 2)
  {
    forall k | 0 <= k < |ws|
      ensures Targets(ws)[k] == WrittenInOrder(i, ptrs, first, last, h == 2)[k]
    {
      if k >= h {
        var m := k - h;
        assert DataWriteOk(d, own, i, ptrs, ws[h + m], first + m, Chunk(bytes, m));
      }
    }
  }

  lemma RunChanges(d: Disk, own: Owners, i: nat, iblock: Block, ptrs: Pointers, ws: seq<Write>, h: nat, first: nat,
          last: nat, bytes: seq<byte>)
    requires WriteRun(d, own, i, iblock, ptrs, ws, h, first, last, bytes) && h <= 2
    ensures OnlyChanged(d, Apply(d, ws), WrittenInOrder(i, ptrs, first, last, h == 2))
  {
    var listed := WrittenInOrder(i, ptrs, first, last, h == 2);
    RunTargets(d, own, i, iblock, ptrs, ws, h, first, last, bytes);
    forall b: nat | b < |d| && b !in listed
      ensures Apply(d, ws)[b] == d[b]
    {
      forall k | 0 <= k < |ws|
        ensures ws[k].lba != b
      {
        assert Targets(ws)[k] in listed;
      }
      ApplyElsewhere(d, ws, b);
    }
  }

  /** The inode a write leaves. */
  ghost predicate InodeLeft(was: Inode, now: Inode, off: nat, n: nat, clock: u32, got: seq<nat>) {
    && was.size >= 0 && off + n <= 1019 * 4096
    && now == was.(size := if off + n > was.size then off + n else was.size, mtime := clock, ptrs := now.ptrs)
    && PointersGrown(was.ptrs, now.ptrs, (was.size + 4095) / 4096, got)
  }

  /** What writing buf at off does to file i and to the rest. */
  ghost predicate WrittenAs(s: State, t: State, i: nat, buf: seq<byte>, off: nat, clock: u32, got: seq<nat>,
      written: seq<nat>) {
    var was, now, end := Ino(s.disk, i), Ino(t.disk, i), off + |buf|;
    && off <= was.size <= 1019 * 4096 && 0 < end <= 1019 * 4096
    && var have, first, last := (was.size + 4095) / 4096, off / 4096, (end - 1) / 4096;
    && first <= last
    && |got| == (if last + 1 > have then last + 1 - have else 0) && LowestOf(s.bits, |s.disk|, got)
    && InodeLeft(was, now, off, |buf|, clock, got)
    && DataLeft(s.disk, t.disk, now.ptrs, have, first, last, off, buf)
    && (forall b :: 0 <= b < 32768 ==> (t.bits[b] <==> s.bits[b] || b in got))
    && written == WrittenInOrder(i, now.ptrs, first, last, got != [])
    && OnlyChanged(s.disk, t.disk, written)
    && t.bfree == s.bfree - (last + 1 - have) && t.bavail == s.bavail - (last + 1 - have)
  }

  lemma MarkedTrue(bits: Bits, got: seq<nat>)
    ensures forall b :: 0 <= b < 32768 ==> (Mark(bits, got, true)[b] <==> bits[b] || b in got)
  {
    forall b | 0 <= b < 32768
      ensures Mark(bits, got, true)[b] <==> bits[b] || b in got
    {
      MarkAt(bits, got, true, b);
    }
  }

  lemma WrittenData(s: State, own: Owners, i: nat, buf: seq<byte>, off: nat, now: u32, d': Disk)
    requires Writable(s, own, i, off, |buf|) && d' == Apply(s.disk, Writes(s, i, buf, off, now))
    ensures DataLeft(s.disk, d', WrittenInode(s, i, off, |buf|, now).ptrs, Extent(Ino(s.disk, i)), off / 4096,
                     LastBlock(off, |buf|), off, buf)
  {
    var ptrs := WrittenInode(s, i, off, |buf|, now).ptrs;
    BlockLeft(s, own, i, buf, off, now, LastBlock(off, |buf|), 0);
    forall p, m | off / 4096 <= p <= LastBlock(off, |buf|) && 0 <= m < 4096
      ensures Blk(d', ptrs[p])[m] ==
              ByteLeft(Blk(s.disk, ptrs[p]), Extent(Ino(s.disk, i)), off / 4096, LastBlock(off, |buf|), off, buf, p, m)
    {
      BlockLeft(s, own, i, buf, off, now, p, m);
    }
  }

  /** The order of the writes, and what they leave alone. */
  lemma WrittenRun(s: State, own: Owners, i: nat, buf: seq<byte>, off: nat, now: u32)
    requires Writable(s, own, i, off, |buf|)
    ensures off / 4096 <= LastBlock(off, |buf|) < 1019
    ensures var written := WrittenInOrder(i, WrittenInode(s, i, off, |buf|, now).ptrs, off / 4096,
        LastBlock(off, |buf|),
                                          Extra(s, i, off, |buf|) != []);
      && Targets(Writes(s, i, buf, off, now)) == written
      && OnlyChanged(s.disk, Apply(s.disk, Writes(s, i, buf, off, now)), written)
  {
    var ws, h, bytes := Writes(s, i, buf, off, now), |HeadWrites(s, i, off, |buf|, now)|,
        DataBytes(s, i, buf, off, now);
    var grown, own' := WrittenInode(s, i, off, |buf|, now), WriteOwn(s, own, i, off, |buf|);
    WritesAreRun(s, own, i, buf, off, now);
    RunTargets(s.disk, own', i, InodeBlock(grown), grown.ptrs, ws, h, off / 4096, LastBlock(off, |buf|), bytes);
    RunChanges(s.disk, own', i, InodeBlock(grown), grown.ptrs, ws, h, off / 4096, LastBlock(off, |buf|), bytes);
  }

  lemma InodeStored(s: State, own: Owners, i: nat, buf: seq<byte>, off: nat, now: u32, d': Disk)
    requires Writable(s, own, i, off, |buf|) && d' == Apply(s.disk, Writes(s, i, buf, off, now))
    ensures Ino(d', i) == WrittenInode(s, i, off, |buf|, now)
  {
    WriteFileEffect(s, own, i, buf, off, now);
  }

  lemma InodeIsLeft(s: State, own: Owners, i: nat, off: nat, n: nat, now: u32)
    requires Writable(s, own, i, off, n)
    ensures InodeLeft(Ino(s.disk, i), WrittenInode(s, i, off, n, now), off, n, now, Extra(s, i, off, n))
  {
    WritableSize(s, own, i, off, n);
    GrownFields(Ino(s.disk, i), off, n, Extra(s, i, off, n), now);
  }

  /** The blocks a write takes. */
  lemma TakenBlocks(s: State, own: Owners, i: nat, off: nat, n: nat)
    requires Writable(s, own, i, off, n)
    ensures var was, got := Ino(s.disk, i), Extra(s, i, off, n);
      && 0 < off + n && off <= was.size <= 1019 * 4096 && Extent(was) == (was.size + 4095) / 4096
      && var have, last := (was.size + 4095) / 4096, (off + n - 1) / 4096;
      && LastBlock(off, n) == last && |got| == (if last + 1 > have then last + 1 - have else 0)
      && LowestOf(s.bits, |s.disk|, got)
  {
    WritableSize(s, own, i, off, n);
    BlocksTo(off, n);
    LowestIs(s.bits, |s.disk|, Needed(Ino(s.disk, i), off, n));
  }

  lemma WrittenOutcome(s: State, own: Owners, i: nat, buf: seq<byte>, off: nat, now: u32, t: State)
    requires Writable(s, own, i, off, |buf|) && t == Commit(s, WriteFile(s, i, buf, off, now))
    ensures WrittenAs(s, t, i, buf, off, now, Extra(s, i, off, |buf|), Targets(WriteFile(s, i, buf, off, now).writes))
  {
    TakenBlocks(s, own, i, off, |buf|);
    InodeStored(s, own, i, buf, off, now, t.disk);
    InodeIsLeft(s, own, i, off, |buf|, now);
    WrittenRun(s, own, i, buf, off, now);
    WrittenData(s, own, i, buf, off, now, t.disk);
    MarkedTrue(s.bits, Extra(s, i, off, |buf|));
  }

  /** write: size and clock, the new pointers and only those, the bytes of every
      block it stores, past the end of the file too, the blocks taken, the order of
      the writes, and nothing else. */
  lemma WriteOutcome(s: State, own: Owners, path: Path, buf: seq<byte>, off: nat, now: u32) returns (got: seq<nat>)
    requires Safe(s, own) && WriteDefined(s, path, off, |buf|) && WritePlan(s, path, buf, off, now).result.Ok?
    ensures Resolve(s.disk, path).Ok? && WritePlan(s, path, buf, off, now).result == Ok(|buf|)
    ensures var t := Commit(s, WritePlan(s, path, buf, off, now));
      && WrittenAs(s, t, Resolve(s.disk, path).value, buf, off, now, got,
          Targets(WritePlan(s, path, buf, off, now).writes))
      && |t.disk| > 1 && DiskBits(t.disk[1]) == t.bits
  {
    WriteDecision(s, own, path, buf, off, now);
    var i, t := Resolve(s.disk, path).value, Commit(s, WritePlan(s, path, buf, off, now));
    got := Extra(s, i, off, |buf|);
    WrittenOutcome(s, own, i, buf, off, now, t);
    WriteKeeps(s, own, path, buf, off, now);
    OnlyBitmapBlock(t);
  }
}
