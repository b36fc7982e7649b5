/** The base case: a freshly made image, such as the one of disk2.in, satisfies
    the invariant, so every run from it does. */
module EmptyImage {
  import opened Layout
  import opened Bitmap
  import opened Image
  import opened Ownership
  import opened Operations
  import opened Runs

  /** Block `home` holds the entries of the root directory, none of them valid;
      the bitmap marks that block, the root inode and the two blocks before it. */
  ghost predicate Fresh(s: State, home: nat) {
    && 2 < home < |s.disk|
    && IsDir(Ino(s.disk, 2)) && Ino(s.disk, 2).size == BLOCK_SIZE && Ino(s.disk, 2).ptrs[0] == home
    && (forall j :: 0 <= j < SLOTS ==> !Ents(s.disk, 2)[j].valid && Ents(s.disk, 2)[j].name[NAME_MAX] == 0)
    && s.bits == Mark(seq(NBITS, _ => false), [0, 1, 2, home], true)
    && DiskBits(Blk(s.disk, BITMAP_LBA)) == s.bits
    && s.bfree == |s.disk| - 4 && s.bavail == |s.disk| - 4
  }

  ghost function FreshOwners(home: nat): Owners { map[2 := Root, home := DirData(2)] }

  lemma FreshBits(s: State, home: nat, b: nat)
    requires Fresh(s, home) && b < NBITS
    ensures s.bits[b] <==> b <= 2 || b == home
  {
    MarkAt(seq(NBITS, _ => false), [0, 1, 2, home], true, b);
  }

  lemma {:induction false} AllFree(bits: Bits, lo: nat, hi: nat)
    requires lo <= hi <= NBITS && forall b :: lo <= b < hi ==> !bits[b]
    ensures FreeIn(bits, lo, hi) == hi - lo
    decreases hi - lo
  {
    if lo < hi {
      AllFree(bits, lo + 1, hi);
    }
  }

  lemma FreshCounts(s: State, home: nat)
    requires Fresh(s, home)
    ensures Counted(s)
  {
    var none: Bits := seq(NBITS, _ => false);
    AllFree(none, 0, |s.disk|);
    FreeInMark(none, [0, 1, 2, home], true, |s.disk|);
  }

  /** The invariant holds, nothing leaks and the counters are right. */
  lemma FreshIsGood(s: State, home: nat)
    requires Fresh(s, home)
    ensures Good(s, FreshOwners(home)) && NothingLeaks(s.disk, s.bits) && Counted(s)
  {
    var own := FreshOwners(home);
    forall b: nat | b < NBITS
      ensures s.bits[b] <==> b <= 2 || b == home
    {
      FreshBits(s, home, b);
    }
    assert Holds(own, home, DirData(2)) && Holds(own, 2, Root);
    assert DirOk(own, 2, Ents(s.disk, 2));
    assert Sound(s.disk, s.bits, own);
    assert Attached(s.disk, own);
    LeaksAreOrphans(s.disk, s.bits, own);
    FreshCounts(s, home);
  }

  /** From a fresh image no run makes a used block unmarked; a careful one also
      leaks nothing and counts right. */
  lemma EveryRunIsSafe(s: State, home: nat, ops: seq<Op>)
    requires Fresh(s, home) && AllAllowed(s, ops)
    ensures NothingDangles(Run(s, ops).disk, Run(s, ops).bits)
    ensures Careful(s, ops) ==> NothingLeaks(Run(s, ops).disk, Run(s, ops).bits) && Counted(Run(s, ops))
  {
    FreshIsGood(s, home);
    var own := RunKeeps(s, FreshOwners(home), ops);
    if Careful(s, ops) {
      var own' := CarefulRun(s, FreshOwners(home), ops);
    }
  }

  // ------------------------------------------------------------------- disk2.in

  const ROOT_MODE: u32 := 0x41ff
  const CREATED: u32 := 1565283152
  const MODIFIED: u32 := 1565283167
  const HOME := 399

  /** The name of the two entries that are listed but not valid. */
  const NOTHING: seq<byte> := [110, 111, 116, 104, 105, 110, 103]

  function RootInode(): Inode {
    Inode(0, 0, ROOT_MODE, CREATED, MODIFIED, BLOCK_SIZE, NoPointers()[0 := HOME])
  }

  function RootEntry(j: nat): Dirent {
    Dirent(false, 0, StrnCpy(seq(28, _ => 0), if j < 2 then NOTHING else []))
  }

  function RootEntries(): Directory {
    seq(SLOTS, j requires 0 <= j < SLOTS => RootEntry(j))
  }

  const MAGIC: u32 := 0x30303635
  const DISK2_SIZE := 400

  function SuperWord(m: nat): u32 {
    if m == 0 then MAGIC else if m == 1 then DISK2_SIZE else 0
  }

  function SuperBlock(): Block {
    BytesOf(seq(NWORDS, m requires 0 <= m < NWORDS => SuperWord(m)))
  }

  ghost function Disk2Bits(): Bits { Mark(seq(NBITS, _ => false), [0, 1, 2, HOME], true) }

  ghost function Disk2Block(b: nat): Block {
    if b == 0 then SuperBlock() else if b == BITMAP_LBA then BitmapBlock(Disk2Bits())
    else if b == 2 then InodeBlock(RootInode()) else if b == HOME then DirBlock(RootEntries()) else Zeros()
  }

  ghost function Disk2(): State {
    State(seq(DISK2_SIZE, b requires 0 <= b < DISK2_SIZE => Disk2Block(b)), Disk2Bits(), 396, 396)
  }

  lemma RootInodeIs()
    ensures IsDir(RootInode()) && RootInode().size == BLOCK_SIZE && RootInode().ptrs[0] == HOME
    ensures forall j :: 0 <= j < SLOTS ==> !RootEntries()[j].valid && RootEntries()[j].name[NAME_MAX] == 0
  {
  }

  /** The 400-block image made from disk2.in is a fresh image. */
  lemma Disk2IsFresh()
    ensures Fresh(Disk2(), HOME)
  {
    var s := Disk2();
    assert forall b: nat :: b < 400 ==> Blk(s.disk, b) == Disk2Block(b);
    assert Ino(s.disk, 2) == RootInode();
    RootInodeIs();
    assert Ents(s.disk, 2) == RootEntries();
  }
}
