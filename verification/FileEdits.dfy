/** chmod, truncate and write: each changes one inode and its own data blocks,
    so the invariant and every other path survive. */
module FileEdits {
  import opened Layout
  import opened Bitmap
  import opened Image
  import opened Ownership
  import opened Operations
  import opened Frames

  // -------------------------------------------------------------------- chmod

  function Chmodded(ino: Inode, mode: u32): Inode {
    ino.(mode := WithPermissions(ino.mode, mode))
  }

  lemma ChmodTouches(s: State, own: Owners, i: nat, mode: u32, d': Disk)
    requires Sound(s.disk, s.bits, own) && HasInode(own, i)
    requires |d'| == |s.disk| && Ino(d', i) == Chmodded(Ino(s.disk, i), mode)
    requires forall b :: b in own && b != i ==> Blk(d', b) == Blk(s.disk, b)
    ensures Touched(s.disk, d', own, own, i)
  {
    PermissionsKeepKind(Ino(s.disk, i).mode, mode);
    assert InodeOk(s.disk, own, i);
    ChmodOwned(s, own, i, mode, d');
  }

  lemma ChmodOwned(s: State, own: Owners, i: nat, mode: u32, d': Disk)
    requires Sound(s.disk, s.bits, own) && HasInode(own, i)
    requires |d'| == |s.disk| && Ino(d', i) == Chmodded(Ino(s.disk, i), mode)
    ensures InodeOk(d', own, i)
    ensures forall b: nat :: DataOf(own, b, i) ==> 2 <= b < |d'| && BlockOk(d', own, b)
  {
    PermissionsKeepKind(Ino(s.disk, i).mode, mode);
    assert InodeOk(s.disk, own, i);
    forall b: nat | DataOf(own, b, i)
      ensures 2 <= b < |d'| && BlockOk(d', own, b)
    {
      assert PlaceOk(s.disk, own, b) && BlockOk(s.disk, own, b);
    }
  }

  // ----------------------------------------------------------------- truncate

  /** Ownership once file i keeps only its first n blocks. */
  ghost function Dropped(own: Owners, i: nat, n: nat): Owners {
    map b | b in own && !(DataOf(own, b, i) && own[b].index >= n) :: own[b]
  }

  lemma CutSize(ino: Inode, len: nat)
    requires 0 <= ino.size <= MAX_FILE && NBlocks(len) <= Extent(ino)
    ensures len <= MAX_FILE && Cut(ino, len).size == len && Extent(Cut(ino, len)) == NBlocks(len)
  {
  }

  lemma CutOwned(s: State, own: Owners, i: nat, len: nat, d': Disk)
    requires Sound(s.disk, s.bits, own) && HasInode(own, i) && IsReg(Ino(s.disk, i))
    requires NBlocks(len) <= Extent(Ino(s.disk, i))
    requires |d'| == |s.disk| && Ino(d', i) == Cut(Ino(s.disk, i), len)
    ensures InodeOk(d', Dropped(own, i, NBlocks(len)), i)
    ensures forall b: nat :: DataOf(Dropped(own, i, NBlocks(len)), b, i) ==>
              2 <= b < |d'| && BlockOk(d', Dropped(own, i, NBlocks(len)), b)
  {
    var ino, own' := Ino(s.disk, i), Dropped(own, i, NBlocks(len));
    assert InodeOk(s.disk, own, i);
    CutSize(ino, len);
    forall k | 0 <= k < NBlocks(len)
      ensures Holds(own', Cut(ino, len).ptrs[k], FileData(i, k))
    {
      assert Holds(own, ino.ptrs[k], FileData(i, k));
    }
    assert FileInodeOk(own', i, Cut(ino, len));
    forall b: nat | DataOf(own', b, i)
      ensures 2 <= b < |d'| && BlockOk(d', own', b)
    {
      assert PlaceOk(s.disk, own, b) && BlockOk(s.disk, own, b);
    }
  }

  lemma TruncateTouches(s: State, own: Owners, i: nat, len: nat, d': Disk)
    requires Sound(s.disk, s.bits, own) && HasInode(own, i) && IsReg(Ino(s.disk, i))
    requires NBlocks(len) <= Extent(Ino(s.disk, i))
    requires |d'| == |s.disk| && Ino(d', i) == Cut(Ino(s.disk, i), len)
    requires forall b :: b in own && b != i ==> Blk(d', b) == Blk(s.disk, b)
    ensures Touched(s.disk, d', own, Dropped(own, i, NBlocks(len)), i)
  {
    assert InodeOk(s.disk, own, i);
    CutOwned(s, own, i, len, d');
  }

  /** A freed block is one the file held beyond the cut, and no other. */
  lemma FreedBlocks(s: State, own: Owners, i: nat, n: nat, b: nat)
    requires Sound(s.disk, s.bits, own) && HasInode(own, i) && IsReg(Ino(s.disk, i)) && n <= Extent(Ino(s.disk, i))
    ensures var ino := Ino(s.disk, i);
      b in ino.ptrs[n..Extent(ino)] <==> DataOf(own, b, i) && own[b].index >= n
  {
    var ino := Ino(s.disk, i);
    assert InodeOk(s.disk, own, i);
    if b in ino.ptrs[n..Extent(ino)] {
      var k :| n <= k < Extent(ino) && ino.ptrs[k] == b;
      assert Holds(own, ino.ptrs[k], FileData(i, k));
    }
    if DataOf(own, b, i) && own[b].index >= n {
      assert BlockOk(s.disk, own, b);
      assert ino.ptrs[n..Extent(ino)][own[b].index - n] == b;
    }
  }

  lemma PointersDistinct(s: State, own: Owners, i: nat, n: nat)
    requires Sound(s.disk, s.bits, own) && HasInode(own, i) && IsReg(Ino(s.disk, i)) && n <= Extent(Ino(s.disk, i))
    ensures Distinct(Ino(s.disk, i).ptrs[n..Extent(Ino(s.disk, i))])
  {
    var ino := Ino(s.disk, i);
    assert InodeOk(s.disk, own, i);
    forall j, k | n <= j < k < Extent(ino)
      ensures ino.ptrs[j] != ino.ptrs[k]
    {
      assert Holds(own, ino.ptrs[j], FileData(i, j)) && Holds(own, ino.ptrs[k], FileData(i, k));
    }
  }

  lemma TruncateMarks(s: State, own: Owners, i: nat, n: nat)
    requires Sound(s.disk, s.bits, own) && HasInode(own, i) && IsReg(Ino(s.disk, i)) && n <= Extent(Ino(s.disk, i))
    ensures var ino := Ino(s.disk, i);
      var bits := Mark(s.bits, ino.ptrs[n..Extent(ino)], false);
      && Marked(bits, Dropped(own, i, n))
      && (Exact(s.disk, s.bits, own) ==> Exact(s.disk, bits, Dropped(own, i, n)))
  {
    var ino := Ino(s.disk, i);
    var freed := ino.ptrs[n..Extent(ino)];
    forall b: nat | b < NBITS
      ensures Mark(s.bits, freed, false)[b] <==> s.bits[b] && !(DataOf(own, b, i) && own[b].index >= n)
      ensures b in own ==> b >= 2 && s.bits[b]
    {
      FreedBlocks(s, own, i, n, b);
      MarkAt(s.bits, freed, false, b);
      assert b in own ==> PlaceOk(s.disk, own, b);
    }
  }

  // -------------------------------------------------------------------- write

  ghost function IndexOf(list: seq<nat>, b: nat): (k: nat)
    requires b in list
    ensures k < |list| && list[k] == b
  {
    if list[0] == b then 0 else 1 + IndexOf(list[1..], b)
  }

  /** Ownership once file i holds the blocks of `got` from index `have` on. */
  ghost function Extended(own: Owners, i: nat, have: nat, got: seq<nat>): Owners {
    map b | b in own.Keys + (set g | g in got) :: if b in own then own[b] else FileData(i, have + IndexOf(got, b))
  }

  /** The allocator hands out blocks of the disk that nothing owns. */
  lemma FreshBlocks(s: State, own: Owners, n: nat, b: nat)
    requires Sound(s.disk, s.bits, own) && b in LowestFree(s.bits, 0, |s.disk|, n)
    ensures 2 <= b < |s.disk| && b !in own && !s.bits[b]
  {
    LowestFreeIsFree(s.bits, 0, |s.disk|, n, b);
  }

  lemma FreshDistinct(s: State, n: nat)
    ensures Distinct(LowestFree(s.bits, 0, |s.disk|, n))
  {
    LowestFreeIncreases(s.bits, 0, |s.disk|, n);
    IncreasingIsDistinct(LowestFree(s.bits, 0, |s.disk|, n));
  }

  /** A write of n bytes at off by inode i is past its checks. */
  ghost predicate Writable(s: State, own: Owners, i: nat, off: nat, n: nat) {
    && Sound(s.disk, s.bits, own) && HasInode(own, i)
    && IsReg(Ino(s.disk, i)) && off <= Ino(s.disk, i).size
    && HasRoom(s, i, off, n)
  }

  ghost function WriteOwn(s: State, own: Owners, i: nat, off: nat, n: nat): Owners {
    Extended(own, i, Extent(Ino(s.disk, i)), Extra(s, i, off, n))
  }

  lemma GrownExtent(ino: Inode, off: nat, n: nat, got: seq<nat>, now: u32)
    requires 0 <= ino.size <= MAX_FILE && off <= ino.size && WriteFits(off, n)
    requires |got| == Needed(ino, off, n) && forall k :: 0 <= k < |got| ==> got[k] < NBITS
    ensures Extent(ino) + |got| <= NPTRS
    ensures Extent(Grown(ino, Extent(ino), got, off + n, now)) == Extent(ino) + |got|
    ensures LastBlock(off, n) < Extent(ino) + |got| && off / 4096 <= LastBlock(off, n)
  {
  }

  lemma ExtendedIs(own: Owners, i: nat, have: nat, got: seq<nat>)
    requires Distinct(got) && forall k :: 0 <= k < |got| ==> got[k] !in own
    ensures var own' := Extended(own, i, have, got);
      && (forall b :: b in own ==> Holds(own', b, own[b]))
      && (forall k :: 0 <= k < |got| ==> Holds(own', got[k], FileData(i, have + k)))
      && (forall b :: b in own' ==> b in own || b in got)
  {
    forall k | 0 <= k < |got|
      ensures IndexOf(got, got[k]) == k
    {
    }
  }

  lemma ExtendedRoles(s: State, own: Owners, i: nat, off: nat, n: nat)
    requires Writable(s, own, i, off, n)
    ensures var got, own' := Extra(s, i, off, n), WriteOwn(s, own, i, off, n);
      && (forall b :: b in own ==> Holds(own', b, own[b]))
      && (forall k :: 0 <= k < |got| ==> got[k] !in own)
      && (forall k :: 0 <= k < |got| ==> Holds(own', got[k], FileData(i, Extent(Ino(s.disk, i)) + k)))
      && (forall b :: b in own' ==> b in own || b in got)
  {
    var need := Needed(Ino(s.disk, i), off, n);
    var got := Extra(s, i, off, n);
    FreshDistinct(s, need);
    forall k | 0 <= k < |got|
      ensures got[k] !in own
    {
      FreshBlocks(s, own, need, got[k]);
    }
    ExtendedIs(own, i, Extent(Ino(s.disk, i)), got);
  }

  /** Every pointer of the grown file leads to its own block. */
  lemma GrownOwned(s: State, own: Owners, i: nat, off: nat, n: nat, now: u32, k: nat)
    requires Writable(s, own, i, off, n)
    requires k < Extent(Ino(s.disk, i)) + Needed(Ino(s.disk, i), off, n)
    ensures k < NPTRS
    ensures Holds(WriteOwn(s, own, i, off, n), WrittenInode(s, i, off, n, now).ptrs[k], FileData(i, k))
  {
    var ino := Ino(s.disk, i);
    assert InodeOk(s.disk, own, i);
    GrownExtent(ino, off, n, Extra(s, i, off, n), now);
    ExtendedRoles(s, own, i, off, n);
    if k < Extent(ino) {
      assert Holds(own, ino.ptrs[k], FileData(i, k));
    }
  }

  lemma GrownInodeOk(s: State, own: Owners, i: nat, off: nat, n: nat, now: u32)
    requires Writable(s, own, i, off, n)
    ensures FileInodeOk(WriteOwn(s, own, i, off, n), i, WrittenInode(s, i, off, n, now))
    ensures Extent(WrittenInode(s, i, off, n, now)) == Extent(Ino(s.disk, i)) + Needed(Ino(s.disk, i), off, n)
  {
    var ino := Ino(s.disk, i);
    assert InodeOk(s.disk, own, i);
    GrownExtent(ino, off, n, Extra(s, i, off, n), now);
    forall k | 0 <= k < Extent(ino) + Needed(ino, off, n)
      ensures Holds(WriteOwn(s, own, i, off, n), WrittenInode(s, i, off, n, now).ptrs[k], FileData(i, k))
    {
      GrownOwned(s, own, i, off, n, now, k);
    }
  }

  lemma GrownBlockOk(s: State, own: Owners, i: nat, off: nat, n: nat, now: u32, d': Disk, b: nat)
    requires Writable(s, own, i, off, n) && DataOf(WriteOwn(s, own, i, off, n), b, i)
    requires |d'| == |s.disk| && Ino(d', i) == WrittenInode(s, i, off, n, now)
    ensures 2 <= b < |d'| && BlockOk(d', WriteOwn(s, own, i, off, n), b)
  {
    GrownBlockHeld(s, own, i, off, n, now, b);
    GrownInodeOk(s, own, i, off, n, now);
    ExtendedRoles(s, own, i, off, n);
  }

  /** Block b is one the grown file points to. */
  ghost predicate HeldAt(s: State, i: nat, off: nat, n: nat, now: u32, k: nat, b: nat)
    requires HasRoom(s, i, off, n)
  {
    && 2 <= b < |s.disk|
    && k < Extent(Ino(s.disk, i)) + Needed(Ino(s.disk, i), off, n) && k < NPTRS
    && WrittenInode(s, i, off, n, now).ptrs[k] == b
  }

  lemma GrownBlockHeld(s: State, own: Owners, i: nat, off: nat, n: nat, now: u32, b: nat)
    requires Writable(s, own, i, off, n) && DataOf(WriteOwn(s, own, i, off, n), b, i)
    ensures HeldAt(s, i, off, n, now, WriteOwn(s, own, i, off, n)[b].index, b)
  {
    ExtendedRoles(s, own, i, off, n);
    if b in own {
      assert Holds(WriteOwn(s, own, i, off, n), b, own[b]);
      OldBlockHeld(s, own, i, off, n, now, b);
    } else {
      NewBlockHeld(s, own, i, off, n, now, IndexOf(Extra(s, i, off, n), b));
    }
  }

  lemma OldBlockHeld(s: State, own: Owners, i: nat, off: nat, n: nat, now: u32, b: nat)
    requires Writable(s, own, i, off, n) && DataOf(own, b, i)
    ensures HeldAt(s, i, off, n, now, own[b].index, b)
  {
    assert PlaceOk(s.disk, own, b) && BlockOk(s.disk, own, b);
    assert InodeOk(s.disk, own, i);
    GrownExtent(Ino(s.disk, i), off, n, Extra(s, i, off, n), now);
  }

  lemma NewBlockHeld(s: State, own: Owners, i: nat, off: nat, n: nat, now: u32, k: nat)
    requires Writable(s, own, i, off, n) && k < |Extra(s, i, off, n)|
    ensures Holds(WriteOwn(s, own, i, off, n), Extra(s, i, off, n)[k], FileData(i, Extent(Ino(s.disk, i)) + k))
    ensures HeldAt(s, i, off, n, now, Extent(Ino(s.disk, i)) + k, Extra(s, i, off, n)[k])
  {
    assert InodeOk(s.disk, own, i);
    GrownExtent(Ino(s.disk, i), off, n, Extra(s, i, off, n), now);
    FreshBlocks(s, own, Needed(Ino(s.disk, i), off, n), Extra(s, i, off, n)[k]);
    ExtendedRoles(s, own, i, off, n);
  }

  /** The blocks a write may change: the bitmap, the inode, and the file's own data. */
  ghost predicate OwnTarget(own': Owners, i: nat, b: nat) {
    b == BITMAP_LBA || b == i || DataOf(own', b, i)
  }

  lemma WriteTouches(s: State, own: Owners, i: nat, off: nat, n: nat, now: u32, d': Disk)
    requires Writable(s, own, i, off, n)
    requires |d'| == |s.disk| && Ino(d', i) == WrittenInode(s, i, off, n, now)
    requires forall b: nat :: !OwnTarget(WriteOwn(s, own, i, off, n), i, b) ==> Blk(d', b) == Blk(s.disk, b)
    ensures Touched(s.disk, d', own, WriteOwn(s, own, i, off, n), i)
  {
    var own' := WriteOwn(s, own, i, off, n);
    ExtendedRoles(s, own, i, off, n);
    GrownInodeOk(s, own, i, off, n, now);
    forall b: nat | DataOf(own', b, i)
      ensures 2 <= b < |d'| && BlockOk(d', own', b)
    {
      GrownBlockOk(s, own, i, off, n, now, d', b);
    }
    forall b | b in own && b != i && !DataOf(own, b, i)
      ensures Blk(d', b) == Blk(s.disk, b)
    {
      assert PlaceOk(s.disk, own, b) && !OwnTarget(own', i, b);
    }
  }

  lemma WriteMarks(s: State, own: Owners, i: nat, off: nat, n: nat)
    requires Writable(s, own, i, off, n)
    ensures var bits, own' := WrittenBits(s, i, off, n), WriteOwn(s, own, i, off, n);
      && Marked(bits, own') && Marked(bits, own)
      && (Exact(s.disk, s.bits, own) ==> Exact(s.disk, bits, own'))
  {
    var got := Extra(s, i, off, n);
    ExtendedRoles(s, own, i, off, n);
    forall b: nat | b < NBITS
      ensures Mark(s.bits, got, true)[b] <==> b in got || s.bits[b]
      ensures b in own ==> s.bits[b]
    {
      MarkAt(s.bits, got, true, b);
    }
    forall b | b in got
      ensures 2 <= b < |s.disk|
    {
      FreshBlocks(s, own, Needed(Ino(s.disk, i), off, n), b);
    }
  }
}
