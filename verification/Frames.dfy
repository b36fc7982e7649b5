/** Changes confined to one inode and its own data blocks: they keep the
    invariant, and no other path notices them. */
module Frames {
  import opened Layout
  import opened Bitmap
  import opened Image
  import opened Ownership

  /** Block b belongs to the contents of file i. */
  ghost predicate DataOf(own: Owners, b: nat, i: nat) {
    b in own && own[b].FileData? && own[b].inode == i
  }

  /** Disk and ownership changed only in inode i and its file data. */
  ghost predicate Touched(d: Disk, d': Disk, own: Owners, own': Owners, i: nat) {
    && |d'| == |d|
    && HasInode(own, i)
    && (forall b :: b in own && b != i && !DataOf(own, b, i) ==> Blk(d', b) == Blk(d, b))
    && (forall b :: b in own && !DataOf(own, b, i) ==> Holds(own', b, own[b]))
    && (forall b :: b in own' && !DataOf(own', b, i) ==> Holds(own, b, own'[b]))
    && IsDir(Ino(d', i)) == IsDir(Ino(d, i))
    && (IsDir(Ino(d, i)) ==> Ino(d', i).ptrs[0] == Ino(d, i).ptrs[0])
    && InodeOk(d', own', i)
    && (forall b: nat :: DataOf(own', b, i) ==> 2 <= b < |d| && BlockOk(d', own', b))
  }

  lemma OtherInode(d: Disk, bits: Bits, d': Disk, own: Owners, own': Owners, i: nat, x: nat)
    requires Sound(d, bits, own) && Touched(d, d', own, own', i) && HasInode(own', x)
    ensures HasInode(own, x) && own'[x] == own[x]
    ensures x != i ==> Ino(d', x) == Ino(d, x) && InodeOk(d', own', x)
    ensures IsDir(Ino(d', x)) == IsDir(Ino(d, x)) && (IsDir(Ino(d, x)) ==> Ents(d', x) == Ents(d, x))
  {
    assert Holds(own, x, own'[x]);
    assert InodeOk(d, own, x);
    var ino := Ino(d, x);
    if IsDir(ino) {
      assert Holds(own, ino.ptrs[0], DirData(x));
      assert Holds(own', ino.ptrs[0], DirData(x));
    } else if x != i {
      forall k | 0 <= k < Extent(ino)
        ensures Holds(own', ino.ptrs[k], FileData(x, k))
      {
        assert Holds(own, ino.ptrs[k], FileData(x, k));
      }
    }
  }

  lemma TouchedShape(d: Disk, bits: Bits, d': Disk, own: Owners, own': Owners, i: nat)
    requires Sound(d, bits, own) && Touched(d, d', own, own', i)
    ensures Shape(d', own')
  {
    assert Holds(own, 2, Root) && Holds(own', 2, own[2]);
    OtherInode(d, bits, d', own, own', i, 2);
    forall b | b in own'
      ensures PlaceOk(d', own', b)
    {
      if !DataOf(own', b, i) {
        assert Holds(own, b, own'[b]) && PlaceOk(d, own, b);
      }
    }
  }

  lemma TouchedBlocks(d: Disk, bits: Bits, d': Disk, own: Owners, own': Owners, i: nat)
    requires Sound(d, bits, own) && Touched(d, d', own, own', i)
    ensures BlocksOk(d', own')
  {
    forall b | b in own'
      ensures BlockOk(d', own', b)
    {
      if !DataOf(own', b, i) {
        assert Holds(own, b, own'[b]) && BlockOk(d, own, b);
        var x := HomeOf(own, b);
        assert HasInode(own, x) && Holds(own', x, own[x]);
        OtherInode(d, bits, d', own, own', i, x);
      }
    }
  }

  ghost predicate InodesKept(own: Owners, own': Owners) {
    forall b :: HasInode(own, b) ==> Holds(own', b, own[b])
  }

  /** A directory stays well formed while the inodes keep their roles. */
  lemma DirOkKept(own: Owners, own': Owners, x: nat, dir: Directory)
    requires HasInode(own, x) && DirOk(own, x, dir) && InodesKept(own, own')
    ensures HasInode(own', x) && DirOk(own', x, dir)
  {
    assert Holds(own', x, own[x]);
    forall j | 0 <= j < SLOTS
      ensures EntryOk(own', x, dir[j], j)
    {
      assert EntryOk(own, x, dir[j], j);
      if dir[j].valid {
        assert HasInode(own, dir[j].inode);
      }
    }
  }

  lemma TouchedKeepsInodes(d: Disk, d': Disk, own: Owners, own': Owners, i: nat)
    requires Touched(d, d', own, own', i)
    ensures InodesKept(own, own') && InodesKept(own', own)
  {
  }

  lemma TouchedEntries(d: Disk, bits: Bits, d': Disk, own: Owners, own': Owners, i: nat)
    requires Sound(d, bits, own) && Touched(d, d', own, own', i)
    ensures EntriesOk(d', own')
  {
    TouchedKeepsInodes(d, d', own, own', i);
    forall x | HasInode(own', x) && IsDir(Ino(d', x))
      ensures DirOk(own', x, Ents(d', x))
    {
      OtherInode(d, bits, d', own, own', i, x);
      DirOkKept(own, own', x, Ents(d, x));
    }
  }

  /** A change confined to one inode keeps the whole image sound. */
  lemma TouchedSound(d: Disk, bits: Bits, d': Disk, bits': Bits, own: Owners, own': Owners, i: nat)
    requires Sound(d, bits, own) && Touched(d, d', own, own', i) && Marked(bits', own')
    ensures Sound(d', bits', own')
  {
    TouchedShape(d, bits, d', own, own', i);
    TouchedBlocks(d, bits, d', own, own', i);
    TouchedEntries(d, bits, d', own, own', i);
    forall x | HasInode(own', x)
      ensures InodeOk(d', own', x)
    {
      OtherInode(d, bits, d', own, own', i, x);
    }
  }

  lemma TouchedNamed(d: Disk, bits: Bits, d': Disk, own: Owners, own': Owners, i: nat, x: nat)
    requires Sound(d, bits, own) && Touched(d, d', own, own', i) && HasInode(own', x)
    ensures HasInode(own, x) && (NamedBy(d', own', x) <==> NamedBy(d, own, x))
  {
    TouchedKeepsInodes(d, d', own, own', i);
    if own'[x].Child? {
      var p := own'[x].dir;
      if HasInode(own, p) || HasInode(own', p) {
        OtherInode(d, bits, d', own, own', i, p);
      }
    }
  }

  /** ... and leaves no inode without its entry. */
  lemma TouchedAttached(d: Disk, bits: Bits, d': Disk, own: Owners, own': Owners, i: nat)
    requires Sound(d, bits, own) && Touched(d, d', own, own', i)
    ensures Attached(d', own') <==> Attached(d, own)
  {
    TouchedKeepsInodes(d, d', own, own', i);
    forall x | HasInode(own', x)
      ensures NamedBy(d', own', x) <==> NamedBy(d, own, x)
    {
      TouchedNamed(d, bits, d', own, own', i, x);
    }
  }

  // ------------------------------------------------------------------ lookups

  ghost predicate SameSteps(d: Disk, d': Disk, i: nat) {
    forall n: Name :: Step(d', i, n) == Step(d, i, n)
  }

  /** If no inode's entries changed, every path leads where it led before. */
  lemma {:induction false} SameResolve(d: Disk, bits: Bits, d': Disk, own: Owners, p: Path)
    requires Sound(d, bits, own)
    requires forall i :: HasInode(own, i) ==> SameSteps(d, d', i)
    ensures Resolve(d', p) == Resolve(d, p)
    decreases |p|
  {
    if p != [] {
      SameResolve(d, bits, d', own, Parent(p));
      ResolveSound(d, bits, own, Parent(p));
      if Resolve(d, Parent(p)).Ok? {
        assert SameSteps(d, d', Resolve(d, Parent(p)).value);
      }
    }
  }

  lemma TouchedSteps(d: Disk, bits: Bits, d': Disk, own: Owners, own': Owners, i: nat, x: nat)
    requires Sound(d, bits, own) && Touched(d, d', own, own', i) && HasInode(own, x)
    ensures SameSteps(d, d', x)
  {
    assert Holds(own', x, own[x]);
    OtherInode(d, bits, d', own, own', i, x);
    assert InodeOk(d, own, x) && PlaceOk(d, own, x);
    if IsDir(Ino(d, x)) {
      assert Holds(own, Ino(d, x).ptrs[0], DirData(x)) && PlaceOk(d, own, Ino(d, x).ptrs[0]);
      assert Ino(d', x).ptrs[0] == Ino(d, x).ptrs[0];
    }
  }

  lemma TouchedResolve(d: Disk, bits: Bits, d': Disk, own: Owners, own': Owners, i: nat, p: Path)
    requires Sound(d, bits, own) && Touched(d, d', own, own', i)
    ensures Resolve(d', p) == Resolve(d, p)
  {
    forall x | HasInode(own, x)
      ensures SameSteps(d, d', x)
    {
      TouchedSteps(d, bits, d', own, own', i, x);
    }
    SameResolve(d, bits, d', own, p);
  }

  /** What a path shows, once it is known where it leads. */
  lemma ViewOf(d: Disk, bits: Bits, own: Owners, p: Path)
    requires Sound(d, bits, own)
    ensures Resolve(d, p).Err? ==> View(d, p) == Err(Resolve(d, p).error)
    ensures Resolve(d, p).Ok? ==>
      var i := Resolve(d, p).value;
      PathInode(d, p) == Ok((i, Ino(d, i))) && View(d, p) == Ok(NodeOf(d, Ino(d, i)))
  {
    ResolveSound(d, bits, own, p);
    if Resolve(d, p).Ok? {
      assert PlaceOk(d, own, Resolve(d, p).value);
    }
  }

  /** An inode whose block and data blocks are unchanged shows the same thing. */
  lemma SameNode(d: Disk, bits: Bits, d': Disk, own: Owners, x: nat)
    requires Sound(d, bits, own) && HasInode(own, x)
    requires Blk(d', x) == Blk(d, x)
    requires forall b :: DataOf(own, b, x) ==> Blk(d', b) == Blk(d, b)
    ensures NodeOf(d', Ino(d', x)) == NodeOf(d, Ino(d, x))
  {
    var ino := Ino(d, x);
    assert InodeOk(d, own, x);
    if !IsDir(ino) {
      forall k | 0 <= k < ino.size
        ensures Content(d', ino)[k] == Content(d, ino)[k]
      {
        assert Holds(own, ino.ptrs[k / 4096], FileData(x, k / 4096));
      }
    }
  }

  /** Every other path shows what it showed before. */
  lemma TouchedView(d: Disk, bits: Bits, d': Disk, bits': Bits, own: Owners, own': Owners, i: nat, p: Path)
    requires Sound(d, bits, own) && Touched(d, d', own, own', i) && Marked(bits', own')
    requires Resolve(d, p) != Ok(i)
    ensures View(d', p) == View(d, p)
  {
    TouchedResolve(d, bits, d', own, own', i, p);
    TouchedSound(d, bits, d', bits', own, own', i);
    ViewOf(d, bits, own, p);
    ViewOf(d', bits', own', p);
    if Resolve(d, p).Ok? {
      var x := Resolve(d, p).value;
      ResolveSound(d, bits, own, p);
      assert !DataOf(own, x, i);
      SameNode(d, bits, d', own, x);
    }
  }

  /** A change confined to the inode a path names shows at that path and nowhere else. */
  lemma TouchedViews(d: Disk, bits: Bits, d': Disk, bits': Bits, own: Owners, own': Owners, i: nat, path: Path, q: Path)
    requires Sound(d, bits, own) && Touched(d, d', own, own', i) && Marked(bits', own')
    requires Resolve(d, path) == Ok(i)
    ensures Resolve(d', q) == Resolve(d, q)
    ensures View(d', q) == if q == path then Ok(NodeOf(d', Ino(d', i))) else View(d, q)
  {
    TouchedResolve(d, bits, d', own, own', i, q);
    if q == path {
      TouchedSound(d, bits, d', bits', own, own', i);
      ViewOf(d', bits', own', path);
    } else {
      if Resolve(d, q) == Ok(i) {
        OnePath(d, bits, own, path, q);
      }
      TouchedView(d, bits, d', bits', own, own', i, q);
    }
  }
}
