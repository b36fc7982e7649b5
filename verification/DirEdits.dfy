/** Directory changes, as three moves on the owned image: plant an inode nothing
    names yet, rewrite one slot of one directory, prune an inode nothing names. */
module DirEdits {
  import opened Layout
  import opened Bitmap
  import opened Image
  import opened Ownership
  import Frames

  // --------------------------------------------------- changes nobody can see

  /** The invariant looks only at owned blocks. */
  lemma UnownedIrrelevant(d: Disk, d': Disk, bits: Bits, own: Owners)
    requires Sound(d, bits, own) && |d'| == |d|
    requires forall b :: b in own ==> Blk(d', b) == Blk(d, b)
    ensures Sound(d', bits, own)
    ensures Attached(d', own) <==> Attached(d, own)
  {
    forall i | HasInode(own, i)
      ensures Ino(d', i) == Ino(d, i) && (IsDir(Ino(d, i)) ==> Ents(d', i) == Ents(d, i))
    {
      assert InodeOk(d, own, i);
    }
    SameOwned(d, d', bits, own);
  }

  /** ... through the inodes and directories they hold. */
  lemma SameOwned(d: Disk, d': Disk, bits: Bits, own: Owners)
    requires Sound(d, bits, own) && |d'| == |d|
    requires forall i :: HasInode(own, i) ==>
               Ino(d', i) == Ino(d, i) && (IsDir(Ino(d, i)) ==> Ents(d', i) == Ents(d, i))
    ensures Sound(d', bits, own)
    ensures Attached(d', own) <==> Attached(d, own)
  {
    assert HasInode(own, 2);
    forall b | b in own
      ensures PlaceOk(d', own, b) && BlockOk(d', own, b)
    {
      assert PlaceOk(d, own, b) && BlockOk(d, own, b);
    }
    forall i | HasInode(own, i)
      ensures InodeOk(d', own, i) && (NamedBy(d', own, i) <==> NamedBy(d, own, i))
    {
      assert InodeOk(d, own, i);
    }
  }

  // ------------------------------------------------------------ slots and names

  lemma FindSlotIs(dir: Directory, name: Name, k: nat)
    requires UniqueNames(dir) && k < SLOTS && dir[k].valid && NameOf(dir[k]) == name
    ensures FindSlot(dir, name, 0) == k
  {
  }

  lemma FindSlotNone(dir: Directory, name: Name)
    requires forall k :: 0 <= k < SLOTS && dir[k].valid ==> NameOf(dir[k]) != name
    ensures FindSlot(dir, name, 0) == SLOTS
  {
  }

  /** Slot j of directory i now holds e; every other owned block is unchanged. */
  ghost predicate SlotEdited(d: Disk, d': Disk, own: Owners, i: nat, j: nat, e: Dirent) {
    && |d'| == |d|
    && HasInode(own, i) && IsDir(Ino(d, i)) && j < SLOTS
    && DirOf(Blk(d', Ino(d, i).ptrs[0])) == Ents(d, i)[j := e]
    && forall b :: b in own && b != Ino(d, i).ptrs[0] ==> Blk(d', b) == Blk(d, b)
  }

  lemma EditedInode(d: Disk, bits: Bits, d': Disk, own: Owners, i: nat, j: nat, e: Dirent, x: nat)
    requires Sound(d, bits, own) && SlotEdited(d, d', own, i, j, e) && HasInode(own, x)
    ensures Blk(d', x) == Blk(d, x) && Ino(d', x) == Ino(d, x)
    ensures IsDir(Ino(d, x)) ==> Ents(d', x) == if x == i then Ents(d, i)[j := e] else Ents(d, x)
    ensures forall b :: Frames.DataOf(own, b, x) ==> Blk(d', b) == Blk(d, b)
  {
    assert InodeOk(d, own, x) && InodeOk(d, own, i);
    assert Holds(own, Ino(d, i).ptrs[0], DirData(i));
  }

  /** Rewriting a slot keeps the image sound if the new entry is a good one. */
  lemma SlotEditSound(d: Disk, bits: Bits, d': Disk, own: Owners, i: nat, j: nat, e: Dirent)
    requires Sound(d, bits, own) && SlotEdited(d, d', own, i, j, e)
    requires EntryOk(own, i, e, j) && UniqueNames(Ents(d, i)[j := e])
    ensures Sound(d', bits, own)
  {
    EditedShape(d, bits, d', own, i, j, e);
    forall x | HasInode(own, x) && IsDir(Ino(d', x))
      ensures DirOk(own, x, Ents(d', x))
    {
      EditedEntries(d, bits, d', own, i, j, e, x);
    }
  }

  lemma EditedEntries(d: Disk, bits: Bits, d': Disk, own: Owners, i: nat, j: nat, e: Dirent, x: nat)
    requires Sound(d, bits, own) && SlotEdited(d, d', own, i, j, e)
    requires EntryOk(own, i, e, j) && UniqueNames(Ents(d, i)[j := e])
    requires HasInode(own, x) && IsDir(Ino(d', x))
    ensures DirOk(own, x, Ents(d', x))
  {
    EditedInode(d, bits, d', own, i, j, e, x);
    assert DirOk(own, x, Ents(d, x));
    if x == i {
      EditedDirOk(own, i, Ents(d, i), j, e);
    }
  }

  lemma EditedDirOk(own: Owners, i: nat, dir: Directory, j: nat, e: Dirent)
    requires HasInode(own, i) && DirOk(own, i, dir) && j < SLOTS && EntryOk(own, i, e, j) && UniqueNames(dir[j := e])
    ensures DirOk(own, i, dir[j := e])
  {
    var dir' := dir[j := e];
    forall k | 0 <= k < SLOTS
      ensures EntryOk(own, i, dir'[k], k)
    {
      assert EntryOk(own, i, dir[k], k);
    }
  }

  lemma EditedShape(d: Disk, bits: Bits, d': Disk, own: Owners, i: nat, j: nat, e: Dirent)
    requires Sound(d, bits, own) && SlotEdited(d, d', own, i, j, e)
    ensures Shape(d', own) && InodesOk(d', own) && BlocksOk(d', own)
  {
    forall x | HasInode(own, x)
      ensures InodeOk(d', own, x) && Ino(d', x) == Ino(d, x)
    {
      EditedInode(d, bits, d', own, i, j, e, x);
      assert InodeOk(d, own, x);
    }
    assert HasInode(own, 2);
    forall b | b in own
      ensures PlaceOk(d', own, b) && BlockOk(d', own, b)
    {
      assert PlaceOk(d, own, b) && BlockOk(d, own, b);
    }
  }

  // -------------------------------------------------------- planting an inode

  /** Inode x was written to a free block (with an empty directory block, if it
      is a directory), to be named by slot j of directory i. */
  ghost predicate Planted(d: Disk, d': Disk, own: Owners, own': Owners, i: nat, j: nat, x: nat) {
    && |d'| == |d|
    && HasInode(own, i) && j < SLOTS && own[i].Depth() < MAX_PATH_LEN
    && x !in own && 2 <= x < |d|
    && (forall b :: b in own ==> Blk(d', b) == Blk(d, b) && Holds(own', b, own[b]))
    && Holds(own', x, Child(i, j, own[i].Depth() + 1))
    && InodeOk(d', own', x)
    && (forall b :: b in own' ==> b in own || b == x || NewDirData(d', own, own', x, b))
    && (IsDir(Ino(d', x)) ==> Ents(d', x) == DirOf(Zeros()))
    && (IsReg(Ino(d', x)) ==> Ino(d', x).size == 0)
  }

  ghost predicate NewDirData(d': Disk, own: Owners, own': Owners, x: nat, b: nat) {
    && b !in own && 2 <= b < |d'| && Holds(own', b, DirData(x))
    && IsDir(Ino(d', x)) && Ino(d', x).ptrs[0] == b
  }

  lemma PlantedInode(d: Disk, bits: Bits, d': Disk, own: Owners, own': Owners, i: nat, j: nat, x: nat, y: nat)
    requires Sound(d, bits, own) && Planted(d, d', own, own', i, j, x) && HasInode(own, y)
    ensures HasInode(own', y) && own'[y] == own[y] && Ino(d', y) == Ino(d, y) && InodeOk(d', own', y)
    ensures IsDir(Ino(d, y)) ==> Ents(d', y) == Ents(d, y)
  {
    assert InodeOk(d, own, y) && Holds(own', y, own[y]);
    var ino := Ino(d, y);
    if IsDir(ino) {
      assert Holds(own, ino.ptrs[0], DirData(y)) && Holds(own', ino.ptrs[0], DirData(y));
    } else {
      forall k | 0 <= k < Extent(ino)
        ensures Holds(own', ino.ptrs[k], FileData(y, k))
      {
        assert Holds(own, ino.ptrs[k], FileData(y, k));
      }
    }
  }

  lemma PlantedPlaces(d: Disk, bits: Bits, d': Disk, own: Owners, own': Owners, i: nat, j: nat, x: nat)
    requires Sound(d, bits, own) && Planted(d, d', own, own', i, j, x)
    ensures Shape(d', own') && BlocksOk(d', own')
  {
    assert HasInode(own, 2) && Holds(own', 2, Root);
    PlantedInode(d, bits, d', own, own', i, j, x, 2);
    forall b | b in own'
      ensures PlaceOk(d', own', b) && BlockOk(d', own', b)
    {
      if b in own {
        assert Holds(own', b, own[b]);
        assert PlaceOk(d, own, b) && BlockOk(d, own, b);
        PlantedInode(d, bits, d', own, own', i, j, x, HomeOf(own, b));
      }
    }
  }

  lemma PlantSound(d: Disk, bits: Bits, d': Disk, bits': Bits, own: Owners, own': Owners, i: nat, j: nat, x: nat)
    requires Sound(d, bits, own) && Planted(d, d', own, own', i, j, x) && Marked(bits', own')
    ensures Sound(d', bits', own')
  {
    PlantedPlaces(d, bits, d', own, own', i, j, x);
    forall y | HasInode(own', y)
      ensures InodeOk(d', own', y) && (IsDir(Ino(d', y)) ==> DirOk(own', y, Ents(d', y)))
    {
      if y == x {
        forall k | 0 <= k < SLOTS
          ensures !DirOf(Zeros())[k].valid && EntryOk(own', x, DirOf(Zeros())[k], k)
        {
          EmptyDirectory(k);
        }
      } else {
        PlantedInode(d, bits, d', own, own', i, j, x, y);
        if IsDir(Ino(d, y)) {
          assert Frames.InodesKept(own, own');
          Frames.DirOkKept(own, own', y, Ents(d, y));
        }
      }
    }
  }

  // --------------------------------------------------------- pruning an inode

  /** Ownership once inode x and its blocks are given up. */
  ghost function Without(own: Owners, x: nat): Owners {
    map b | b in own && HomeOf(own, b) != x :: own[b]
  }

  /** No directory names x. */
  ghost predicate Unnamed(d: Disk, own: Owners, x: nat)
    requires HasInode(own, x)
  {
    own[x].Child? && !NamedBy(d, own, x)
  }

  lemma PrunedInode(d: Disk, bits: Bits, own: Owners, x: nat, y: nat)
    requires Sound(d, bits, own) && HasInode(own, x) && HasInode(own, y) && y != x
    ensures HasInode(Without(own, x), y) && Without(own, x)[y] == own[y] && InodeOk(d, Without(own, x), y)
  {
    var own', ino := Without(own, x), Ino(d, y);
    assert InodeOk(d, own, y) && Holds(own', y, own[y]);
    if IsDir(ino) {
      assert Holds(own', ino.ptrs[0], DirData(y));
    } else {
      forall k | 0 <= k < Extent(ino)
        ensures Holds(own', ino.ptrs[k], FileData(y, k))
      {
        assert Holds(own, ino.ptrs[k], FileData(y, k));
      }
    }
  }

  /** A directory never names an inode that its own slot says is unnamed. */
  lemma PrunedDirOk(d: Disk, own: Owners, x: nat, y: nat)
    requires HasInode(own, x) && Unnamed(d, own, x)
    requires HasInode(own, y) && y != x && IsDir(Ino(d, y)) && DirOk(own, y, Ents(d, y))
    ensures HasInode(Without(own, x), y) && DirOk(Without(own, x), y, Ents(d, y))
  {
    var own', dir := Without(own, x), Ents(d, y);
    assert Holds(own', y, own[y]);
    forall k | 0 <= k < SLOTS
      ensures EntryOk(own', y, dir[k], k)
    {
      assert EntryOk(own, y, dir[k], k);
      if dir[k].valid {
        assert Holds(own, dir[k].inode, Child(y, k, own[y].Depth() + 1));
      }
    }
  }

  /** An inode that nothing names can be given up. */
  lemma PruneSound(d: Disk, bits: Bits, bits': Bits, own: Owners, x: nat)
    requires Sound(d, bits, own) && HasInode(own, x) && Unnamed(d, own, x) && Marked(bits', Without(own, x))
    ensures Sound(d, bits', Without(own, x))
  {
    var own' := Without(own, x);
    assert Holds(own', 2, Root);
    forall b | b in own'
      ensures PlaceOk(d, own', b) && BlockOk(d, own', b)
    {
      assert PlaceOk(d, own, b) && BlockOk(d, own, b);
      PrunedInode(d, bits, own, x, HomeOf(own, b));
    }
    forall y | HasInode(own', y)
      ensures InodeOk(d, own', y) && (IsDir(Ino(d, y)) ==> DirOk(own', y, Ents(d, y)))
    {
      assert HasInode(own, y) && y != x;
      PrunedInode(d, bits, own, x, y);
      if IsDir(Ino(d, y)) {
        PrunedDirOk(d, own, x, y);
      }
    }
  }

  // ------------------------------------------------------------ who is named

  /** Rewriting slot j of directory i affects only the inode that slot is for. */
  lemma EditedNamed(d: Disk, bits: Bits, d': Disk, own: Owners, i: nat, j: nat, e: Dirent, y: nat)
    requires Sound(d, bits, own) && SlotEdited(d, d', own, i, j, e) && HasInode(own, y)
    ensures own[y].Child? && own[y].dir == i && own[y].slot == j ==>
              (NamedBy(d', own, y) <==> own[y].depth == own[i].Depth() + 1 && e.valid && e.inode == y)
    ensures !(own[y].Child? && own[y].dir == i && own[y].slot == j) ==> (NamedBy(d', own, y) <==> NamedBy(d, own, y))
  {
    if own[y].Child? && HasInode(own, own[y].dir) {
      var p := own[y].dir;
      EditedInode(d, bits, d', own, i, j, e, p);
      if IsDir(Ino(d, p)) && own[y].slot < SLOTS {
        NamedIs(d, own, y, Ents(d, p));
        NamedIs(d', own, y, Ents(d', p));
      }
    }
  }

  lemma NamedIs(d: Disk, own: Owners, y: nat, dir: Directory)
    requires y in own && own[y].Child? && HasInode(own, own[y].dir) && own[y].slot < SLOTS
    requires IsDir(Ino(d, own[y].dir)) && Ents(d, own[y].dir) == dir
    ensures NamedBy(d, own, y) <==>
              own[y].depth == own[own[y].dir].Depth() + 1 && dir[own[y].slot].valid && dir[own[y].slot].inode == y
  {
  }

  /** Planting an inode names nothing. */
  lemma PlantedNamed(d: Disk, bits: Bits, d': Disk, own: Owners, own': Owners, i: nat, j: nat, x: nat, y: nat)
    requires Sound(d, bits, own) && Planted(d, d', own, own', i, j, x) && HasInode(own, y)
    ensures HasInode(own', y) && (NamedBy(d', own', y) <==> NamedBy(d, own, y))
  {
    assert Holds(own', y, own[y]);
    if own[y].Child? {
      var p := own[y].dir;
      if HasInode(own, p) {
        PlantedInode(d, bits, d', own, own', i, j, x, p);
      } else if p == x && IsDir(Ino(d', x)) && own[y].slot < SLOTS {
        EmptyDirectory(own[y].slot);
      }
    }
  }

  /** Pruning an unnamed inode orphans exactly the inodes it named. */
  lemma PrunedNamed(d: Disk, bits: Bits, own: Owners, x: nat, y: nat)
    requires Sound(d, bits, own) && HasInode(own, x) && Unnamed(d, own, x) && HasInode(own, y) && y != x
    ensures HasInode(Without(own, x), y)
    ensures NamedBy(d, Without(own, x), y) <==> NamedBy(d, own, y) && !(own[y].Child? && own[y].dir == x)
  {
    assert Holds(Without(own, x), y, own[y]);
    if own[y].Child? && HasInode(own, own[y].dir) && own[y].dir != x {
      assert Holds(Without(own, x), own[y].dir, own[own[y].dir]);
    }
  }
}
