/** The global invariant. A ghost map gives every used block its one role; the
    map being a function is what makes "no block has two owners" and "every
    inode is named by at most one directory entry" hold. */
module Ownership {
  import opened Layout
  import opened Bitmap
  import opened Image

  /** What a used block is for: the root inode; the inode named by one slot of
      one directory, at a depth below the root; the entries of a directory; or
      block `index` of a file. */
  datatype Role =
    | Root
    | Child(dir: nat, slot: nat, depth: nat)
    | DirData(inode: nat)
    | FileData(inode: nat, index: nat)
  {
    predicate IsInode() { Root? || Child? }

    function Depth(): nat { if Child? then depth else 0 }
  }

  type Owners = map<nat, Role>

  ghost predicate Holds(own: Owners, b: nat, r: Role) {
    b in own && own[b] == r
  }

  ghost predicate HasInode(own: Owners, i: nat) {
    i in own && own[i].IsInode()
  }

  // ------------------------------------------------------------ the invariant

  ghost predicate Shape(d: Disk, own: Owners) {
    && 3 <= |d|
    && Holds(own, 2, Root)
    && IsDir(Ino(d, 2))
    && forall b :: b in own ==> PlaceOk(d, own, b)
  }

  ghost predicate PlaceOk(d: Disk, own: Owners, b: nat)
    requires b in own
  {
    && 2 <= b < |d|
    && (own[b].Root? ==> b == 2)
    && (own[b].Child? ==> 1 <= own[b].depth <= MAX_PATH_LEN && own[b].slot < SLOTS)
  }

  ghost predicate Marked(bits: Bits, own: Owners) {
    && bits[0] && bits[1]
    && forall b :: b in own ==> b < NBITS && bits[b]
  }

  ghost predicate DirInodeOk(own: Owners, i: nat, ino: Inode) {
    ino.size == BLOCK_SIZE && Holds(own, ino.ptrs[0], DirData(i))
  }

  ghost predicate FileInodeOk(own: Owners, i: nat, ino: Inode) {
    && 0 <= ino.size <= MAX_FILE
    && (forall k :: 0 <= k < Extent(ino) ==> Holds(own, ino.ptrs[k], FileData(i, k)))
    && (forall k :: Extent(ino) <= k < NPTRS ==> ino.ptrs[k] == 0 || ino.ptrs[k] == NOWHERE)
  }

  ghost predicate InodeOk(d: Disk, own: Owners, i: nat) {
    var ino := Ino(d, i);
    if IsDir(ino) then DirInodeOk(own, i, ino) else IsReg(ino) && FileInodeOk(own, i, ino)
  }

  ghost predicate BlockOk(d: Disk, own: Owners, b: nat)
    requires b in own
  {
    match own[b]
    case DirData(i) => HasInode(own, i) && IsDir(Ino(d, i)) && Ino(d, i).ptrs[0] == b
    case FileData(i, k) => HasInode(own, i) && IsReg(Ino(d, i)) && k < Extent(Ino(d, i)) && Ino(d, i).ptrs[k] == b
    case _ => true
  }

  ghost predicate EntryOk(own: Owners, i: nat, e: Dirent, j: nat)
    requires HasInode(own, i)
  {
    && e.name[NAME_MAX] == 0
    && (e.valid ==> ValidName(NameOf(e)) && Holds(own, e.inode, Child(i, j, own[i].Depth() + 1)))
  }

  ghost predicate UniqueNames(dir: Directory) {
    forall j, k :: 0 <= j < k < SLOTS && dir[j].valid && dir[k].valid ==> NameOf(dir[j]) != NameOf(dir[k])
  }

  ghost predicate DirOk(own: Owners, i: nat, dir: Directory)
    requires HasInode(own, i)
  {
    && (forall j :: 0 <= j < SLOTS ==> EntryOk(own, i, dir[j], j))
    && UniqueNames(dir)
  }

  ghost predicate InodesOk(d: Disk, own: Owners) {
    forall i :: HasInode(own, i) ==> InodeOk(d, own, i)
  }

  ghost predicate BlocksOk(d: Disk, own: Owners) {
    forall b :: b in own ==> BlockOk(d, own, b)
  }

  ghost predicate EntriesOk(d: Disk, own: Owners) {
    forall i :: HasInode(own, i) && IsDir(Ino(d, i)) ==> DirOk(own, i, Ents(d, i))
  }

  /** Everything in use has one owner and is marked; nothing dangles. */
  ghost predicate Sound(d: Disk, bits: Bits, own: Owners) {
    Shape(d, own) && Marked(bits, own) && InodesOk(d, own) && BlocksOk(d, own) && EntriesOk(d, own)
  }

  /** The same, but for the bitmap. */
  ghost predicate WellFormed(d: Disk, own: Owners) {
    Shape(d, own) && InodesOk(d, own) && BlocksOk(d, own) && EntriesOk(d, own)
  }

  function AllSet(): Bits { seq(NBITS, _ => true) }

  /** A well-formed image would be sound if every bit were set. */
  lemma WellFormedIsSound(d: Disk, own: Owners)
    requires WellFormed(d, own)
    ensures Sound(d, AllSet(), own)
  {
    forall b | b in own
      ensures b < NBITS
    {
      assert PlaceOk(d, own, b);
    }
  }

  /** Nothing else is marked. */
  ghost predicate Exact(d: Disk, bits: Bits, own: Owners) {
    forall b :: 0 <= b < |d| ==> (bits[b] <==> b < 2 || b in own)
  }

  ghost predicate NamedBy(d: Disk, own: Owners, i: nat)
    requires i in own
  {
    own[i].Child? ==>
      var p := own[i].dir;
      && HasInode(own, p) && IsDir(Ino(d, p))
      && own[i].depth == own[p].Depth() + 1
      && own[i].slot < SLOTS
      && Ents(d, p)[own[i].slot].valid && Ents(d, p)[own[i].slot].inode == i
  }

  /** Every inode is still named by a directory: no orphans. */
  ghost predicate Attached(d: Disk, own: Owners) {
    forall i :: HasInode(own, i) ==> NamedBy(d, own, i)
  }

  // --------------------------------------------------------------- resolution

  lemma StepSound(d: Disk, bits: Bits, own: Owners, i: nat, name: Name)
    requires Sound(d, bits, own) && HasInode(own, i)
    ensures !IsDir(Ino(d, i)) ==> Step(d, i, name) == Err(ENOTDIR)
    ensures IsDir(Ino(d, i)) ==>
      var j := FindSlot(Ents(d, i), name, 0);
      Step(d, i, name) == if j < SLOTS then Ok(Ents(d, i)[j].inode) else Err(ENOENT)
    ensures Step(d, i, name).Ok? ==>
      IsDir(Ino(d, i)) &&
      Holds(own, Step(d, i, name).value, Child(i, FindSlot(Ents(d, i), name, 0), own[i].Depth() + 1))
  {
    assert InodeOk(d, own, i) && PlaceOk(d, own, i);
    if IsDir(Ino(d, i)) {
      assert PlaceOk(d, own, Ino(d, i).ptrs[0]);
      assert DirOk(own, i, Ents(d, i));
      var j := FindSlot(Ents(d, i), name, 0);
      if j < SLOTS {
        assert EntryOk(own, i, Ents(d, i)[j], j);
      }
    }
  }

  /** Translation on a sound image fails only with ENOENT or ENOTDIR, and the
      inode it finds lies exactly as deep as the path is long. */
  lemma {:induction false} ResolveSound(d: Disk, bits: Bits, own: Owners, p: Path)
    requires Sound(d, bits, own)
    ensures Resolve(d, p).Ok? ==> HasInode(own, Resolve(d, p).value) && own[Resolve(d, p).value].Depth() == |p|
    ensures Resolve(d, p).Err? ==> p != [] && (Resolve(d, p).error == ENOENT || Resolve(d, p).error == ENOTDIR)
    decreases |p|
  {
    if p != [] {
      ResolveSound(d, bits, own, Parent(p));
      if Resolve(d, Parent(p)).Ok? {
        StepSound(d, bits, own, Resolve(d, Parent(p)).value, Last(p));
      }
    }
  }

  /** An inode is named by one slot of one directory. */
  lemma OneEntry(d: Disk, bits: Bits, own: Owners, a: nat, m: Name, b: nat, n: Name)
    requires Sound(d, bits, own) && HasInode(own, a) && HasInode(own, b)
    requires Step(d, a, m).Ok? && Step(d, b, n) == Step(d, a, m)
    ensures a == b && m == n
  {
    StepSound(d, bits, own, a, m);
    StepSound(d, bits, own, b, n);
  }

  /** A path that resolves passes through its parent directory. */
  lemma ResolveParent(d: Disk, bits: Bits, own: Owners, p: Path)
    requires Sound(d, bits, own) && p != [] && Resolve(d, p).Ok?
    ensures Resolve(d, Parent(p)).Ok?
    ensures HasInode(own, Resolve(d, Parent(p)).value)
    ensures Step(d, Resolve(d, Parent(p)).value, Last(p)) == Resolve(d, p)
  {
    ResolveSound(d, bits, own, Parent(p));
  }

  /** The inode graph is a tree: an inode is reached by one path only. */
  lemma {:induction false} OnePath(d: Disk, bits: Bits, own: Owners, p: Path, q: Path)
    requires Sound(d, bits, own)
    requires Resolve(d, p).Ok? && Resolve(d, q) == Resolve(d, p)
    ensures p == q
    decreases |p|
  {
    assert |p| == |q| by {
      ResolveSound(d, bits, own, p);
      ResolveSound(d, bits, own, q);
    }
    if p != [] {
      ResolveParent(d, bits, own, p);
      ResolveParent(d, bits, own, q);
      OneEntry(d, bits, own, Resolve(d, Parent(p)).value, Last(p), Resolve(d, Parent(q)).value, Last(q));
      OnePath(d, bits, own, Parent(p), Parent(q));
      SamePath(p, q);
    }
  }

  lemma SamePath(p: Path, q: Path)
    requires p != [] && q != [] && Parent(p) == Parent(q) && Last(p) == Last(q)
    ensures p == q
  {
    assert p == Parent(p) + [Last(p)];
  }

  /** The name a directory gives an inode that is attached to it leads there. */
  lemma EntryLeads(d: Disk, bits: Bits, own: Owners, dir: nat, j: nat, i: nat) returns (name: Name)
    requires Sound(d, bits, own) && HasInode(own, dir) && IsDir(Ino(d, dir)) && j < SLOTS
    requires Ents(d, dir)[j].valid && Ents(d, dir)[j].inode == i
    ensures Step(d, dir, name) == Ok(i)
  {
    var ents := Ents(d, dir);
    assert DirOk(own, dir, ents);
    assert EntryOk(own, dir, ents[j], j);
    name := NameOf(ents[j]);
    StepSound(d, bits, own, dir, name);
    OnlySlot(ents, j, name);
  }

  lemma OnlySlot(dir: Directory, j: nat, name: Name)
    requires UniqueNames(dir) && j < SLOTS && dir[j].valid && NameOf(dir[j]) == name
    ensures FindSlot(dir, name, 0) == j
  {
  }

  /** Without orphans, every inode is reached by some path. */
  lemma {:induction false} Reached(d: Disk, bits: Bits, own: Owners, i: nat) returns (p: Path)
    requires Sound(d, bits, own) && Attached(d, own) && HasInode(own, i)
    ensures Resolve(d, p) == Ok(i)
    decreases own[i].Depth()
  {
    assert PlaceOk(d, own, i);
    if own[i].Root? {
      p := [];
    } else {
      assert NamedBy(d, own, i);
      var q := Reached(d, bits, own, own[i].dir);
      var name := EntryLeads(d, bits, own, own[i].dir, own[i].slot, i);
      p := q + [name];
      assert Parent(p) == q;
    }
  }

  // ------------------------------------------------------- reachable and leaks

  /** The blocks an inode is made of. */
  ghost predicate PartOf(d: Disk, i: nat, b: nat) {
    || b == i
    || (IsDir(Ino(d, i)) && b == Ino(d, i).ptrs[0])
    || (IsReg(Ino(d, i)) && exists k :: 0 <= k < Extent(Ino(d, i)) && Ino(d, i).ptrs[k] == b)
  }

  /** Block b belongs to something a path from the root leads to. */
  ghost predicate Reachable(d: Disk, b: nat) {
    exists p :: Resolve(d, p).Ok? && PartOf(d, Resolve(d, p).value, b)
  }

  /** Nothing in use is unmarked: what a crash or a bug must never break. */
  ghost predicate NothingDangles(d: Disk, bits: Bits) {
    forall b: nat :: Reachable(d, b) ==> b < NBITS && bits[b]
  }

  /** Nothing is marked in vain: every marked block of the disk is the
      superblock, the bitmap, or reachable. */
  ghost predicate NothingLeaks(d: Disk, bits: Bits) {
    forall b :: 0 <= b < |d| && bits[b] ==> b < 2 || Reachable(d, b)
  }

  lemma PartIsOwned(d: Disk, bits: Bits, own: Owners, i: nat, b: nat)
    requires Sound(d, bits, own) && HasInode(own, i) && PartOf(d, i, b)
    ensures b in own
    ensures b == i || own[b] == DirData(i) || (own[b].FileData? && own[b].inode == i)
  {
    assert InodeOk(d, own, i);
  }

  lemma SoundNothingDangles(d: Disk, bits: Bits, own: Owners)
    requires Sound(d, bits, own)
    ensures NothingDangles(d, bits)
  {
    forall b: nat | Reachable(d, b)
      ensures b < NBITS && bits[b]
    {
      var p :| Resolve(d, p).Ok? && PartOf(d, Resolve(d, p).value, b);
      ResolveSound(d, bits, own, p);
      PartIsOwned(d, bits, own, Resolve(d, p).value, b);
    }
  }

  /** The inode a used block belongs to. */
  ghost function HomeOf(own: Owners, b: nat): nat
    requires b in own
  {
    match own[b]
    case DirData(i) => i
    case FileData(i, _) => i
    case _ => b
  }

  lemma HomeHasPart(d: Disk, bits: Bits, own: Owners, b: nat)
    requires Sound(d, bits, own) && b in own
    ensures HasInode(own, HomeOf(own, b)) && PartOf(d, HomeOf(own, b), b)
  {
    assert BlockOk(d, own, b);
  }

  /** On a sound image whose bitmap is exact, "no orphan inode" and "no leaked
      block" are the same thing. */
  lemma LeaksAreOrphans(d: Disk, bits: Bits, own: Owners)
    requires Sound(d, bits, own) && Exact(d, bits, own)
    ensures NothingLeaks(d, bits) <==> Attached(d, own)
  {
    if Attached(d, own) {
      forall b | 0 <= b < |d| && bits[b] && b >= 2
        ensures Reachable(d, b)
      {
        HomeHasPart(d, bits, own, b);
        var p := Reached(d, bits, own, HomeOf(own, b));
      }
    }
    if NothingLeaks(d, bits) {
      forall i | HasInode(own, i)
        ensures NamedBy(d, own, i)
      {
        ReachableIsNamed(d, bits, own, i);
      }
    }
  }

  lemma ReachableIsNamed(d: Disk, bits: Bits, own: Owners, i: nat)
    requires Sound(d, bits, own) && Exact(d, bits, own) && NothingLeaks(d, bits) && HasInode(own, i)
    ensures NamedBy(d, own, i)
  {
    assert PlaceOk(d, own, i);
    assert bits[i];
    var p :| Resolve(d, p).Ok? && PartOf(d, Resolve(d, p).value, i);
    ResolveSound(d, bits, own, p);
    PartIsOwned(d, bits, own, Resolve(d, p).value, i);
    if p != [] {
      ResolveSound(d, bits, own, Parent(p));
      StepSound(d, bits, own, Resolve(d, Parent(p)).value, Last(p));
    }
  }
}
