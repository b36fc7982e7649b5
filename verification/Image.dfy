/** Reading a disk image: path resolution, directory scans, file contents, and
    the user's view of the tree as a function from paths to nodes. */
module Image {
  import opened Layout

  /** A disk image: its bitmap block can describe at most 32768 blocks. */
  type Disk = d: seq<Block> | |d| <= NBITS

  /** The errno values the file system returns (always negated in C). */
  datatype Errno = ENOENT | EIO | EEXIST | ENOTDIR | EISDIR | EINVAL | ENOSPC | ENOTEMPTY

  datatype Result<+T> = Ok(value: T) | Err(error: Errno) {
    predicate IsFailure() { Err? }

    function PropagateFailure<U>(): Result<U>
      requires Err?
    {
      Err(error)
    }

    function Extract(): T
      requires Ok?
    {
      value
    }
  }

  // ------------------------------------------------------------------- paths

  const SLASH: byte := 47

  predicate ValidName(n: seq<byte>) {
    0 < |n| <= NAME_MAX && 0 !in n && SLASH !in n
  }

  type Name = n: seq<byte> | ValidName(n) witness [65]
  type Path = seq<Name>

  const MAX_PATH_LEN := 10

  /** The path of the containing directory: all components but the last. */
  function Parent(p: Path): Path {
    if p == [] then [] else p[..|p| - 1]
  }

  function Last(p: Path): Name
    requires p != []
  {
    p[|p| - 1]
  }

  // ------------------------------------------------------------------- blocks

  /** block_read: any block inside the image; everything else is an I/O error. */
  function ReadBlock(d: Disk, lba: nat): Result<Block> {
    if lba < |d| then Ok(d[lba]) else Err(EIO)
  }

  function Blk(d: Disk, lba: nat): Block {
    if lba < |d| then d[lba] else Zeros()
  }

  ghost function Ino(d: Disk, i: nat): Inode { InodeOf(Blk(d, i)) }

  /** The directory held by inode i (meaningful when i is a directory). */
  ghost function Ents(d: Disk, i: nat): Directory { DirOf(Blk(d, Ino(d, i).ptrs[0])) }

  /** -1 in a block pointer: left behind by a truncation. */
  const NOWHERE: u32 := 0xFFFF_FFFF

  /** How many block pointers the size of an inode covers (all of them if it
      covers more than the pointer array holds). */
  function Extent(ino: Inode): (n: nat)
    ensures n <= NPTRS
    ensures 0 <= ino.size <= MAX_FILE ==> n == NBlocks(ino.size)
  {
    if ino.size < 0 then 0 else if ino.size > MAX_FILE then NPTRS else NBlocks(ino.size)
  }

  // -------------------------------------------------------------- directories

  /** The first valid slot at or after `from` that carries this name; SLOTS if none. */
  function FindSlot(dir: Directory, name: Name, from: nat): (j: nat)
    requires from <= SLOTS
    ensures from <= j <= SLOTS
    ensures j < SLOTS ==> dir[j].valid && NameOf(dir[j]) == name
    ensures forall k :: from <= k < j ==> !(dir[k].valid && NameOf(dir[k]) == name)
    decreases |dir| - from
  {
    if from == SLOTS then SLOTS
    else if dir[from].valid && NameOf(dir[from]) == name then from
    else FindSlot(dir, name, from + 1)
  }

  /** The first slot at or after `from` that is not in use; SLOTS if all are. */
  function FreeSlot(dir: Directory, from: nat): (j: nat)
    requires from <= SLOTS
    ensures from <= j <= SLOTS
    ensures j < SLOTS ==> !dir[j].valid
    ensures forall k :: from <= k < j ==> dir[k].valid
    decreases |dir| - from
  {
    if from == SLOTS then SLOTS
    else if !dir[from].valid then from
    else FreeSlot(dir, from + 1)
  }

  // --------------------------------------------------------------- resolution

  /** One component of path translation, from the inode reached so far. */
  ghost function Step(d: Disk, i: nat, name: Name): Result<nat> {
    var b :- ReadBlock(d, i);
    var ino := InodeOf(b);
    if !IsDir(ino) then Err(ENOTDIR)
    else
      var db :- ReadBlock(d, ino.ptrs[0]);
      var j := FindSlot(DirOf(db), name, 0);
      if j < SLOTS then Ok(DirOf(db)[j].inode) else Err(ENOENT)
  }

  /** The inode a path leads to, starting from the root inode 2. */
  ghost function Resolve(d: Disk, p: Path): Result<nat>
    decreases |p|
  {
    if p == [] then Ok(2)
    else
      var i :- Resolve(d, Parent(p));
      Step(d, i, Last(p))
  }

  /** The number and contents of the inode a path leads to. */
  ghost function PathInode(d: Disk, p: Path): Result<(nat, Inode)> {
    var i :- Resolve(d, p);
    var b :- ReadBlock(d, i);
    Ok((i, InodeOf(b)))
  }

  // ----------------------------------------------------------- the user's view

  /** Byte k of a file: byte k % 4096 of the block ptrs[k / 4096]. */
  function ByteAt(d: Disk, ptrs: Pointers, k: nat): byte
    requires k < MAX_FILE
  {
    Blk(d, ptrs[k / 4096])[k % 4096]
  }

  function Content(d: Disk, ino: Inode): (c: seq<byte>)
    requires 0 <= ino.size <= MAX_FILE
    ensures |c| == ino.size
  {
    seq(ino.size, k requires 0 <= k < ino.size => ByteAt(d, ino.ptrs, k))
  }

  datatype Meta = Meta(uid: u16, gid: u16, mode: u32, ctime: u32, mtime: u32)

  datatype Node = FileNode(meta: Meta, bytes: seq<byte>) | DirNode(meta: Meta) | BadNode

  function MetaOf(ino: Inode): Meta {
    Meta(ino.uid, ino.gid, ino.mode, ino.ctime, ino.mtime)
  }

  function NodeOf(d: Disk, ino: Inode): Node {
    if IsDir(ino) then DirNode(MetaOf(ino))
    else if IsReg(ino) && 0 <= ino.size <= MAX_FILE then FileNode(MetaOf(ino), Content(d, ino))
    else BadNode
  }

  /** What a user finds at a path: a file or directory, or the error of looking it up. */
  ghost function View(d: Disk, p: Path): Result<Node> {
    var r :- PathInode(d, p);
    Ok(NodeOf(d, r.1))
  }

  // ------------------------------------------------------------------- writes

  datatype Write = Write(lba: nat, data: Block)

  function Store(d: Disk, w: Write): Disk {
    if w.lba < |d| then d[w.lba := w.data] else d
  }

  lemma StoreAt(d: Disk, w: Write, b: nat)
    ensures Blk(Store(d, w), b) == if b == w.lba && b < |d| then w.data else Blk(d, b)
  {
  }

  /** The disk after a sequence of block writes, the first one first. */
  function Apply(d: Disk, ws: seq<Write>): (r: Disk)
    ensures |r| == |d|
    decreases |ws|
  {
    if ws == [] then d else Store(Apply(d, ws[..|ws| - 1]), ws[|ws| - 1])
  }

  lemma ApplySnoc(d: Disk, ws: seq<Write>, w: Write)
    ensures Apply(d, ws + [w]) == Store(Apply(d, ws), w)
  {
    assert (ws + [w])[..|ws|] == ws;
  }

  lemma {:induction false} ApplyAppend(d: Disk, a: seq<Write>, b: seq<Write>)
    ensures Apply(d, a + b) == Apply(Apply(d, a), b)
    decreases |b|
  {
    if b == [] {
      assert a + b == a;
    } else {
      var b0, w := b[..|b| - 1], b[|b| - 1];
      assert a + b == (a + b0) + [w];
      ApplySnoc(d, a + b0, w);
      ApplyAppend(d, a, b0);
    }
  }

  /** A block no write names keeps its contents. */
  lemma {:induction false} ApplyElsewhere(d: Disk, ws: seq<Write>, b: nat)
    requires b < |d| && forall k :: 0 <= k < |ws| ==> ws[k].lba != b
    ensures Apply(d, ws)[b] == d[b]
    decreases |ws|
  {
    if ws != [] {
      ApplyElsewhere(d, ws[..|ws| - 1], b);
    }
  }

  /** Among writes to distinct blocks, each block ends up with the data written to it. */
  lemma {:induction false} ApplyAt(d: Disk, ws: seq<Write>, k: nat)
    requires k < |ws| && ws[k].lba < |d|
    requires forall j :: k < j < |ws| ==> ws[j].lba != ws[k].lba
    ensures Apply(d, ws)[ws[k].lba] == ws[k].data
    decreases |ws|
  {
    if k < |ws| - 1 {
      ApplyAt(d, ws[..|ws| - 1], k);
    }
  }

  lemma ApplyOne(d: Disk, w: Write)
    ensures Apply(d, [w]) == Store(d, w)
  {
    ApplySnoc(d, [], w);
    assert [] + [w] == [w];
  }

  lemma ApplyTwo(d: Disk, w: Write, v: Write)
    ensures Apply(d, [w, v]) == Store(Store(d, w), v)
  {
    ApplyOne(d, w);
    ApplySnoc(d, [w], v);
    assert [w] + [v] == [w, v];
  }
}
