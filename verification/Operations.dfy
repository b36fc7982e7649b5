/** What each operation does: its result, the block writes it issues in order,
    the in-memory bitmap it leaves, and how it moves the free-block counters.
    The methods of class FileSystem are proved to do exactly this. */
module Operations {
  import opened Layout
  import opened Bitmap
  import opened Image

  datatype State = State(disk: Disk, bits: Bits, bfree: int, bavail: int)

  datatype Plan = Plan(result: Result<nat>, writes: seq<Write>, bits: Bits, released: int)

  ghost function Fail(s: State, e: Errno): Plan {
    Plan(Err(e), [], s.bits, 0)
  }

  ghost function Commit(s: State, p: Plan): State {
    State(Apply(s.disk, p.writes), p.bits, s.bfree + p.released, s.bavail + p.released)
  }

  /** The identity and the clock a call runs with. */
  datatype Caller = Caller(uid: u16, gid: u16, now: u32)

  const BITMAP_LBA := 1

  // ------------------------------------------------------------ create, mkdir

  function NewInode(mode: u32, ptr: u32, c: Caller): Inode {
    Inode(c.uid, c.gid, mode, c.now, c.now, if Kind(mode) == 4 then BLOCK_SIZE else 0, NoPointers()[0 := ptr])
  }

  function NewEntry(slot: Dirent, name: Name, inum: u31): Dirent {
    Dirent(true, inum, StrnCpy(slot.name, name))
  }

  /** create_directory_entry; mode already carries its type bits. */
  ghost function MakePlan(s: State, path: Path, mode: u32, isDir: bool, c: Caller): Plan
    requires path != []
  {
    match PathInode(s.disk, Parent(path))
    case Err(e) => Fail(s, e)
    case Ok((_, dino)) =>
      if !IsDir(dino) then Fail(s, ENOTDIR)
      else match ReadBlock(s.disk, dino.ptrs[0])
      case Err(e) => Fail(s, e)
      case Ok(db) =>
        var dir := DirOf(db);
        if FindSlot(dir, Last(path), 0) < SLOTS then Fail(s, EEXIST)
        else if FreeSlot(dir, 0) == SLOTS || |Allotted(s, isDir)| < MakeCount(isDir) then Fail(s, ENOSPC)
        else MakeEntry(s, dino.ptrs[0], dir, Last(path), mode, isDir, c)
  }

  function MakeCount(isDir: bool): nat { if isDir then 2 else 1 }

  /** The blocks a new file (its inode) or directory (inode and entries) gets. */
  function Allotted(s: State, isDir: bool): seq<nat> {
    LowestFree(s.bits, 0, |s.disk|, MakeCount(isDir))
  }

  function MadeDir(dir: Directory, name: Name, inum: u31): Directory
    requires FreeSlot(dir, 0) < SLOTS
  {
    var j := FreeSlot(dir, 0);
    dir[j := NewEntry(dir[j], name, inum)]
  }

  ghost function MakeEntry(s: State, lba: nat, dir: Directory, name: Name, mode: u32, isDir: bool, c: Caller): Plan
    requires FreeSlot(dir, 0) < SLOTS && |Allotted(s, isDir)| == MakeCount(isDir)
  {
    var got := Allotted(s, isDir);
    var bits := Mark(s.bits, got, true);
    Plan(Ok(0),
         [Write(got[0], InodeBlock(NewInode(mode, if isDir then got[1] else 0, c))),
          Write(lba, DirBlock(MadeDir(dir, name, got[0])))]
         + (if isDir then [Write(got[1], Zeros())] else [])
         + [Write(BITMAP_LBA, BitmapBlock(bits))],
         bits, if isDir then -2 else -1)
  }

  // ------------------------------------------------------------ unlink, rmdir

  /** unlink_directory_entry: the directory write that invalidates the last component. */
  ghost function EntryRemoval(d: Disk, path: Path): Result<Write>
    requires path != []
  {
    var r :- PathInode(d, Parent(path));
    var db :- ReadBlock(d, r.1.ptrs[0]);
    var dir := DirOf(db);
    var j := FindSlot(dir, Last(path), 0);
    if j == SLOTS then Err(ENOENT)
    else Ok(Write(r.1.ptrs[0], DirBlock(dir[j := dir[j].(valid := false)])))
  }

  ghost function RemovalPlan(s: State, path: Path, freed: seq<nat>): Plan
    requires path != []
  {
    match EntryRemoval(s.disk, path)
    case Err(e) => Fail(s, e)
    case Ok(w) =>
      var bits := Mark(s.bits, freed, false);
      Plan(Ok(0), [w, Write(BITMAP_LBA, BitmapBlock(bits))], bits, |freed|)
  }

  ghost function UnlinkPlan(s: State, path: Path): Plan
    requires path != []
  {
    match PathInode(s.disk, path)
    case Err(e) => Fail(s, e)
    case Ok((i, ino)) => RemovalPlan(s, path, ino.ptrs[..Extent(ino)] + [i])
  }

  /** check_dir_empty looks only at the first slot that is not in use. */
  ghost function RmdirPlan(s: State, path: Path): Plan
    requires path != []
  {
    match PathInode(s.disk, path)
    case Err(e) => Fail(s, e)
    case Ok((i, ino)) =>
      if !IsDir(ino) then Fail(s, ENOTDIR)
      else match ReadBlock(s.disk, ino.ptrs[0])
      case Err(e) => Fail(s, e)
      case Ok(db) =>
        var j := FreeSlot(DirOf(db), 0);
        if j == SLOTS then Fail(s, ENOSPC)
        else if j != 0 then Fail(s, ENOTEMPTY)
        else RemovalPlan(s, path, [i, ino.ptrs[0]])
  }

  // ------------------------------------------------------------ rename, chmod

  function Renamed(e: Dirent, name: Name): Dirent {
    e.(name := StrnCpy(seq(28, _ => 0), name))
  }

  ghost function RenamePlan(s: State, src: Path, dst: Path): Plan {
    match PathInode(s.disk, src)
    case Err(e) => Fail(s, e)
    case Ok(_) =>
      if PathInode(s.disk, dst).Ok? then Fail(s, EEXIST)
      else if |dst| != |src| || Parent(src) != Parent(dst) || src == [] then Fail(s, EINVAL)
      else match PathInode(s.disk, Parent(src))
      case Err(e) => Fail(s, e)
      case Ok((_, dino)) =>
        if !IsDir(dino) then Fail(s, ENOTDIR)
        else match ReadBlock(s.disk, dino.ptrs[0])
        case Err(e) => Fail(s, e)
        case Ok(db) =>
          var dir := DirOf(db);
          var j := FindSlot(dir, Last(src), 0);
          if j == SLOTS then Fail(s, ENOENT)
          else Plan(Ok(0), [Write(dino.ptrs[0], DirBlock(dir[j := Renamed(dir[j], Last(dst))]))], s.bits, 0)
  }

  ghost function ChmodPlan(s: State, path: Path, mode: u32): Plan {
    match PathInode(s.disk, path)
    case Err(e) => Fail(s, e)
    case Ok((i, ino)) =>
      Plan(Ok(0), [Write(i, InodeBlock(ino.(mode := WithPermissions(ino.mode, mode))))], s.bits, 0)
  }

  // ----------------------------------------------------------------- truncate

  /** The pointers after blocks want..have have been dropped. */
  function CutPointers(ptrs: Pointers, want: nat, have: nat): Pointers {
    seq(NPTRS, k requires 0 <= k < NPTRS => if want <= k < have then NOWHERE else ptrs[k])
  }

  ghost function TruncatePlan(s: State, path: Path, len: int): Plan {
    if len < 0 then Fail(s, EINVAL)
    else match PathInode(s.disk, path)
    case Err(e) => Fail(s, e)
    case Ok((i, ino)) =>
      if !IsReg(ino) then Fail(s, EISDIR)
      else if NBlocks(len) > Extent(ino) then Fail(s, EINVAL)
      else TruncateFile(s, i, ino, len)
  }

  function Cut(ino: Inode, len: nat): Inode {
    ino.(size := Signed(len % 0x1_0000_0000), ptrs := CutPointers(ino.ptrs, NBlocks(len), Extent(ino)))
  }

  ghost function TruncateFile(s: State, i: nat, ino: Inode, len: nat): Plan
    requires NBlocks(len) <= Extent(ino)
  {
    var freed := ino.ptrs[NBlocks(len)..Extent(ino)];
    var bits := Mark(s.bits, freed, false);
    Plan(Ok(0), [Write(i, InodeBlock(Cut(ino, len))), Write(BITMAP_LBA, BitmapBlock(bits))], bits, |freed|)
  }

  // -------------------------------------------------------------------- write

  function GrowPointers(ptrs: Pointers, have: nat, got: seq<nat>): Pointers
    requires have + |got| <= NPTRS && forall k :: 0 <= k < |got| ==> got[k] < NBITS
  {
    ptrs[..have] + got + ptrs[have + |got|..]
  }

  /** The write buffer: the caller's bytes over the old first and last blocks
      (each fetched only when the file had one, or two, blocks), zeros elsewhere. */
  function WriteBuffer(d: Disk, ptrs: Pointers, have: nat, first: nat, last: nat, off: nat, buf: seq<byte>): seq<byte>
    requires first == off / 4096 && first <= last < NPTRS
    requires off % 4096 + |buf| <= 4096 * (last - first + 1)
  {
    seq(4096 * (last - first + 1), k requires 0 <= k < 4096 * (last - first + 1) =>
      if off % 4096 <= k < off % 4096 + |buf| then buf[k - off % 4096]
      else if have > 1 && k >= 4096 * (last - first) then Blk(d, ptrs[last])[k - 4096 * (last - first)]
      else if have > 0 && k < 4096 then Blk(d, ptrs[first])[k]
      else 0)
  }

  function BlockWrites(ptrs: Pointers, first: nat, last: nat, bytes: seq<byte>): (ws: seq<Write>)
    requires first <= last < NPTRS && |bytes| == 4096 * (last - first + 1)
    ensures |ws| == last - first + 1
  {
    seq(last - first + 1, k requires 0 <= k < last - first + 1 =>
      Write(ptrs[first + k], bytes[4096 * k..4096 * k + 4096]))
  }

  /** The last block a write touches. */
  function LastBlock(off: nat, n: nat): nat
    requires n > 0 || off > 0
  {
    (off + n - 1) / 4096
  }

  /** The write buffer holds at least one block, and the last block has a pointer. */
  predicate WriteFits(off: nat, n: nat) {
    (n > 0 || off % 4096 != 0) && off + n <= MAX_FILE
  }

  /** How many blocks a write must add. */
  function Needed(ino: Inode, off: nat, n: nat): nat {
    if NBlocks(off + n) > Extent(ino) then NBlocks(off + n) - Extent(ino) else 0
  }

  /** The blocks a write by inode i takes from the allocator. */
  ghost function Extra(s: State, i: nat, off: nat, n: nat): seq<nat> {
    LowestFree(s.bits, 0, |s.disk|, Needed(Ino(s.disk, i), off, n))
  }

  ghost predicate EnoughFree(s: State, i: nat, off: nat, n: nat) {
    |Extra(s, i, off, n)| == Needed(Ino(s.disk, i), off, n)
  }

  ghost predicate HasRoom(s: State, i: nat, off: nat, n: nat) {
    WriteFits(off, n) && EnoughFree(s, i, off, n)
  }

  /** fs_write stops at one of its checks, before it uses a pointer or the buffer. */
  ghost predicate WriteRefused(s: State, path: Path, off: nat, n: nat) {
    match PathInode(s.disk, path)
    case Err(_) => true
    case Ok((i, ino)) => !IsReg(ino) || off > ino.size || !EnoughFree(s, i, off, n)
  }

  /** The calls fs_write has a defined meaning for: those it refuses, and those
      that fit the buffer and the pointer array. */
  ghost predicate WriteDefined(s: State, path: Path, off: nat, n: nat) {
    WriteFits(off, n) || WriteRefused(s, path, off, n)
  }

  ghost function WritePlan(s: State, path: Path, buf: seq<byte>, off: nat, now: u32): Plan
    requires WriteDefined(s, path, off, |buf|)
  {
    match PathInode(s.disk, path)
    case Err(e) => Fail(s, e)
    case Ok((i, ino)) =>
      if !IsReg(ino) then Fail(s, EISDIR)
      else if off > ino.size then Fail(s, EINVAL)
      else if !EnoughFree(s, i, off, |buf|) then Fail(s, ENOSPC)
      else WriteFile(s, i, buf, off, now)
  }

  /** The inode after new blocks are attached and the size and mtime are updated. */
  function Grown(ino: Inode, have: nat, got: seq<nat>, end: nat, now: u32): Inode
    requires have + |got| <= NPTRS && forall k :: 0 <= k < |got| ==> got[k] < NBITS
    requires end <= MAX_FILE
  {
    ino.(ptrs := GrowPointers(ino.ptrs, have, got), size := if end > ino.size then end else ino.size, mtime := now)
  }

  ghost function WrittenInode(s: State, i: nat, off: nat, n: nat, now: u32): Inode
    requires HasRoom(s, i, off, n)
  {
    var ino := Ino(s.disk, i);
    Grown(ino, Extent(ino), Extra(s, i, off, n), off + n, now)
  }

  ghost function WrittenBits(s: State, i: nat, off: nat, n: nat): Bits {
    Mark(s.bits, Extra(s, i, off, n), true)
  }

  /** The first writes of fs_write: the bitmap, when blocks are added, then the inode. */
  ghost function HeadWrites(s: State, i: nat, off: nat, n: nat, now: u32): (head: seq<Write>)
    requires HasRoom(s, i, off, n)
    ensures 1 <= |head| <= 2
    ensures head[|head| - 1] == Write(i, InodeBlock(WrittenInode(s, i, off, n, now)))
    ensures |head| == 2 ==> head[0] == Write(BITMAP_LBA, BitmapBlock(WrittenBits(s, i, off, n)))
    ensures |head| == 2 <==> Needed(Ino(s.disk, i), off, n) > 0
  {
    var w := Write(i, InodeBlock(WrittenInode(s, i, off, n, now)));
    if |Extra(s, i, off, n)| > 0 then [Write(BITMAP_LBA, BitmapBlock(WrittenBits(s, i, off, n))), w] else [w]
  }

  /** The bytes fs_write puts on the disk, whole blocks. */
  ghost function DataBytes(s: State, i: nat, buf: seq<byte>, off: nat, now: u32): (bytes: seq<byte>)
    requires HasRoom(s, i, off, |buf|)
    ensures |bytes| == 4096 * (LastBlock(off, |buf|) - off / 4096 + 1)
  {
    WriteBuffer(Apply(s.disk, HeadWrites(s, i, off, |buf|, now)), WrittenInode(s, i, off, |buf|, now).ptrs,
                Extent(Ino(s.disk, i)), off / 4096, LastBlock(off, |buf|), off, buf)
  }

  /** The data writes of fs_write: block after block of the file. */
  ghost function DataWrites(s: State, i: nat, buf: seq<byte>, off: nat, now: u32): (ws: seq<Write>)
    requires HasRoom(s, i, off, |buf|)
    ensures |ws| == LastBlock(off, |buf|) - off / 4096 + 1
  {
    BlockWrites(WrittenInode(s, i, off, |buf|, now).ptrs, off / 4096, LastBlock(off, |buf|),
        DataBytes(s, i, buf, off, now))
  }

  ghost function WriteFile(s: State, i: nat, buf: seq<byte>, off: nat, now: u32): Plan
    requires HasRoom(s, i, off, |buf|)
  {
    Plan(Ok(|buf|), HeadWrites(s, i, off, |buf|, now) + DataWrites(s, i, buf, off, now), WrittenBits(s, i, off, |buf|),
         Extent(Ino(s.disk, i)) - (LastBlock(off, |buf|) + 1))
  }

  // --------------------------------------------------------------------- read

  /** The pointer at an index; one past the array is whatever follows the inode in memory. */
  function PointerAt(ino: Inode, k: nat, beyond: u32): u32
    requires k <= NPTRS
  {
    if k < NPTRS then ino.ptrs[k] else beyond
  }

  /** fs_read: a request that runs past the end also fetches the block after the
      last one, so it fails when that pointer cannot be read. */
  ghost function ReadResult(d: Disk, path: Path, len: nat, off: nat, beyond: u32): Result<seq<byte>> {
    var r :- PathInode(d, path);
    var ino := r.1;
    if !IsReg(ino) then Err(EISDIR)
    else if off >= ino.size || ino.size > MAX_FILE then Ok([])
    else
      var past := off + len > ino.size;
      var last := if past then Extent(ino) else (off + len - 1) / 4096;
      if exists p :: off / 4096 <= p <= last && PointerAt(ino, p, beyond) >= |d| then Err(EIO)
      else Ok(Content(d, ino)[off..if past then ino.size as int else off + len])
  }
}
