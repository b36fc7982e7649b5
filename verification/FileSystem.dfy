/** The file system as the C program runs it: a disk of blocks and an in-memory
    bitmap changed in place, one method per operation. Every method is proved to
    do exactly what its plan in Operations says, to issue its block writes in the
    plan's order, and to keep the invariant. */
module FileSystem {
  import opened Layout
  import opened Bitmap
  import opened Image
  import opened Ownership
  import opened Operations
  import FileEdits
  import FileEffects
  import opened Runs
  import Crashes

  /** The path a depth below its last component: all but the last `depth` components. */
  function Ancestor(p: Path, depth: nat): Path {
    if depth <= |p| then p[..|p| - depth] else []
  }

  /** Once a prefix of a path fails to resolve, so does the path. */
  lemma {:induction false} FailureStands(d: Disk, p: Path, k: nat, n: nat)
    requires k <= n <= |p| && Resolve(d, p[..k]).Err?
    ensures Resolve(d, p[..n]) == Resolve(d, p[..k])
    decreases n
  {
    if k < n {
      var less: nat := n - 1;
      assert Parent(p[..n]) == p[..less];
      FailureStands(d, p, k, less);
    }
  }

  lemma ResolveNext(d: Disk, p: Path, k: nat, next: nat, i: nat)
    requires k < |p| && next == k + 1 && Resolve(d, p[..k]) == Ok(i)
    ensures Resolve(d, p[..next]) == Step(d, i, p[k])
  {
    assert Parent(p[..next]) == p[..k] && Last(p[..next]) == p[k];
  }

  /** What a path leads to can be followed. */
  ghost predicate Followable(d: Disk, path: Path) {
    PathInode(d, path).Ok? ==> InRange(d, PathInode(d, path).value.1)
  }

  /** The size of an inode is a file's, and every block it covers is on the disk. */
  ghost predicate InRange(d: Disk, ino: Inode) {
    0 <= ino.size <= MAX_FILE && forall k :: 0 <= k < Extent(ino) ==> ino.ptrs[k] < |d|
  }

  lemma CutIs(ino: Inode, len: nat, cut: Inode)
    requires len <= MAX_FILE && NBlocks(len) <= Extent(ino)
    requires cut == ino.(size := Signed(len), ptrs := CutPointers(ino.ptrs, NBlocks(len), Extent(ino)))
    ensures cut == Cut(ino, len)
  {
  }

  /** So are the blocks of a file that has grown. */
  lemma GrownInRange(s: State, i: nat, off: nat, n: nat, now: u32)
    requires HasRoom(s, i, off, n) && InRange(s.disk, Ino(s.disk, i)) && off <= Ino(s.disk, i).size
    ensures off / 4096 <= LastBlock(off, n) < NPTRS
    ensures forall p :: 0 <= p <= LastBlock(off, n) ==> WrittenInode(s, i, off, n, now).ptrs[p] < |s.disk|
  {
    var ino, got := Ino(s.disk, i), Extra(s, i, off, n);
    FileEdits.GrownExtent(ino, off, n, got, now);
    forall p | 0 <= p <= LastBlock(off, n)
      ensures WrittenInode(s, i, off, n, now).ptrs[p] < |s.disk|
    {
      assert WrittenInode(s, i, off, n, now).ptrs[p] == if p < Extent(ino) then ino.ptrs[p] else got[p - Extent(ino)];
    }
  }

  lemma SoundFollowable(d: Disk, bits: Bits, own: Owners, path: Path)
    requires Sound(d, bits, own)
    ensures Followable(d, path)
  {
    FileEffects.FileAt(d, bits, own, path);
    if Resolve(d, path).Ok? {
      var i := Resolve(d, path).value;
      assert InodeOk(d, own, i);
      forall k | 0 <= k < Extent(Ino(d, i))
        ensures Ino(d, i).ptrs[k] < |d|
      {
        assert PlaceOk(d, own, Ino(d, i).ptrs[k]);
      }
    }
  }

  /** Byte k of the blocks fetched from block `first` of a file on. */
  function FetchedByte(d: Disk, ino: Inode, first: nat, beyond: u32, k: nat): byte
    requires first + k / 4096 <= NPTRS
  {
    Blk(d, PointerAt(ino, first + k / 4096, beyond))[k % 4096]
  }

  /** What the write buffer holds before the caller's bytes are copied in. */
  function OldByte(d: Disk, ptrs: Pointers, have: nat, first: nat, last: nat, k: nat): byte
    requires first <= last < NPTRS && k < 4096 * (last - first + 1)
  {
    if have > 1 && k >= 4096 * (last - first) then Blk(d, ptrs[last])[k - 4096 * (last - first)]
    else if have > 0 && k < 4096 then Blk(d, ptrs[first])[k] else 0
  }

  lemma BlockOfByte(i: nat, k: nat)
    requires 4096 * i <= k < 4096 * i + 4096
    ensures k / 4096 == i && k % 4096 == k - 4096 * i
  {
  }

  /** The last block a read fetches is not before the first, and has a pointer. */
  lemma LastRead(size: nat, len: nat, off: nat)
    requires off < size <= MAX_FILE
    ensures off / 4096 - 1 <= (if off + len > size then NBlocks(size) else (off + len - 1) / 4096) <= NPTRS
    ensures var count := if off + len > size then size - off else len;
      off % 4096 + count <= 4096 * ((if off + len > size then NBlocks(size)
          else (off + len - 1) / 4096) - off / 4096 + 1)
  {
  }

  lemma SamePlace(off: nat, j: nat)
    ensures (off + j) / 4096 == off / 4096 + (off % 4096 + j) / 4096
    ensures (off + j) % 4096 == (off % 4096 + j) % 4096
  {
  }

  /** The fetched blocks hold the wanted bytes from the start offset on. */
  lemma FetchedSlice(d: Disk, ino: Inode, off: nat, count: nat, beyond: u32, bytes: seq<byte>)
    requires 0 <= ino.size <= MAX_FILE && off + count <= ino.size && off % 4096 + count <= |bytes|
    requires off / 4096 <= NPTRS && |bytes| <= 4096 * (NPTRS - off / 4096 + 1)
    requires forall k :: 0 <= k < |bytes| ==> bytes[k] == FetchedByte(d, ino, off / 4096, beyond, k)
    ensures bytes[off % 4096..off % 4096 + count] == Content(d, ino)[off..off + count]
  {
    var got, want := bytes[off % 4096..off % 4096 + count], Content(d, ino)[off..off + count];
    forall j | 0 <= j < count
      ensures got[j] == want[j]
    {
      SamePlace(off, j);
    }
  }

  lemma TwoWrites(t: seq<Write>, a: Write, b: Write)
    ensures t + [a] + [b] == t + [a, b]
  {
  }

  /** The entries of a directory inode. */
  ghost function EntriesOf(d: Disk, ino: Inode): Result<Directory> {
    if !IsDir(ino) then Err(ENOTDIR)
    else
      var db :- ReadBlock(d, ino.ptrs[0]);
      Ok(DirOf(db))
  }

  /** Those entries, if none of them carries the name. */
  ghost function NameIsFree(d: Disk, ino: Inode, name: Name): Result<Directory> {
    var dir :- EntriesOf(d, ino);
    if FindSlot(dir, name, 0) < SLOTS then Err(EEXIST) else Ok(dir)
  }

  /** The directory block a new entry goes to, its contents, and the slot. */
  ghost function PlaceFor(d: Disk, path: Path): Result<(nat, Directory, nat)>
    requires path != []
  {
    var r :- PathInode(d, Parent(path));
    var dir :- NameIsFree(d, r.1, Last(path));
    if FreeSlot(dir, 0) == SLOTS then Err(ENOSPC) else Ok((r.1.ptrs[0] as nat, dir, FreeSlot(dir, 0)))
  }

  lemma MakePlanInHalves(s: State, path: Path, mode: u32, isDir: bool, c: Caller)
    requires path != []
    ensures var place, p := PlaceFor(s.disk, path), MakePlan(s, path, mode, isDir, c);
      if place.Err? then p == Fail(s, place.error)
      else if |Allotted(s, isDir)| < MakeCount(isDir) then p == Fail(s, ENOSPC)
      else place.value.0 < |s.disk| && p == MakeEntry(s, place.value.0, place.value.1, Last(path), mode, isDir, c)
  {
  }

  /** Inode and entry block of a directory whose first slot is free. */
  ghost function SeemsEmpty(d: Disk, path: Path): Result<(nat, nat)> {
    var r :- PathInode(d, path);
    var dir :- EntriesOf(d, r.1);
    if FreeSlot(dir, 0) == SLOTS then Err(ENOSPC)
    else if FreeSlot(dir, 0) != 0 then Err(ENOTEMPTY)
    else Ok((r.0, r.1.ptrs[0] as nat))
  }

  /** The directory a path's last component is looked up in, its block, and the slot. */
  ghost function Containing(d: Disk, path: Path): Result<(Directory, nat, nat)>
    requires path != []
  {
    var r :- PathInode(d, Parent(path));
    var dir :- EntriesOf(d, r.1);
    Ok((dir, r.1.ptrs[0] as nat, FindSlot(dir, Last(path), 0)))
  }

  /** What the two halves of fs_write amount to. */
  lemma WriteInHalves(s: State, i: nat, buf: seq<byte>, off: nat, now: u32, t: seq<Write>, head: seq<Write>,
      data: seq<Write>)
    requires HasRoom(s, i, off, |buf|)
    requires head == HeadWrites(s, i, off, |buf|, now) && data == DataWrites(s, i, buf, off, now)
    ensures var p := WriteFile(s, i, buf, off, now);
      && p.result == Ok(|buf|) && (t + head) + data == t + p.writes && p.bits == WrittenBits(s, i, off, |buf|)
      && p.released == Extent(Ino(s.disk, i)) - 1 - (off + |buf| - 1) / 4096
  {
  }

  lemma CommitIs(s: State, p: Plan, t: State)
    requires t.disk == Apply(s.disk, p.writes) && t.bits == p.bits
    requires t.bfree == s.bfree + p.released && t.bavail == s.bavail + p.released
    ensures t == Commit(s, p)
  {
  }

  lemma WritesInOrder(t: seq<Write>, a: Write, b: Write, z: seq<Write>, m: Write)
    ensures t + [a] + [b] + z + [m] == t + ([a, b] + z + [m])
  {
  }

  /** The writes of a new entry, one after the other. */
  lemma EntryInOrder(s: State, t: seq<Write>, lba: nat, dir: Directory, name: Name, mode: u32, isDir: bool, c: Caller,
      p: Plan)
    requires FreeSlot(dir, 0) < SLOTS && |Allotted(s, isDir)| == MakeCount(isDir)
    requires p == MakeEntry(s, lba, dir, name, mode, isDir, c)
    ensures p.result == Ok(0) && p.bits == Mark(s.bits, Allotted(s, isDir), true) && p.released == -|Allotted(s, isDir)|
    ensures var got := Allotted(s, isDir);
      t + p.writes ==
        t + [Write(got[0], InodeBlock(NewInode(mode, if isDir then got[1] else 0, c)))]
          + [Write(lba, DirBlock(MadeDir(dir, name, got[0])))]
          + (if isDir then [Write(got[1], Zeros())] else [])
          + [Write(BITMAP_LBA, BitmapBlock(p.bits))]
  {
    var got := Allotted(s, isDir);
    WritesInOrder(t, Write(got[0], InodeBlock(NewInode(mode, if isDir then got[1] else 0, c))),
        Write(lba, DirBlock(MadeDir(dir, name, got[0]))), if isDir then [Write(got[1], Zeros())] else [],
        Write(BITMAP_LBA, BitmapBlock(p.bits)));
  }

  class FileSystem {
    const disk: array<Block>
    const bitmap: array<bv8>
    const diskSize: nat
    var bfree: int
    var bavail: int
    ghost const start: Disk
    ghost var trace: seq<Write>
    ghost var own: Owners

    /** The disk is what the block writes so far have made of the image it started from. */
    ghost predicate Wired()
      reads this, disk
    {
      && 2 <= disk.Length <= NBITS && bitmap.Length == BLOCK_SIZE && diskSize == disk.Length
      && disk as object != bitmap as object
      && disk[..] == Apply(start, trace)
    }

    ghost function Snap(): State
      reads this, disk, bitmap
      requires Wired()
    {
      State(disk[..], BitsOf(bitmap[..]), bfree, bavail)
    }

    ghost predicate Valid()
      reads this, disk, bitmap
    {
      Wired() && Safe(Snap(), own)
    }

    // ------------------------------------------------------------------ blocks

    method BlockRead(lba: nat) returns (r: Result<Block>)
      requires Wired()
      ensures r == ReadBlock(disk[..], lba)
    {
      if lba < disk.Length {
        r := Ok(disk[lba]);
      } else {
        r := Err(EIO);
      }
    }

    method BlockWrite(lba: nat, b: Block) returns (r: Result<nat>)
      requires Wired()
      modifies disk, this`trace
      ensures Wired()
      ensures lba < disk.Length ==> r == Ok(0) && trace == old(trace) + [Write(lba, b)]
      ensures lba >= disk.Length ==> r == Err(EIO) && trace == old(trace)
    {
      if lba < disk.Length {
        ApplySnoc(start, trace, Write(lba, b));
        disk[lba] := b;
        trace := trace + [Write(lba, b)];
        assert disk[..] == old(disk[..])[lba := b];
        r := Ok(0);
      } else {
        r := Err(EIO);
      }
    }

    /** Sets or clears the listed bits in memory, then writes the bitmap block. */
    method ModifyBitmapAndWriteback(list: seq<nat>, flag: bool) returns (r: Result<nat>)
      requires Wired() && forall k :: 0 <= k < |list| ==> list[k] < NBITS
      modifies disk, bitmap, this`trace
      ensures Wired() && r == Ok(0)
      ensures BitsOf(bitmap[..]) == Mark(old(BitsOf(bitmap[..])), list, flag)
      ensures trace == old(trace) + [Write(BITMAP_LBA, BitmapBlock(BitsOf(bitmap[..])))]
    {
      ghost var bits := BitsOf(bitmap[..]);
      var k := 0;
      assert list[..0] == [];
      while k < |list|
        invariant 0 <= k <= |list| && Wired()
        invariant trace == old(trace)
        invariant BitsOf(bitmap[..]) == Mark(bits, list[..k], flag)
      {
        MarkSnoc(bits, list[..k], list[k], flag);
        assert list[..k] + [list[k]] == list[..k + 1];
        if flag {
          BitSet(bitmap, list[k]);
        } else {
          BitClear(bitmap, list[k]);
        }
        k := k + 1;
      }
      assert list[..k] == list;
      StoredBitmap(bitmap[..]);
      r := BlockWrite(BITMAP_LBA, BlockOfBytes(bitmap[..]));
    }

    // ---------------------------------------------------------------- resolution

    /** The inode an entry of this name leads to; -1 if there is none. */
    method Search(dir: Directory, name: Name) returns (inodeIndex: int)
      ensures var j := FindSlot(dir, name, 0);
        inodeIndex == if j < SLOTS then dir[j].inode else -1
    {
      inodeIndex := -1;
      var j: nat := 0;
      while j < SLOTS
        invariant 0 <= j <= SLOTS && inodeIndex == -1
        invariant FindSlot(dir, name, 0) == FindSlot(dir, name, j)
      {
        var next: nat := j + 1;
        if dir[j].valid && NameOf(dir[j]) == name {
          inodeIndex := dir[j].inode;
          break;
        }
        assert FindSlot(dir, name, j) == FindSlot(dir, name, next);
        j := next;
      }
    }

    method Translate(path: Path, depth: nat) returns (r: Result<nat>)
      requires Wired()
      ensures r == Resolve(disk[..], Ancestor(path, depth))
    {
      var count: nat := if depth <= |path| then |path| - depth else 0;
      var inodeIndex: nat := 2;
      var token: nat := 0;
      ghost var d: Disk := disk[..];
      assert path[..0] == [] && Ancestor(path, depth) == path[..count];
      while token < count
        invariant token <= count && Resolve(d, path[..token]) == Ok(inodeIndex)
        decreases count - token
      {
        var next: nat := token + 1;
        ResolveNext(d, path, token, next, inodeIndex);
        if Resolve(d, path[..next]).Err? {
          FailureStands(d, path, next, count);
        }
        var inodeBlock :- BlockRead(inodeIndex);
        InodeOfIs(inodeBlock);
        var curInode := DecodeInode(inodeBlock);
        if !IsDir(curInode) {
          return Err(ENOTDIR);
        }
        var dirBlock :- BlockRead(curInode.ptrs[0]);
        DirOfIs(dirBlock);
        var found := Search(DecodeDir(dirBlock), path[token]);
        if found == -1 {
          return Err(ENOENT);
        }
        inodeIndex, token := found, next;
      }
      r := Ok(inodeIndex);
    }

    method PathToInode(path: Path, depth: nat) returns (r: Result<(nat, Inode)>)
      requires Wired()
      ensures r == PathInode(disk[..], Ancestor(path, depth))
    {
      var inum :- Translate(path, depth);
      var block :- BlockRead(inum);
      InodeOfIs(block);
      r := Ok((inum, DecodeInode(block)));
    }

    // ------------------------------------------------------------ what a call did

    /** The call answered r and did exactly what the plan says, to the state it found. */
    ghost predicate Did(s: State, t: seq<Write>, p: Plan, r: Result<nat>)
      reads this, bitmap
      requires bitmap.Length == BLOCK_SIZE
    {
      && r == p.result && trace == t + p.writes && BitsOf(bitmap[..]) == p.bits
      && bfree == s.bfree + p.released && bavail == s.bavail + p.released
    }

    // -------------------------------------------------------------- create, mkdir

    method ValidateDirectoryAndEntry(name: Name, dirInode: Inode) returns (r: Result<Directory>)
      requires Wired()
      ensures r == NameIsFree(disk[..], dirInode, name)
    {
      if !IsDir(dirInode) {
        return Err(ENOTDIR);
      }
      var block :- BlockRead(dirInode.ptrs[0]);
      DirOfIs(block);
      var found := Search(DecodeDir(block), name);
      if found != -1 {
        return Err(EEXIST);
      }
      r := Ok(DecodeDir(block));
    }

    method FindFreeDirEntry(dir: Directory) returns (r: Result<nat>)
      ensures r == if FreeSlot(dir, 0) < SLOTS then Ok(FreeSlot(dir, 0)) else Err(ENOSPC)
    {
      var j: nat := 0;
      while j < SLOTS
        invariant 0 <= j <= SLOTS
        invariant FreeSlot(dir, 0) == FreeSlot(dir, j)
      {
        var next: nat := j + 1;
        if !dir[j].valid {
          return Ok(j);
        }
        assert FreeSlot(dir, j) == FreeSlot(dir, next);
        j := next;
      }
      r := Err(ENOSPC);
    }

    method InodeFromMode(mode: u32, c: Caller) returns (ino: Inode)
      ensures ino == NewInode(mode, 0, c)
    {
      ino := Inode(c.uid, c.gid, mode, c.now, c.now, if Kind(mode) == 4 then BLOCK_SIZE else 0, NoPointers());
      assert NoPointers()[0 := 0] == NoPointers();
    }

    /** The second half of create_directory_entry: its block writes. */
    method WriteNewEntry(lba: nat, dir: Directory, free: nat, name: Name, mode: u32, isDir: bool, c: Caller,
            got: seq<nat>)
      returns (r: Result<nat>)
      requires Wired() && lba < disk.Length && free == FreeSlot(dir, 0) < SLOTS
      requires got == Allotted(Snap(), isDir) && |got| == MakeCount(isDir)
      modifies this`trace, this`bfree, this`bavail, disk, bitmap
      ensures Wired() && Did(old(Snap()), old(trace), MakeEntry(old(Snap()), lba, dir, name, mode, isDir, c), r)
    {
      ghost var s, t := Snap(), trace;
      var inode := InodeFromMode(mode, c);
      inode := inode.(ptrs := inode.ptrs[0 := if isDir then got[1] else 0]);
      assert inode == NewInode(mode, if isDir then got[1] else 0, c);
      InodeBlockIs(inode);
      r := BlockWrite(got[0], EncodeInode(inode));
      if r.Err? {
        return;
      }
      var dirBlock := dir[free := NewEntry(dir[free], name, got[0])];
      DirBlockIs(dirBlock);
      r := BlockWrite(lba, EncodeDir(dirBlock));
      if r.Err? {
        return;
      }
      r := ZeroEntries(isDir, if isDir then got[1] else 0);
      if r.Err? {
        return;
      }
      bfree := bfree - |got|;
      bavail := bavail - |got|;
      r := ModifyBitmapAndWriteback(got, true);
      EntryInOrder(s, t, lba, dir, name, mode, isDir, c, MakeEntry(s, lba, dir, name, mode, isDir, c));
    }

    /** Clears the entries of a new directory. */
    method ZeroEntries(isDir: bool, lba: nat) returns (r: Result<nat>)
      requires Wired() && lba < disk.Length
      modifies this`trace, disk
      ensures Wired() && r == Ok(0) && trace == old(trace) + if isDir then [Write(lba, Zeros())] else []
    {
      r := Ok(0);
      if isDir {
        r := BlockWrite(lba, Zeros());
      }
    }

    /** The checks of create_directory_entry on the directory. */
    method FindPlace(path: Path) returns (r: Result<(nat, Directory, nat)>)
      requires Wired() && path != []
      ensures r == PlaceFor(disk[..], path)
    {
      assert Ancestor(path, 1) == Parent(path);
      var found :- PathToInode(path, 1);
      var dirInode := found.1;
      var dirBlock :- ValidateDirectoryAndEntry(Last(path), dirInode);
      var free :- FindFreeDirEntry(dirBlock);
      r := Ok((dirInode.ptrs[0], dirBlock, free));
    }

    method CreateDirectoryEntry(path: Path, mode: u32, isDir: bool, c: Caller) returns (r: Result<nat>)
      requires Wired() && path != []
      modifies this`trace, this`bfree, this`bavail, disk, bitmap
      ensures Wired() && Did(old(Snap()), old(trace), MakePlan(old(Snap()), path, mode, isDir, c), r)
    {
      assert trace + [] == trace;
      MakePlanInHalves(Snap(), path, mode, isDir, c);
      var place :- FindPlace(path);
      LowestFreeCount(BitsOf(bitmap[..]), 0, diskSize, MakeCount(isDir));
      var ok, got := FindFirstNFreeBlocks(bitmap, 0, if isDir then 2 else 1, diskSize);
      if !ok {
        return Err(ENOSPC);
      }
      r := WriteNewEntry(place.0, place.1, place.2, Last(path), mode, isDir, c, got);
    }

    // -------------------------------------------------------------- unlink, rmdir

    method UnlinkDirectoryEntry(path: Path) returns (r: Result<nat>)
      requires Wired() && path != []
      modifies this`trace, disk
      ensures Wired()
      ensures match EntryRemoval(old(disk[..]), path)
              case Err(e) => r == Err(e) && trace == old(trace)
              case Ok(w) => r == Ok(0) && trace == old(trace) + [w]
    {
      assert Ancestor(path, 1) == Parent(path);
      var found :- PathToInode(path, 1);
      var lba := found.1.ptrs[0];
      var block :- BlockRead(lba);
      DirOfIs(block);
      var dirBlock := DecodeDir(block);
      var index := FindIndexInDir(dirBlock, Last(path));
      if index == SLOTS {
        return Err(ENOENT);
      }
      dirBlock := dirBlock[index := dirBlock[index].(valid := false)];
      DirBlockIs(dirBlock);
      r := BlockWrite(lba, EncodeDir(dirBlock));
    }

    method FindIndexInDir(dir: Directory, name: Name) returns (j: nat)
      ensures j == FindSlot(dir, name, 0)
    {
      j := 0;
      while j < SLOTS
        invariant 0 <= j <= SLOTS
        invariant FindSlot(dir, name, 0) == FindSlot(dir, name, j)
      {
        var next: nat := j + 1;
        if dir[j].valid && NameOf(dir[j]) == name {
          return;
        }
        assert FindSlot(dir, name, j) == FindSlot(dir, name, next);
        j := next;
      }
    }

    /** The blocks a file of this size has: size / 4096, rounded up. */
    method SizeInBlocks(size: i32) returns (n: nat)
      requires 0 <= size <= MAX_FILE
      ensures n == NBlocks(size) <= NPTRS
    {
      n := size / BLOCK_SIZE + if size % BLOCK_SIZE > 0 then 1 else 0;
    }

    /** What unlink and rmdir end with, once they know which blocks to free. */
    method Remove(path: Path, freed: seq<nat>) returns (r: Result<nat>)
      requires Wired() && path != [] && forall k :: 0 <= k < |freed| ==> freed[k] < NBITS
      modifies this`trace, this`bfree, this`bavail, disk, bitmap
      ensures Wired() && Did(old(Snap()), old(trace), RemovalPlan(old(Snap()), path, freed), r)
    {
      ghost var t, removal := trace, EntryRemoval(disk[..], path);
      assert t + [] == t;
      r := UnlinkDirectoryEntry(path);
      if r.Err? {
        return;
      }
      r := ModifyBitmapAndWriteback(freed, false);
      TwoWrites(t, removal.value, Write(BITMAP_LBA, BitmapBlock(BitsOf(bitmap[..]))));
      bfree := bfree + |freed|;
      bavail := bavail + |freed|;
    }

    /** The blocks of a file and its inode, in the order they are freed. */
    method BlocksToFree(inum: nat, inode: Inode) returns (freed: seq<nat>)
      requires 0 <= inode.size <= MAX_FILE
      ensures freed == inode.ptrs[..Extent(inode)] + [inum]
    {
      var count := SizeInBlocks(inode.size);
      freed := [];
      var k := 0;
      while k < count
        invariant 0 <= k <= count && freed == inode.ptrs[..k]
      {
        freed := freed + [inode.ptrs[k]];
        k := k + 1;
      }
      freed := freed + [inum];
    }

    method FsUnlink(path: Path) returns (r: Result<nat>)
      requires Wired() && path != [] && Followable(disk[..], path)
      modifies this`trace, this`bfree, this`bavail, disk, bitmap
      ensures Wired() && Did(old(Snap()), old(trace), UnlinkPlan(old(Snap()), path), r)
    {
      assert trace + [] == trace;
      assert Ancestor(path, 0) == path;
      var found :- PathToInode(path, 0);
      var freed := BlocksToFree(found.0, found.1);
      r := Remove(path, freed);
    }

    /** Looks only at the first slot that is not in use. */
    method CheckDirEmpty(path: Path) returns (r: Result<(nat, nat)>)
      requires Wired()
      ensures r == SeemsEmpty(disk[..], path)
    {
      assert Ancestor(path, 0) == path;
      var found :- PathToInode(path, 0);
      if !IsDir(found.1) {
        return Err(ENOTDIR);
      }
      var lba: nat := found.1.ptrs[0];
      var block :- BlockRead(lba);
      DirOfIs(block);
      var free :- FindFreeDirEntry(DecodeDir(block));
      r := if free == 0 then Ok((found.0, lba)) else Err(ENOTEMPTY);
    }

    method FsRmdir(path: Path) returns (r: Result<nat>)
      requires Wired() && path != []
      modifies this`trace, this`bfree, this`bavail, disk, bitmap
      ensures Wired() && Did(old(Snap()), old(trace), RmdirPlan(old(Snap()), path), r)
    {
      assert trace + [] == trace;
      var found :- CheckDirEmpty(path);
      r := Remove(path, [found.0, found.1]);
    }

    // -------------------------------------------------------------- rename, chmod

    /** The directory block that holds the last component, its number and the slot. */
    method FileDir(path: Path) returns (r: Result<(Directory, nat, nat)>)
      requires Wired() && path != []
      ensures r == Containing(disk[..], path)
    {
      assert Ancestor(path, 1) == Parent(path);
      var found :- PathToInode(path, 1);
      if !IsDir(found.1) {
        return Err(ENOTDIR);
      }
      var lba: nat := found.1.ptrs[0];
      var block :- BlockRead(lba);
      DirOfIs(block);
      var index := FindIndexInDir(DecodeDir(block), Last(path));
      r := Ok((DecodeDir(block), lba, index));
    }

    method SameParent(src: Path, dst: Path) returns (same: bool)
      requires |src| == |dst|
      ensures same == (Parent(src) == Parent(dst))
    {
      var token := 0;
      while token < |src| - 1
        invariant 0 <= token <= |src|
        invariant src[..token] == dst[..token] && (src != [] ==> token <= |src| - 1)
      {
        if src[token] != dst[token] {
          assert Parent(src)[token] != Parent(dst)[token];
          return false;
        }
        token := token + 1;
      }
      same := true;
    }

    method FsRename(src: Path, dst: Path) returns (r: Result<nat>)
      requires Wired()
      modifies this`trace, disk
      ensures Wired() && Did(old(Snap()), old(trace), RenamePlan(old(Snap()), src, dst), r)
    {
      assert trace + [] == trace;
      assert Ancestor(src, 0) == src && Ancestor(dst, 0) == dst;
      var source :- PathToInode(src, 0);
      var target := PathToInode(dst, 0);
      if target.Ok? {
        return Err(EEXIST);
      }
      if |dst| != |src| {
        return Err(EINVAL);
      }
      var same := SameParent(src, dst);
      if !same {
        return Err(EINVAL);
      }
      assert src == [] ==> dst == src;
      var found :- FileDir(src);
      var dir, lba, index := found.0, found.1, found.2;
      if index == SLOTS {
        return Err(ENOENT);
      }
      dir := dir[index := Renamed(dir[index], Last(dst))];
      DirBlockIs(dir);
      r := BlockWrite(lba, EncodeDir(dir));
    }

    method FsChmod(path: Path, mode: u32) returns (r: Result<nat>)
      requires Wired()
      modifies this`trace, disk
      ensures Wired() && Did(old(Snap()), old(trace), ChmodPlan(old(Snap()), path, mode), r)
    {
      assert trace + [] == trace;
      assert Ancestor(path, 0) == path;
      var found :- PathToInode(path, 0);
      var inum, inode := found.0, found.1;
      inode := inode.(mode := WithPermissions(inode.mode, mode));
      InodeBlockIs(inode);
      r := BlockWrite(inum, EncodeInode(inode));
    }

    // ------------------------------------------------------------------- truncate

    /** Drops the pointers of blocks want..have and collects what they held. */
    method DropBlocks(ptrs: Pointers, want: nat, have: nat) returns (freed: seq<nat>, cut: Pointers)
      requires want <= have <= NPTRS
      ensures freed == ptrs[want..have] && cut == CutPointers(ptrs, want, have)
    {
      freed, cut := [], ptrs;
      var k := want;
      while k < have
        invariant want <= k <= have
        invariant freed == ptrs[want..k] && cut == CutPointers(ptrs, want, k)
      {
        freed := freed + [cut[k]];
        cut := cut[k := NOWHERE];
        k := k + 1;
      }
    }

    /** The second half of fs_truncate: its block writes. */
    method CutFile(inum: nat, inode: Inode, len: nat, want: nat, have: nat) returns (r: Result<nat>)
      requires Wired() && inum < disk.Length && want == NBlocks(len) <= have == Extent(inode) && len <= MAX_FILE
      requires forall k :: 0 <= k < have ==> inode.ptrs[k] < NBITS
      modifies this`trace, this`bfree, this`bavail, disk, bitmap
      ensures Wired() && Did(old(Snap()), old(trace), TruncateFile(old(Snap()), inum, inode, len), r)
    {
      ghost var t := trace;
      var freed, ptrs := DropBlocks(inode.ptrs, want, have);
      var newInode := inode.(size := Signed(len), ptrs := ptrs);
      CutIs(inode, len, newInode);
      InodeBlockIs(newInode);
      r := BlockWrite(inum, EncodeInode(newInode));
      if r.Err? {
        return;
      }
      r := ModifyBitmapAndWriteback(freed, false);
      TwoWrites(t, Write(inum, InodeBlock(newInode)), Write(BITMAP_LBA, BitmapBlock(BitsOf(bitmap[..]))));
      bfree := bfree + |freed|;
      bavail := bavail + |freed|;
    }

    method FsTruncate(path: Path, len: int) returns (r: Result<nat>)
      requires Wired() && Followable(disk[..], path)
      modifies this`trace, this`bfree, this`bavail, disk, bitmap
      ensures Wired() && Did(old(Snap()), old(trace), TruncatePlan(old(Snap()), path, len), r)
    {
      assert trace + [] == trace;
      assert Ancestor(path, 0) == path;
      if len < 0 {
        return Err(EINVAL);
      }
      var found :- PathToInode(path, 0);
      var inum, inode := found.0, found.1;
      if !IsReg(inode) {
        return Err(EISDIR);
      }
      var have := SizeInBlocks(inode.size);
      var want := len / BLOCK_SIZE + if len % BLOCK_SIZE > 0 then 1 else 0;
      if want > have {
        return Err(EINVAL);
      }
      r := CutFile(inum, inode, len, want, have);
    }

    // ----------------------------------------------------------------------- read

    /** memcpy into a buffer. */
    method Memcpy(dst: array<byte>, at: nat, src: seq<byte>)
      requires at + |src| <= dst.Length
      modifies dst
      ensures forall k :: 0 <= k < dst.Length ==> dst[k] == if at <= k < at + |src| then src[k - at] else old(dst[k])
    {
      var j := 0;
      while j < |src|
        invariant 0 <= j <= |src|
        invariant forall k :: 0 <= k < dst.Length ==> dst[k] == if at <= k < at + j then src[k - at] else old(dst[k])
      {
        dst[at + j] := src[j];
        j := j + 1;
      }
    }

    /** block_read into a buffer. */
    method BlockReadInto(dst: array<byte>, at: nat, lba: nat) returns (r: Result<nat>)
      requires Wired() && at + 4096 <= dst.Length
      modifies dst
      ensures r == if lba < disk.Length then Ok(0) else Err(EIO)
      ensures forall k :: 0 <= k < dst.Length ==>
        dst[k] == if lba < disk.Length && at <= k < at + 4096 then old(disk[lba][k - at]) else old(dst[k])
    {
      if lba >= disk.Length {
        return Err(EIO);
      }
      Memcpy(dst, at, disk[lba]);
      r := Ok(0);
    }

    /** Reads blocks first..last of a file into one buffer. */
    method ReadBlocks(inode: Inode, first: nat, last: int, beyond: u32) returns (r: Result<array<byte>>)
      requires Wired() && first - 1 <= last <= NPTRS
      ensures r.Err? <==> exists p :: first <= p <= last && PointerAt(inode, p, beyond) >= disk.Length
      ensures r.Err? ==> r.error == EIO
      ensures r.Ok? ==> fresh(r.value) && r.value.Length == 4096 * (last - first + 1) &&
                        forall k :: 0 <= k < r.value.Length ==>
                            r.value[k] == FetchedByte(disk[..], inode, first, beyond, k)
    {
      var count: nat := last - first + 1;
      var blkBuf := new byte[4096 * count];
      var i: nat := 0;
      while i < count
        invariant i <= count
        invariant forall p :: first <= p < first + i ==> PointerAt(inode, p, beyond) < disk.Length
        invariant forall k :: 0 <= k < 4096 * i ==> blkBuf[k] == FetchedByte(disk[..], inode, first, beyond, k)
      {
        var block := BlockRead(PointerAt(inode, first + i, beyond));
        if block.Err? {
          return Err(block.error);
        }
        Memcpy(blkBuf, 4096 * i, block.value);
        forall k | 4096 * i <= k < 4096 * i + 4096
          ensures block.value[k - 4096 * i] == FetchedByte(disk[..], inode, first, beyond, k)
        {
          BlockOfByte(i, k);
        }
        i := i + 1;
      }
      r := Ok(blkBuf);
    }

    method FsRead(path: Path, len: nat, off: nat, beyond: u32) returns (r: Result<seq<byte>>)
      requires Wired() && Followable(disk[..], path)
      ensures r == ReadResult(disk[..], path, len, off, beyond)
    {
      assert Ancestor(path, 0) == path;
      var found :- PathToInode(path, 0);
      var inode := found.1;
      if !IsReg(inode) {
        return Err(EISDIR);
      }
      var fileLen := inode.size;
      if off >= fileLen {
        return Ok([]);
      }
      var first, startOffset := off / BLOCK_SIZE, off % BLOCK_SIZE;
      var last := (off + len - 1) / BLOCK_SIZE;
      var count := len;
      if off + len > fileLen {
        last := SizeInBlocks(fileLen);
        count := fileLen - off;
      }
      LastRead(fileLen, len, off);
      var blocks := ReadBlocks(inode, first, last, beyond);
      if blocks.Err? {
        return Err(blocks.error);
      }
      FetchedSlice(disk[..], inode, off, count, beyond, blocks.value[..]);
      r := Ok(blocks.value[startOffset..startOffset + count]);
    }

    // ---------------------------------------------------------------------- write

    /** Puts the new block numbers after the old ones. */
    method AttachBlocks(ptrs: Pointers, have: nat, got: seq<nat>) returns (grown: Pointers)
      requires have + |got| <= NPTRS && forall k :: 0 <= k < |got| ==> got[k] < NBITS
      ensures grown == GrowPointers(ptrs, have, got)
    {
      grown := ptrs;
      var k := 0;
      while k < |got|
        invariant 0 <= k <= |got| && grown == GrowPointers(ptrs, have, got[..k])
      {
        grown := grown[have + k := got[k]];
        k := k + 1;
      }
      assert got[..k] == got;
    }

    /** Reserves the new blocks of a write, if it needs any, and attaches them. */
    method Reserve(ptrs: Pointers, have: nat, got: seq<nat>) returns (r: Result<nat>, grown: Pointers)
      requires Wired() && have + |got| <= NPTRS && forall k :: 0 <= k < |got| ==> got[k] < NBITS
      modifies this`trace, disk, bitmap
      ensures Wired() && r == Ok(0) && grown == GrowPointers(ptrs, have, got)
      ensures BitsOf(bitmap[..]) == Mark(old(BitsOf(bitmap[..])), got, true)
      ensures trace == old(trace) + if |got| > 0 then [Write(BITMAP_LBA, BitmapBlock(BitsOf(bitmap[..])))] else []
    {
      r, grown := Ok(0), ptrs;
      if |got| > 0 {
        r := ModifyBitmapAndWriteback(got, true);
        if r.Err? {
          return;
        }
        grown := AttachBlocks(ptrs, have, got);
      } else {
        assert grown == GrowPointers(ptrs, have, []);
      }
    }

    /** The first half of a write: reserves the new blocks and updates the inode. */
    method WriteHead(inum: nat, inode: Inode, off: nat, n: nat, now: u32, got: seq<nat>) returns (r: Result<nat>,
            grown: Inode)
      requires Wired() && inum < disk.Length && inode == Ino(disk[..], inum) && HasRoom(Snap(), inum, off, n)
      requires got == Extra(Snap(), inum, off, n) && 0 <= inode.size <= MAX_FILE
      modifies this`trace, disk, bitmap
      ensures Wired() && r == Ok(0) && grown == WrittenInode(old(Snap()), inum, off, n, now)
      ensures trace == old(trace) + HeadWrites(old(Snap()), inum, off, n, now)
      ensures BitsOf(bitmap[..]) == WrittenBits(old(Snap()), inum, off, n)
    {
      ghost var t := trace;
      var have := SizeInBlocks(inode.size);
      var ptrs: Pointers;
      r, ptrs := Reserve(inode.ptrs, have, got);
      grown := inode.(ptrs := ptrs);
      if r.Err? {
        return;
      }
      if off + n > inode.size {
        grown := grown.(size := off + n);
      }
      grown := grown.(mtime := now);
      InodeBlockIs(grown);
      TwoWrites(t, Write(BITMAP_LBA, BitmapBlock(BitsOf(bitmap[..]))), Write(inum, InodeBlock(grown)));
      assert t + [] == t;
      r := BlockWrite(inum, EncodeInode(grown));
    }

    /** Reads the old first and last block into the write buffer. */
    method FetchEnds(blkBuf: array<byte>, ptrs: Pointers, have: nat, first: nat, last: nat) returns (r: Result<nat>)
      requires Wired() && first <= last < NPTRS && blkBuf.Length == 4096 * (last - first + 1)
      requires ptrs[first] < disk.Length && ptrs[last] < disk.Length && forall k :: 0 <= k < blkBuf.Length ==>
          blkBuf[k] == 0
      modifies blkBuf
      ensures r == Ok(0) && forall k :: 0 <= k < blkBuf.Length ==>
          blkBuf[k] == OldByte(disk[..], ptrs, have, first, last, k)
    {
      r := Ok(0);
      if have > 0 {
        r := BlockReadInto(blkBuf, 0, ptrs[first]);
        if r.Err? {
          return;
        }
      }
      if have > 1 {
        r := BlockReadInto(blkBuf, 4096 * (last - first), ptrs[last]);
      }
    }

    /** The write buffer: the old first and last block under the caller's bytes. */
    method FillBuffer(ptrs: Pointers, have: nat, first: nat, last: nat, off: nat, buf: seq<byte>)
      returns (r: Result<nat>, blkBuf: array<byte>)
      requires Wired() && first == off / 4096 && first <= last < NPTRS
          && off % 4096 + |buf| <= 4096 * (last - first + 1)
      requires ptrs[first] < disk.Length && ptrs[last] < disk.Length
      ensures r == Ok(0) && fresh(blkBuf) && blkBuf[..] == WriteBuffer(disk[..], ptrs, have, first, last, off, buf)
    {
      blkBuf := new byte[4096 * (last - first + 1)](_ => 0);
      r := FetchEnds(blkBuf, ptrs, have, first, last);
      if r.Err? {
        return;
      }
      Memcpy(blkBuf, off % 4096, buf);
    }

    /** Writes the buffer to blocks first..last of the file. */
    method WriteBlocks(ptrs: Pointers, first: nat, last: nat, bytes: array<byte>) returns (r: Result<nat>)
      requires Wired() && first <= last < NPTRS && bytes.Length == 4096 * (last - first + 1)
      requires forall p :: first <= p <= last ==> ptrs[p] < disk.Length
      modifies this`trace, disk
      ensures Wired() && r == Ok(0) && trace == old(trace) + BlockWrites(ptrs, first, last, bytes[..])
    {
      ghost var ws := BlockWrites(ptrs, first, last, bytes[..]);
      var i := 0;
      r := Ok(0);
      while i < last - first + 1
        invariant 0 <= i <= last - first + 1 && Wired() && r == Ok(0)
        invariant trace == old(trace) + ws[..i]
      {
        assert ws[i] == Write(ptrs[first + i], bytes[4096 * i..4096 * i + 4096]);
        assert ws[..i + 1] == ws[..i] + [ws[i]];
        r := BlockWrite(ptrs[first + i], bytes[4096 * i..4096 * i + 4096]);
        if r.Err? {
          return;
        }
        i := i + 1;
      }
      assert ws[..i] == ws;
    }

    /** The last part of a write: fetches the ends, and writes block after block. */
    method WriteData(grown: Inode, have: nat, off: nat, buf: seq<byte>, ghost s: State, ghost inum: nat, ghost now: u32)
      returns (r: Result<nat>)
      requires Wired() && HasRoom(s, inum, off, |buf|) && InRange(s.disk, Ino(s.disk, inum))
          && off <= Ino(s.disk, inum).size
      requires disk[..] == Apply(s.disk, HeadWrites(s, inum, off, |buf|, now))
      requires grown == WrittenInode(s, inum, off, |buf|, now) && have == Extent(Ino(s.disk, inum))
      modifies this`trace, disk
      ensures Wired() && r == Ok(0) && trace == old(trace) + DataWrites(s, inum, buf, off, now)
    {
      var first, last := off / BLOCK_SIZE, (off + |buf| - 1) / BLOCK_SIZE;
      GrownInRange(s, inum, off, |buf|, now);
      var blkBuf: array<byte>;
      r, blkBuf := FillBuffer(grown.ptrs, have, first, last, off, buf);
      if r.Err? {
        return;
      }
      r := WriteBlocks(grown.ptrs, first, last, blkBuf);
    }

    /** The second half of fs_write, once blocks have been found for it. */
    method WriteBytes(inum: nat, inode: Inode, off: nat, buf: seq<byte>, now: u32,
            got: seq<nat>) returns (r: Result<nat>)
      requires Wired() && inum < disk.Length && inode == Ino(disk[..], inum) && HasRoom(Snap(), inum, off, |buf|)
      requires got == Extra(Snap(), inum, off, |buf|) && InRange(disk[..], inode) && off <= inode.size
      modifies this`trace, this`bfree, this`bavail, disk, bitmap
      ensures Wired() && Did(old(Snap()), old(trace), WriteFile(old(Snap()), inum, buf, off, now), r)
    {
      ghost var s, t := Snap(), trace;
      ghost var head, data := HeadWrites(s, inum, off, |buf|, now), DataWrites(s, inum, buf, off, now);
      var have := SizeInBlocks(inode.size);
      r := WriteBlocksOf(inum, inode, have, off, buf, now, got, s, head);
      if r.Err? {
        return;
      }
      var needed := (off + |buf| - 1) / BLOCK_SIZE - have + 1;
      bavail := bavail - needed;
      bfree := bfree - needed;
      WriteInHalves(s, inum, buf, off, now, t, head, data);
      r := Ok(|buf|);
    }

    /** All block writes of fs_write: head, then data. */
    method WriteBlocksOf(inum: nat, inode: Inode, have: nat, off: nat, buf: seq<byte>, now: u32, got: seq<nat>,
            ghost s: State, ghost head: seq<Write>) returns (r: Result<nat>)
      requires Wired() && s == Snap() && inum < disk.Length && inode == Ino(s.disk, inum)
          && HasRoom(s, inum, off, |buf|)
      requires got == Extra(s, inum, off, |buf|) && InRange(s.disk, inode) && off <= inode.size && have == Extent(inode)
      requires head == HeadWrites(s, inum, off, |buf|, now)
      modifies this`trace, disk, bitmap
      ensures Wired() && r == Ok(0) && BitsOf(bitmap[..]) == WrittenBits(s, inum, off, |buf|)
      ensures trace == (old(trace) + head) + DataWrites(s, inum, buf, off, now)
    {
      ghost var t := trace;
      var grown: Inode;
      r, grown := WriteHead(inum, inode, off, |buf|, now, got);
      if r.Err? {
        return;
      }
      ApplyAppend(start, t, head);
      r := WriteData(grown, have, off, buf, s, inum, now);
    }

    /** Looks for the blocks a write must add; none when it ends in the blocks there are. */
    method FindRoom(inum: nat, inode: Inode, off: nat, n: nat) returns (ok: bool, got: seq<nat>)
      requires Wired() && inode == Ino(disk[..], inum) && 0 <= inode.size <= MAX_FILE
      ensures ok == EnoughFree(Snap(), inum, off, n) && (ok ==> got == Extra(Snap(), inum, off, n))
    {
      var have := SizeInBlocks(inode.size);
      var needed := (off + n - 1) / BLOCK_SIZE - have + 1;
      ok, got := true, [];
      if needed > 0 {
        LowestFreeCount(BitsOf(bitmap[..]), 0, diskSize, needed);
        ok, got := FindFirstNFreeBlocks(bitmap, 0, needed, diskSize);
      }
    }

    method FsWrite(path: Path, buf: seq<byte>, off: nat, now: u32) returns (r: Result<nat>)
      requires Wired() && WriteDefined(Snap(), path, off, |buf|) && Followable(disk[..], path)
      modifies this`trace, this`bfree, this`bavail, disk, bitmap
      ensures Wired() && Did(old(Snap()), old(trace), WritePlan(old(Snap()), path, buf, off, now), r)
    {
      assert trace + [] == trace;
      assert Ancestor(path, 0) == path;
      var found :- PathToInode(path, 0);
      var inum, inode := found.0, found.1;
      if !IsReg(inode) {
        return Err(EISDIR);
      }
      if off > inode.size {
        return Err(EINVAL);
      }
      var ok, got := FindRoom(inum, inode, off, |buf|);
      if !ok {
        return Err(ENOSPC);
      }
      r := WriteBytes(inum, inode, off, buf, now, got);
    }

    // -------------------------------------------------------------- the operations

    /** The call answered r as the plan of op does, and left exactly the state, the
        writes and the ownership that op leads to; an exact bitmap is exact still. */
    ghost predicate Completed(s: State, o: Owners, t: seq<Write>, op: Op, r: Result<nat>)
      reads this, disk, bitmap
      requires Wired() && Safe(s, o) && Allowed(s, op)
    {
      && r == PlanOf(s, op).result && Snap() == After(s, op)
      && trace == t + PlanOf(s, op).writes && own == OwnAfter(s, o, op)
      && Kept(s, o, Snap(), own)
    }

    /** Having done what the plan says, the image is as good as before. */
    ghost method Settle(s: State, o: Owners, t: seq<Write>, op: Op, r: Result<nat>)
      requires Wired() && Safe(s, o) && Allowed(s, op) && s.disk == Apply(start, t) && Did(s, t, PlanOf(s, op), r)
      modifies this`own
      ensures Valid() && Completed(s, o, t, op, r)
    {
      ApplyAppend(start, t, PlanOf(s, op).writes);
      CommitIs(s, PlanOf(s, op), Snap());
      StepKeeps(s, o, op);
      own := OwnAfter(s, o, op);
    }

    /** fs_init: loads the bitmap and counts the free blocks of any image. If what
        is in use on it is marked, also if a crash has left it so, the file system
        can go to work. */
    constructor (image: Disk, ghost owners: Owners)
      requires 3 <= |image| && U32(image[0], 4) == |image|
      ensures Wired() && fresh(disk) && fresh(bitmap)
      ensures disk[..] == image && Snap() == Crashes.Mounted(image) && Counted(Snap()) && trace == [] && own == owners
      ensures Crashes.Mountable(image, owners) ==> Valid()
    {
      disk := new Block[|image|](k requires 0 <= k < |image| => image[k]);
      bitmap := new bv8[BLOCK_SIZE](j requires 0 <= j < BLOCK_SIZE => image[BITMAP_LBA][j] as bv8);
      diskSize := U32(image[0], 4);
      start, trace, own := image, [], owners;
      bfree, bavail := 0, 0;
      new;
      assert disk[..] == image;
      assert bitmap[..] == BytesOfBlock(image[BITMAP_LBA]);
      ghost var bits := BitsOf(bitmap[..]);
      var blocksFree: nat, i: nat := 0, 0;
      while i < diskSize
        invariant i <= diskSize && blocksFree + FreeIn(bits, i, diskSize) == FreeIn(bits, 0, diskSize)
        invariant disk[..] == image && BitsOf(bitmap[..]) == bits && own == owners && trace == []
      {
        var used := BitTest(bitmap, i);
        blocksFree := blocksFree + if used then 0 else 1;
        i := i + 1;
      }
      bfree := blocksFree;
      bavail := bfree;
      assert Blk(disk[..], BITMAP_LBA) == image[BITMAP_LBA];
      assert Apply(start, []) == start;
    }

    method Create(path: Path, mode: u32, c: Caller) returns (r: Result<nat>)
      requires Valid() && Allowed(Snap(), Op.Create(path, mode, c))
      modifies this`trace, this`bfree, this`bavail, this`own, disk, bitmap
      ensures Valid() && Completed(old(Snap()), old(own), old(trace), Op.Create(path, mode, c), r)
    {
      ghost var s, o, t := Snap(), own, trace;
      r := CreateDirectoryEntry(path, mode, false, c);
      Settle(s, o, t, Op.Create(path, mode, c), r);
    }

    method Mkdir(path: Path, perm: u32, c: Caller) returns (r: Result<nat>)
      requires Valid() && Allowed(Snap(), Op.Mkdir(path, perm, c))
      modifies this`trace, this`bfree, this`bavail, this`own, disk, bitmap
      ensures Valid() && Completed(old(Snap()), old(own), old(trace), Op.Mkdir(path, perm, c), r)
    {
      ghost var s, o, t := Snap(), own, trace;
      r := CreateDirectoryEntry(path, DirMode(perm), true, c);
      Settle(s, o, t, Op.Mkdir(path, perm, c), r);
    }

    method Unlink(path: Path) returns (r: Result<nat>)
      requires Valid() && path != []
      modifies this`trace, this`bfree, this`bavail, this`own, disk, bitmap
      ensures Valid() && Completed(old(Snap()), old(own), old(trace), Op.Unlink(path), r)
    {
      ghost var s, o, t := Snap(), own, trace;
      SoundFollowable(s.disk, s.bits, o, path);
      r := FsUnlink(path);
      Settle(s, o, t, Op.Unlink(path), r);
    }

    method Rmdir(path: Path) returns (r: Result<nat>)
      requires Valid() && path != []
      modifies this`trace, this`bfree, this`bavail, this`own, disk, bitmap
      ensures Valid() && Completed(old(Snap()), old(own), old(trace), Op.Rmdir(path), r)
    {
      ghost var s, o, t := Snap(), own, trace;
      r := FsRmdir(path);
      Settle(s, o, t, Op.Rmdir(path), r);
    }

    method Rename(src: Path, dst: Path) returns (r: Result<nat>)
      requires Valid()
      modifies this`trace, this`own, disk
      ensures Valid() && Completed(old(Snap()), old(own), old(trace), Op.Rename(src, dst), r)
    {
      ghost var s, o, t := Snap(), own, trace;
      r := FsRename(src, dst);
      Settle(s, o, t, Op.Rename(src, dst), r);
    }

    method Chmod(path: Path, mode: u32) returns (r: Result<nat>)
      requires Valid()
      modifies this`trace, this`own, disk
      ensures Valid() && Completed(old(Snap()), old(own), old(trace), Op.Chmod(path, mode), r)
    {
      ghost var s, o, t := Snap(), own, trace;
      r := FsChmod(path, mode);
      Settle(s, o, t, Op.Chmod(path, mode), r);
    }

    method Truncate(path: Path, len: int) returns (r: Result<nat>)
      requires Valid()
      modifies this`trace, this`bfree, this`bavail, this`own, disk, bitmap
      ensures Valid() && Completed(old(Snap()), old(own), old(trace), Op.Truncate(path, len), r)
    {
      ghost var s, o, t := Snap(), own, trace;
      SoundFollowable(s.disk, s.bits, o, path);
      r := FsTruncate(path, len);
      Settle(s, o, t, Op.Truncate(path, len), r);
    }

    method WriteAt(path: Path, buf: seq<byte>, off: nat, now: u32) returns (r: Result<nat>)
      requires Valid() && WriteDefined(Snap(), path, off, |buf|)
      modifies this`trace, this`bfree, this`bavail, this`own, disk, bitmap
      ensures Valid() && Completed(old(Snap()), old(own), old(trace), Op.WriteAt(path, buf, off, now), r)
    {
      ghost var s, o, t := Snap(), own, trace;
      SoundFollowable(s.disk, s.bits, o, path);
      r := FsWrite(path, buf, off, now);
      Settle(s, o, t, Op.WriteAt(path, buf, off, now), r);
    }

    method ReadAt(path: Path, len: nat, off: nat, beyond: u32) returns (r: Result<seq<byte>>)
      requires Valid()
      ensures r == ReadResult(disk[..], path, len, off, beyond)
    {
      SoundFollowable(disk[..], Snap().bits, own, path);
      r := FsRead(path, len, off, beyond);
    }
  }
}
