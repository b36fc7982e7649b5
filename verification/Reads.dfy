/** What fs_read returns, and when its fetch of one block too many makes it fail. */
module Reads {
  import opened Layout
  import opened Bitmap
  import opened Image
  import opened Ownership
  import opened Operations
  import opened FileEffects

  function Min(a: nat, b: nat): nat { if a < b then a else b }

  /** The pointer a read past the end of the file follows needlessly. */
  ghost function SparePointer(d: Disk, path: Path, beyond: u32): u32
    requires Resolve(d, path).Ok?
  {
    var ino := Ino(d, Resolve(d, path).value);
    PointerAt(ino, Extent(ino), beyond)
  }

  /** Every pointer inside the size of a sound file can be read. */
  lemma PointersReadable(d: Disk, bits: Bits, own: Owners, i: nat, p: nat)
    requires Sound(d, bits, own) && HasInode(own, i) && IsReg(Ino(d, i)) && p < Extent(Ino(d, i))
    ensures Ino(d, i).ptrs[p] < |d|
  {
    assert InodeOk(d, own, i);
    assert Holds(own, Ino(d, i).ptrs[p], FileData(i, p));
    assert PlaceOk(d, own, Ino(d, i).ptrs[p]);
  }

  /** fs_read returns exactly the bytes [off, off + len) that the file has. A
      request reaching past the end succeeds exactly when the pointer after the
      last block can be read as well; its block never shows in the result. */
  lemma ReadEffect(d: Disk, bits: Bits, own: Owners, path: Path, len: nat, off: nat, beyond: u32)
    requires Sound(d, bits, own)
    ensures var r, v := ReadResult(d, path, len, off, beyond), View(d, path);
      if v.Err? || !v.value.FileNode? then r == Err(FileError(v))
      else
        var c := v.value.bytes;
        if off >= |c| then r == Ok([])
        else if off + len > |c| && SparePointer(d, path, beyond) >= |d| then r == Err(EIO)
        else r == Ok(c[off..Min(off + len, |c|)])
  {
    FileAt(d, bits, own, path);
    var v := View(d, path);
    if v.Ok? && v.value.FileNode? && off < |v.value.bytes| {
      var i := Resolve(d, path).value;
      ReadFile(d, bits, own, i, len, off, beyond);
    }
  }

  lemma ReadFile(d: Disk, bits: Bits, own: Owners, i: nat, len: nat, off: nat, beyond: u32)
    requires Sound(d, bits, own) && HasInode(own, i) && IsReg(Ino(d, i)) && off < Ino(d, i).size
    ensures var ino := Ino(d, i);
      var last := if off + len > ino.size then Extent(ino) else (off + len - 1) / 4096;
      && last <= NPTRS
      && ((exists p :: off / 4096 <= p <= last && PointerAt(ino, p, beyond) >= |d|) <==>
          off + len > ino.size && PointerAt(ino, Extent(ino), beyond) >= |d|)
  {
    var ino := Ino(d, i);
    assert InodeOk(d, own, i);
    var last := if off + len > ino.size then Extent(ino) else (off + len - 1) / 4096;
    forall p | off / 4096 <= p <= last && p < Extent(ino)
      ensures PointerAt(ino, p, beyond) < |d|
    {
      PointersReadable(d, bits, own, i, p);
    }
    if off + len > ino.size {
      assert off / 4096 <= Extent(ino) <= last;
    }
  }

  /** Past the end of a sound file there is a pointer that was never set, which
      reads the superblock, or one that truncate cut off, which cannot be read. */
  lemma SparePointerIs(d: Disk, bits: Bits, own: Owners, path: Path, beyond: u32)
    requires Sound(d, bits, own) && View(d, path).Ok? && View(d, path).value.FileNode?
    requires NBlocks(|View(d, path).value.bytes|) < NPTRS
    ensures SparePointer(d, path, beyond) == 0 || SparePointer(d, path, beyond) == NOWHERE
    ensures SparePointer(d, path, beyond) >= |d| <==> SparePointer(d, path, beyond) == NOWHERE
  {
    FileAt(d, bits, own, path);
    var i := Resolve(d, path).value;
    assert InodeOk(d, own, i);
  }

  // ---------------------------------------------------------- reading in pieces

  /** c[off .. off + len], cut off where c ends. */
  function Slice(c: seq<byte>, off: nat, len: nat): seq<byte> {
    if off >= |c| then [] else c[off..Min(off + len, |c|)]
  }

  function Sum(sizes: seq<nat>): nat {
    if sizes == [] then 0 else sizes[0] + Sum(sizes[1..])
  }

  /** The bytes that consecutive reads of the given sizes return, put together. */
  ghost function ReadAll(read: (nat, nat) -> Result<seq<byte>>, sizes: seq<nat>, off: nat): Result<seq<byte>>
    decreases |sizes|
  {
    if sizes == [] then Ok([])
    else
      var head :- read(sizes[0], off);
      var rest :- ReadAll(read, sizes[1..], off + sizes[0]);
      Ok(head + rest)
  }

  lemma SliceSplit(c: seq<byte>, off: nat, a: nat, b: nat)
    ensures Slice(c, off, a) + Slice(c, off + a, b) == Slice(c, off, a + b)
  {
  }

  /** One of consecutive reads from off on starts before n and asks for more than
      there is up to n. */
  ghost predicate Crosses(n: nat, sizes: seq<nat>, off: nat)
    decreases |sizes|
  {
    sizes != [] && (off < n < off + sizes[0] || Crosses(n, sizes[1..], off + sizes[0]))
  }

  /** What fs_read answers for a file with contents c: a request that runs past
      the end fails if the spare pointer does. */
  function ReadOf(c: seq<byte>, spareFails: bool, len: nat, off: nat): Result<seq<byte>> {
    if spareFails && off < |c| < off + len then Err(EIO) else Ok(Slice(c, off, len))
  }

  lemma ReadIs(d: Disk, bits: Bits, own: Owners, path: Path, len: nat, off: nat, beyond: u32)
    requires Sound(d, bits, own) && View(d, path).Ok? && View(d, path).value.FileNode?
    ensures Resolve(d, path).Ok?
    ensures ReadResult(d, path, len, off, beyond) ==
            ReadOf(View(d, path).value.bytes, SparePointer(d, path, beyond) >= |d|, len, off)
  {
    FileAt(d, bits, own, path);
    ReadEffect(d, bits, own, path, len, off, beyond);
  }

  /** Consecutive reads, by induction on their number. */
  lemma {:induction false} PiecesAddUp(read: (nat, nat) -> Result<seq<byte>>, c: seq<byte>, spareFails: bool,
          sizes: seq<nat>, off: nat)
    requires forall len: nat, o: nat :: read(len, o) == ReadOf(c, spareFails, len, o)
    ensures ReadAll(read, sizes, off) ==
            if spareFails && Crosses(|c|, sizes, off) then Err(EIO) else Ok(Slice(c, off, Sum(sizes)))
    decreases |sizes|
  {
    if sizes == [] {
      assert Slice(c, off, 0) == [];
    } else {
      PiecesAddUp(read, c, spareFails, sizes[1..], off + sizes[0]);
      SliceSplit(c, off, sizes[0], Sum(sizes[1..]));
    }
  }

  /** Reading on in pieces of any sizes yields the file in order, nothing twice
      and nothing skipped, and all of it when the sizes add up to its length. It
      fails exactly when a piece crosses the end of the file and the spare pointer
      cannot be followed. */
  lemma ChunkedRead(d: Disk, bits: Bits, own: Owners, path: Path, sizes: seq<nat>, beyond: u32)
    requires Sound(d, bits, own) && View(d, path).Ok? && View(d, path).value.FileNode?
    ensures Resolve(d, path).Ok?
    ensures var c := View(d, path).value.bytes;
      && ReadAll((len, off) => ReadResult(d, path, len, off, beyond), sizes, 0) ==
           (if SparePointer(d, path, beyond) >= |d|
               && Crosses(|c|, sizes, 0) then Err(EIO) else Ok(Slice(c, 0, Sum(sizes))))
      && (Sum(sizes) >= |c| ==> Slice(c, 0, Sum(sizes)) == c)
  {
    FileAt(d, bits, own, path);
    var c, spareFails := View(d, path).value.bytes, SparePointer(d, path, beyond) >= |d|;
    var read := (len: nat, off: nat) => ReadResult(d, path, len, off, beyond);
    forall len: nat, o: nat
      ensures read(len, o) == ReadOf(c, spareFails, len, o)
    {
      ReadIs(d, bits, own, path, len, o, beyond);
    }
    PiecesAddUp(read, c, spareFails, sizes, 0);
    assert Sum(sizes) >= |c| ==> c[0..|c|] == c;
  }
}
