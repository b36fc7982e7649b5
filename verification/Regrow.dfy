/** What becomes of the bytes that truncate cuts off: writing brings none of them
    back, a second truncate within the last block does, together with whatever
    else is in that block. */
module Regrow {
  import opened Layout
  import Bitmap
  import opened Image
  import opened Ownership
  import opened Operations
  import opened FileEdits
  import opened FileEffects
  import opened WriteEffects
  import Reads
  import opened Runs
  import opened Appends

  ghost function Truncated(s: State, path: Path, len: nat): State {
    Commit(s, TruncatePlan(s, path, len))
  }

  lemma TruncatedIsSafe(s: State, own: Owners, path: Path, len: nat)
    requires Safe(s, own) && HasFile(s, path) && len <= |Bytes(s, path)|
    ensures TruncatePlan(s, path, len).result == Ok(0)
    ensures Safe(Truncated(s, path, len), Dropped(own, Target(s, path), NBlocks(len)))
    ensures HasFile(Truncated(s, path, len), path) && Bytes(Truncated(s, path, len), path) == Bytes(s, path)[..len]
  {
    TruncateShrinks(s, own, path, len);
    TruncateKeeps(s, own, path, len);
  }

  /** After a shrinking truncate, a write shows the kept bytes and the new ones,
      and nothing of what was cut off, although its blocks may be the old ones. */
  lemma RegrownByWrite(s: State, own: Owners, path: Path, len: nat, buf: seq<byte>, off: nat, now: u32)
    requires Safe(s, own) && HasFile(s, path) && off <= len <= |Bytes(s, path)| && WriteFits(off, |buf|)
    requires var t := Truncated(s, path, len); Bitmap.FreeIn(t.bits, 0, |t.disk|) >= BlocksAdded(len, off, |buf|)
    ensures var u := Commit(Truncated(s, path, len), WritePlan(Truncated(s, path, len), path, buf, off, now));
      HasFile(u, path) && Bytes(u, path) == Splice(Bytes(s, path)[..len], off, buf)
  {
    TruncatedIsSafe(s, own, path, len);
    WriteEffect(Truncated(s, path, len), Dropped(own, Target(s, path), NBlocks(len)), path, buf, off, now, path);
  }

  /** All that the blocks of the file hold, past its end included. */
  ghost function Held(s: State, path: Path): seq<byte> { Allocated(s.disk, Ino(s.disk, Target(s, path))) }

  /** A second truncate, to any length, succeeds exactly within the blocks the
      first one left, and then shows what they hold: the bytes that had been cut
      off, and past the old end whatever is there. */
  lemma RegrownByTruncate(s: State, own: Owners, path: Path, len: nat, more: nat)
    requires Safe(s, own) && HasFile(s, path) && len <= |Bytes(s, path)|
    ensures Bytes(s, path) <= Held(s, path)
    ensures var t := Truncated(s, path, len);
      && (TruncatePlan(t, path, more).result.Ok? <==> NBlocks(more) <= NBlocks(len))
      && (NBlocks(more) <= NBlocks(len) ==>
            && more <= |Held(s, path)|
            && HasFile(Truncated(t, path, more), path) && Bytes(Truncated(t, path, more), path) == Held(s, path)[..more]
            && (more <= |Bytes(s, path)| ==> Bytes(Truncated(t, path, more), path) == Bytes(s, path)[..more]))
  {
    var t, own' := Truncated(s, path, len), Dropped(own, Target(s, path), NBlocks(len));
    TruncatedIsSafe(s, own, path, len);
    TruncateEffect(t, own', path, more, path);
    HeldAfter(s, own, path, len);
    if NBlocks(more) <= NBlocks(len) {
      PrefixOfPrefix(Held(s, path), 4096 * NBlocks(len), more);
      if more <= |Bytes(s, path)| {
        PrefixTake(Bytes(s, path), Held(s, path), more);
      }
    }
  }

  /** The blocks a truncate keeps still hold what they held. */
  lemma HeldAfter(s: State, own: Owners, path: Path, len: nat)
    requires Safe(s, own) && HasFile(s, path) && len <= |Bytes(s, path)|
    ensures var t, i := Truncated(s, path, len), Target(s, path);
      && Resolve(t.disk, path) == Ok(i) && Bytes(s, path) <= Held(s, path)
      && 4096 * NBlocks(len) <= |Held(s, path)| && Held(t, path) == Held(s, path)[..4096 * NBlocks(len)]
  {
    FileAt(s.disk, s.bits, own, path);
    BlocksGrow(len, |Bytes(s, path)|);
    ContentIsAllocated(s.disk, Ino(s.disk, Target(s, path)));
    TruncateFileEffect(s, own, Target(s, path), len);
    TruncateViews(s, own, path, len, path);
  }

  /** A byte of the last block, past what the caller wrote. */
  lemma TailByte(d: Disk, ptrs: Pointers, have: nat, off: nat, buf: seq<byte>, k: nat, bytes: seq<byte>,
      chunk: seq<byte>)
    requires WriteFits(off, |buf|) && off + |buf| <= k && k / 4096 == LastBlock(off, |buf|)
    requires bytes == WriteBuffer(d, ptrs, have, off / 4096, LastBlock(off, |buf|), off, buf)
    requires chunk == Chunk(bytes, LastBlock(off, |buf|) - off / 4096)
    ensures chunk[k % 4096] ==
            if have > 1 || (have == 1 && off / 4096 == LastBlock(off, |buf|))
            then Blk(d, ptrs[k / 4096])[k % 4096] else 0
  {
  }

  /** The same byte on the disk, after the run of block writes. */
  lemma TailInRun(d: Disk, own: Owners, i: nat, iblock: Block, ptrs: Pointers, ws: seq<Write>, h: nat, have: nat,
          off: nat, buf: seq<byte>, bytes: seq<byte>, k: nat)
    requires WriteFits(off, |buf|) && off + |buf| <= k && k / 4096 == LastBlock(off, |buf|) && k < MAX_FILE
    requires WriteRun(d, own, i, iblock, ptrs, ws, h, off / 4096, LastBlock(off, |buf|), bytes)
    requires bytes == WriteBuffer(Apply(d, ws[..h]), ptrs, have, off / 4096, LastBlock(off, |buf|), off, buf)
    requires Holds(own, ptrs[k / 4096], FileData(i, k / 4096)) && ptrs[k / 4096] != BITMAP_LBA
    ensures ByteAt(Apply(d, ws), ptrs, k) ==
            if have > 1 || (have == 1 && off / 4096 == LastBlock(off, |buf|)) then ByteAt(d, ptrs, k) else 0
  {
    var first, last, b := off / 4096, LastBlock(off, |buf|), ptrs[k / 4096];
    RunBlock(d, own, i, iblock, ptrs, ws, h, first, last, bytes, last);
    RunElsewhere(d, own, i, iblock, ptrs, ws, h, first, last, bytes, h, b);
    TailByte(Apply(d, ws[..h]), ptrs, have, off, buf, k, bytes, Blk(Apply(d, ws), b));
  }

  /** ... and after fs_write. */
  lemma TailWritten(s: State, own: Owners, i: nat, buf: seq<byte>, off: nat, now: u32, k: nat)
    requires Writable(s, own, i, off, |buf|) && off + |buf| <= k < MAX_FILE && k / 4096 == LastBlock(off, |buf|)
    ensures var ptrs, have := WrittenInode(s, i, off, |buf|, now).ptrs, Extent(Ino(s.disk, i));
      ByteAt(Apply(s.disk, Writes(s, i, buf, off, now)), ptrs, k) ==
        if have > 1 || (have == 1 && off / 4096 == LastBlock(off, |buf|)) then ByteAt(s.disk, ptrs, k) else 0
  {
    var ws, h, bytes := Writes(s, i, buf, off, now), |HeadWrites(s, i, off, |buf|, now)|,
        DataBytes(s, i, buf, off, now);
    var grown, own' := WrittenInode(s, i, off, |buf|, now), WriteOwn(s, own, i, off, |buf|);
    WritableSize(s, own, i, off, |buf|);
    LastInExtent(Ino(s.disk, i), off, |buf|);
    TargetOwned(s, own, i, off, |buf|, now, k / 4096);
    WritesAreRun(s, own, i, buf, off, now);
    assert ws[..h] == HeadWrites(s, i, off, |buf|, now);
    TailInRun(s.disk, own', i, InodeBlock(grown), grown.ptrs, ws, h, Extent(Ino(s.disk, i)), off, buf, bytes, k);
  }

  lemma LastInExtent(ino: Inode, off: nat, n: nat)
    requires WriteFits(off, n)
    ensures LastBlock(off, n) < Extent(ino) + Needed(ino, off, n)
  {
  }

  /** The last block of a file that a write has made longer by whole blocks. */
  lemma LastIsNew(ino: Inode, off: nat, n: nat, got: seq<nat>, now: u32, k: nat)
    requires 0 <= ino.size <= MAX_FILE && off <= ino.size && WriteFits(off, n)
    requires |got| == Needed(ino, off, n) > 0 && forall j :: 0 <= j < |got| ==> got[j] < NBITS
    requires off + n <= k < 4096 * NBlocks(off + n)
    ensures var grown := Grown(ino, Extent(ino), got, off + n, now);
      && k < 4096 * Extent(grown) && k < MAX_FILE && k / 4096 == LastBlock(off, n)
      && grown.ptrs[k / 4096] == got[|got| - 1]
  {
    GrownExtent(ino, off, n, got, now);
    BlocksTo(off, n);
  }

  lemma AllocatedAt(d: Disk, ino: Inode, k: nat)
    requires k < 4096 * Extent(ino)
    ensures k < |Allocated(d, ino)| && Allocated(d, ino)[k] == ByteAt(d, ino.ptrs, k)
  {
  }

  /** The block a write takes last. */
  ghost function Newest(s: State, i: nat, off: nat, n: nat): nat
    requires HasRoom(s, i, off, n) && Needed(Ino(s.disk, i), off, n) > 0
  {
    Extra(s, i, off, n)[Needed(Ino(s.disk, i), off, n) - 1]
  }

  lemma NewestIs(s: State, own: Owners, i: nat, off: nat, n: nat, now: u32, k: nat)
    requires Writable(s, own, i, off, n) && Needed(Ino(s.disk, i), off, n) > 0 && off + n <= k < 4096 * NBlocks(off + n)
    ensures var grown := WrittenInode(s, i, off, n, now);
      && k < 4096 * Extent(grown) && k < MAX_FILE && k / 4096 == LastBlock(off, n)
      && grown.ptrs[k / 4096] == Newest(s, i, off, n)
    ensures Newest(s, i, off, n) < |s.disk| && Newest(s, i, off, n) !in own
  {
    WritableSize(s, own, i, off, n);
    LastIsNew(Ino(s.disk, i), off, n, Extra(s, i, off, n), now, k);
    FreshBlocks(s, own, Needed(Ino(s.disk, i), off, n), Newest(s, i, off, n));
  }

  /** What lies past the end of a file in its last block, once a write has taken
      that block from the allocator: zeros when the file was empty, or had one
      block and the write began in it; and otherwise what the block held before,
      such as bytes of a file deleted long ago. */
  lemma TailAfterWrite(s: State, own: Owners, i: nat, buf: seq<byte>, off: nat, now: u32, k: nat)
    requires Writable(s, own, i, off, |buf|) && Needed(Ino(s.disk, i), off, |buf|) > 0
    requires off + |buf| <= k < 4096 * NBlocks(off + |buf|)
    ensures var d', have := Commit(s, WriteFile(s, i, buf, off, now)).disk, Extent(Ino(s.disk, i));
      && k < |Allocated(d', Ino(d', i))| && Newest(s, i, off, |buf|) !in own
      && Allocated(d', Ino(d', i))[k] ==
           if have > 1 || (have == 1 && off / 4096 == LastBlock(off, |buf|))
           then Blk(s.disk, Newest(s, i, off, |buf|))[k % 4096] else 0
  {
    NewestIs(s, own, i, off, |buf|, now, k);
    TailWritten(s, own, i, buf, off, now, k);
    WriteFileEffect(s, own, i, buf, off, now);
    AllocatedAt(Commit(s, WriteFile(s, i, buf, off, now)).disk, WrittenInode(s, i, off, |buf|, now), k);
  }

  /** The pointer after the last kept block is cut off. */
  lemma CutSpare(ino: Inode, len: nat, beyond: u32)
    requires 0 <= ino.size <= MAX_FILE && NBlocks(len) < Extent(ino)
    ensures PointerAt(Cut(ino, len), Extent(Cut(ino, len)), beyond) == NOWHERE
  {
    CutSize(ino, len);
  }

  /** A truncate that gives up blocks leaves a pointer that cannot be followed
      right after the last block. */
  lemma PointerCutOff(s: State, own: Owners, path: Path, len: nat, beyond: u32)
    requires Safe(s, own) && HasFile(s, path) && len <= |Bytes(s, path)| && NBlocks(len) < NBlocks(|Bytes(s, path)|)
    ensures Resolve(Truncated(s, path, len).disk, path).Ok?
    ensures Reads.SparePointer(Truncated(s, path, len).disk, path, beyond) == NOWHERE
  {
    FileAt(s.disk, s.bits, own, path);
    CutAt(s, own, path, len);
    CutSpare(Ino(s.disk, Target(s, path)), len, beyond);
  }

  /** Where a truncated file is, and its inode. */
  lemma CutAt(s: State, own: Owners, path: Path, len: nat)
    requires Safe(s, own) && HasFile(s, path) && len <= |Bytes(s, path)|
    ensures var t, i := Truncated(s, path, len), Target(s, path);
      Resolve(t.disk, path) == Ok(i) && Ino(t.disk, i) == Cut(Ino(s.disk, i), len)
  {
    FileAt(s.disk, s.bits, own, path);
    BlocksGrow(len, |Bytes(s, path)|);
    TruncateFileEffect(s, own, Target(s, path), len);
    TruncateViews(s, own, path, len, path);
  }

  /** So after such a truncate every read that asks for more than is left fails,
      where it should return what is left. */
  lemma ReadsPastEndFail(s: State, own: Owners, path: Path, len: nat, n: nat, off: nat, beyond: u32)
    requires Safe(s, own) && HasFile(s, path) && len <= |Bytes(s, path)| && NBlocks(len) < NBlocks(|Bytes(s, path)|)
    requires off < len < off + n
    ensures ReadResult(Truncated(s, path, len).disk, path, n, off, beyond) == Err(EIO)
  {
    var t := Truncated(s, path, len);
    TruncatedIsSafe(s, own, path, len);
    PointerCutOff(s, own, path, len, beyond);
    Reads.ReadEffect(t.disk, t.bits, Dropped(own, Target(s, path), NBlocks(len)), path, n, off, beyond);
  }
}
