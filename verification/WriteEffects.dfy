/** What fs_write does: the bytes it splices in, although it fetches only the
    first and last block and fresh blocks hold whatever was there before. */
module WriteEffects {
  import opened Layout
  import opened Bitmap
  import opened Image
  import opened Ownership
  import opened Operations
  import opened Frames
  import opened FileEdits
  import opened FileEffects

  // --------------------------------------------------- the shape of a write run

  /** Block m of a buffer of whole blocks. */
  function Chunk(bytes: seq<byte>, m: nat): seq<byte>
    requires 4096 * m + 4096 <= |bytes|
  {
    bytes[4096 * m..4096 * m + 4096]
  }

  /** A data write: whole block p of the file, to the block that is owned as such. */
  ghost predicate DataWriteOk(d: Disk, own: Owners, i: nat, ptrs: Pointers, w: Write, p: nat, chunk: seq<byte>) {
    && p < NPTRS && w.lba == ptrs[p] && w.data == chunk
    && 2 <= w.lba < |d| && Holds(own, w.lba, FileData(i, p))
  }

  /** A run of writes that possibly stores the bitmap, then stores the inode,
      then stores blocks first..last of the file. */
  ghost predicate WriteRun(d: Disk, own: Owners, i: nat, iblock: Block, ptrs: Pointers, ws: seq<Write>, h: nat,
          first: nat, last: nat, bytes: seq<byte>) {
    && 1 <= h && first <= last < NPTRS && |ws| == h + (last - first + 1) && |bytes| == 4096 * (last - first + 1)
    && 2 <= i < |d| && !DataOf(own, i, i)
    && ws[h - 1] == Write(i, iblock)
    && (forall k :: 0 <= k < h - 1 ==> ws[k].lba == BITMAP_LBA)
    && (forall m :: 0 <= m <= last - first ==> DataWriteOk(d, own, i, ptrs, ws[h + m], first + m, Chunk(bytes, m)))
  }

  lemma RunTarget(d: Disk, own: Owners, i: nat, iblock: Block, ptrs: Pointers, ws: seq<Write>, h: nat, first: nat,
          last: nat, bytes: seq<byte>, k: nat)
    requires WriteRun(d, own, i, iblock, ptrs, ws, h, first, last, bytes) && k < |ws|
    ensures k < h - 1 ==> ws[k].lba == BITMAP_LBA
    ensures k == h - 1 ==> ws[k].lba == i
    ensures k >= h ==> ws[k].lba >= 2 && Holds(own, ws[k].lba, FileData(i, first + (k - h)))
  {
    if k >= h {
      var m := k - h;
      assert DataWriteOk(d, own, i, ptrs, ws[h + m], first + m, Chunk(bytes, m));
    }
  }

  lemma RunOnDisk(d: Disk, own: Owners, i: nat, iblock: Block, ptrs: Pointers, ws: seq<Write>, h: nat, first: nat,
          last: nat, bytes: seq<byte>, k: nat)
    requires WriteRun(d, own, i, iblock, ptrs, ws, h, first, last, bytes) && k < |ws|
    ensures 0 < ws[k].lba < |d|
  {
    if k >= h {
      var m := k - h;
      assert DataWriteOk(d, own, i, ptrs, ws[h + m], first + m, Chunk(bytes, m));
    }
  }

  /** Blocks outside the bitmap, the inode and the file's own data stay. */
  lemma RunElsewhere(d: Disk, own: Owners, i: nat, iblock: Block, ptrs: Pointers, ws: seq<Write>, h: nat,
          first: nat, last: nat, bytes: seq<byte>, n: nat, b: nat)
    requires WriteRun(d, own, i, iblock, ptrs, ws, h, first, last, bytes) && n <= |ws|
    requires b != BITMAP_LBA && b != i
    requires DataOf(own, b, i) ==> n <= h || !(first <= own[b].index <= last)
    ensures Blk(Apply(d, ws[..n]), b) == Blk(d, b)
  {
    if b < |d| {
      forall k | 0 <= k < n
        ensures ws[..n][k].lba != b
      {
        RunTarget(d, own, i, iblock, ptrs, ws, h, first, last, bytes, k);
      }
      ApplyElsewhere(d, ws[..n], b);
    }
  }

  /** From the inode write on, every intermediate disk has the new inode. */
  lemma RunInode(d: Disk, own: Owners, i: nat, iblock: Block, ptrs: Pointers, ws: seq<Write>, h: nat, first: nat,
          last: nat, bytes: seq<byte>, n: nat)
    requires WriteRun(d, own, i, iblock, ptrs, ws, h, first, last, bytes) && h <= n <= |ws|
    ensures Blk(Apply(d, ws[..n]), i) == iblock
  {
    forall k | h - 1 < k < n
      ensures ws[..n][k].lba != i
    {
      RunTarget(d, own, i, iblock, ptrs, ws, h, first, last, bytes, k);
    }
    ApplyAt(d, ws[..n], h - 1);
  }

  /** Block p of the written range ends up with its part of the buffer. */
  lemma RunBlock(d: Disk, own: Owners, i: nat, iblock: Block, ptrs: Pointers, ws: seq<Write>, h: nat, first: nat,
          last: nat, bytes: seq<byte>, p: nat)
    requires WriteRun(d, own, i, iblock, ptrs, ws, h, first, last, bytes) && first <= p <= last
    ensures Blk(Apply(d, ws), ptrs[p]) == Chunk(bytes, p - first)
  {
    var m := p - first;
    assert DataWriteOk(d, own, i, ptrs, ws[h + m], first + m, Chunk(bytes, m));
    forall k | h + m < k < |ws|
      ensures ws[k].lba != ws[h + m].lba
    {
      RunTarget(d, own, i, iblock, ptrs, ws, h, first, last, bytes, k);
    }
    ApplyAt(d, ws, h + m);
  }

  // ------------------------------------------------------------------ byte by byte

  /** What the write buffer holds for byte k of the file: the caller's byte, or
      the byte that was on the disk. */
  lemma BufferByte(d: Disk, ptrs: Pointers, size: nat, off: nat, buf: seq<byte>, k: nat)
    requires WriteFits(off, |buf|) && off <= size <= MAX_FILE
    requires off / 4096 <= k / 4096 <= LastBlock(off, |buf|) && (k < size || k < off + |buf|)
    ensures WriteBuffer(d, ptrs, NBlocks(size), off / 4096, LastBlock(off, |buf|), off, buf)[k - 4096 * (off / 4096)]
            == if off <= k < off + |buf| then buf[k - off] else Blk(d, ptrs[k / 4096])[k % 4096]
  {
  }

  lemma BytesOutside(size: nat, off: nat, n: nat, k: nat)
    requires off <= size <= MAX_FILE && WriteFits(off, n)
    requires !(off / 4096 <= k / 4096 <= LastBlock(off, n)) && (k < size || k < off + n)
    ensures k < size && !(off <= k < off + n)
  {
  }

  /** A byte of a written block, from the chunk of the buffer stored there. */
  lemma ByteFromChunk(d1: Disk, ptrs: Pointers, size: nat, off: nat, buf: seq<byte>, k: nat, bytes: seq<byte>,
          chunk: seq<byte>)
    requires WriteFits(off, |buf|) && off <= size <= MAX_FILE
    requires off / 4096 <= k / 4096 <= LastBlock(off, |buf|) && (k < size || k < off + |buf|)
    requires bytes == WriteBuffer(d1, ptrs, NBlocks(size), off / 4096, LastBlock(off, |buf|), off, buf)
    requires chunk == Chunk(bytes, k / 4096 - off / 4096)
    ensures chunk[k % 4096] == if off <= k < off + |buf| then buf[k - off] else Blk(d1, ptrs[k / 4096])[k % 4096]
  {
    BufferByte(d1, ptrs, size, off, buf, k);
  }

  lemma ByteInRange(d: Disk, own: Owners, i: nat, iblock: Block, ptrs: Pointers, ws: seq<Write>, h: nat, size: nat,
          off: nat, buf: seq<byte>, bytes: seq<byte>, k: nat)
    requires WriteFits(off, |buf|) && off <= size <= MAX_FILE && (k < size || k < off + |buf|)
    requires WriteRun(d, own, i, iblock, ptrs, ws, h, off / 4096, LastBlock(off, |buf|), bytes)
    requires bytes == WriteBuffer(Apply(d, ws[..h]), ptrs, NBlocks(size), off / 4096, LastBlock(off, |buf|), off, buf)
    requires off / 4096 <= k / 4096 <= LastBlock(off, |buf|)
    requires Holds(own, ptrs[k / 4096], FileData(i, k / 4096)) && ptrs[k / 4096] != BITMAP_LBA
    ensures ByteAt(Apply(d, ws), ptrs, k) == if off <= k < off + |buf| then buf[k - off] else ByteAt(d, ptrs, k)
  {
    var first, last, b := off / 4096, LastBlock(off, |buf|), ptrs[k / 4096];
    RunBlock(d, own, i, iblock, ptrs, ws, h, first, last, bytes, k / 4096);
    RunElsewhere(d, own, i, iblock, ptrs, ws, h, first, last, bytes, h, b);
    ByteFromChunk(Apply(d, ws[..h]), ptrs, size, off, buf, k, bytes, Blk(Apply(d, ws), b));
  }

  /** Byte k of the file after the whole run. */
  lemma RunByte(d: Disk, own: Owners, i: nat, iblock: Block, ptrs: Pointers, ws: seq<Write>, h: nat, size: nat,
          off: nat, buf: seq<byte>, bytes: seq<byte>, k: nat)
    requires WriteFits(off, |buf|) && off <= size <= MAX_FILE && (k < size || k < off + |buf|)
    requires WriteRun(d, own, i, iblock, ptrs, ws, h, off / 4096, LastBlock(off, |buf|), bytes)
    requires bytes == WriteBuffer(Apply(d, ws[..h]), ptrs, NBlocks(size), off / 4096, LastBlock(off, |buf|), off, buf)
    requires k < MAX_FILE && Holds(own, ptrs[k / 4096], FileData(i, k / 4096)) && ptrs[k / 4096] != BITMAP_LBA
    ensures ByteAt(Apply(d, ws), ptrs, k) == if off <= k < off + |buf| then buf[k - off] else ByteAt(d, ptrs, k)
  {
    var first, last := off / 4096, LastBlock(off, |buf|);
    if first <= k / 4096 <= last {
      ByteInRange(d, own, i, iblock, ptrs, ws, h, size, off, buf, bytes, k);
    } else {
      BytesOutside(size, off, |buf|, k);
      assert ws[..|ws|] == ws;
      RunElsewhere(d, own, i, iblock, ptrs, ws, h, first, last, bytes, |ws|, ptrs[k / 4096]);
    }
  }

  // ----------------------------------------------------- the run fs_write issues

  lemma InodeNotData(s: State, own: Owners, i: nat, off: nat, n: nat)
    requires Writable(s, own, i, off, n)
    ensures 2 <= i < |s.disk| && !DataOf(WriteOwn(s, own, i, off, n), i, i)
  {
    ExtendedRoles(s, own, i, off, n);
    assert PlaceOk(s.disk, own, i);
  }

  lemma TargetOwned(s: State, own: Owners, i: nat, off: nat, n: nat, now: u32, p: nat)
    requires Writable(s, own, i, off, n) && p < Extent(Ino(s.disk, i)) + Needed(Ino(s.disk, i), off, n)
    ensures p < NPTRS
    ensures Holds(WriteOwn(s, own, i, off, n), WrittenInode(s, i, off, n, now).ptrs[p], FileData(i, p))
    ensures 2 <= WrittenInode(s, i, off, n, now).ptrs[p] < |s.disk|
  {
    GrownOwned(s, own, i, off, n, now, p);
    GrownBlockHeld(s, own, i, off, n, now, WrittenInode(s, i, off, n, now).ptrs[p]);
  }

  lemma BlockWriteAt(ptrs: Pointers, first: nat, last: nat, bytes: seq<byte>, m: nat)
    requires first <= last < NPTRS && |bytes| == 4096 * (last - first + 1) && m <= last - first
    ensures BlockWrites(ptrs, first, last, bytes)[m] == Write(ptrs[first + m], Chunk(bytes, m))
  {
  }

  ghost function Writes(s: State, i: nat, buf: seq<byte>, off: nat, now: u32): seq<Write>
    requires HasRoom(s, i, off, |buf|)
  {
    HeadWrites(s, i, off, |buf|, now) + DataWrites(s, i, buf, off, now)
  }

  lemma DataTarget(s: State, own: Owners, i: nat, buf: seq<byte>, off: nat, now: u32, m: nat)
    requires Writable(s, own, i, off, |buf|) && m < |DataWrites(s, i, buf, off, now)|
    ensures 4096 * m + 4096 <= |DataBytes(s, i, buf, off, now)|
    ensures DataWriteOk(s.disk, WriteOwn(s, own, i, off, |buf|), i, WrittenInode(s, i, off, |buf|, now).ptrs,
                        DataWrites(s, i, buf, off, now)[m], off / 4096 + m, Chunk(DataBytes(s, i, buf, off, now), m))
  {
    BlockWriteAt(WrittenInode(s, i, off, |buf|, now).ptrs, off / 4096, LastBlock(off, |buf|),
        DataBytes(s, i, buf, off, now), m);
    TargetOwned(s, own, i, off, |buf|, now, off / 4096 + m);
  }

  /** Every data write goes to the block it should. */
  ghost predicate Aimed(d: Disk, own: Owners, i: nat, ptrs: Pointers, data: seq<Write>, first: nat, bytes: seq<byte>) {
    && |bytes| == 4096 * |data|
    && forall m :: 0 <= m < |data| ==> DataWriteOk(d, own, i, ptrs, data[m], first + m, Chunk(bytes, m))
  }

  lemma RunFrom(d: Disk, own: Owners, i: nat, iblock: Block, ptrs: Pointers, head: seq<Write>, data: seq<Write>,
          first: nat, last: nat, bytes: seq<byte>)
    requires first <= last < NPTRS && |data| == last - first + 1
    requires 2 <= i < |d| && !DataOf(own, i, i)
    requires 1 <= |head| <= 2 && head[|head| - 1] == Write(i, iblock) && (|head| == 2 ==> head[0].lba == BITMAP_LBA)
    requires Aimed(d, own, i, ptrs, data, first, bytes)
    ensures WriteRun(d, own, i, iblock, ptrs, head + data, |head|, first, last, bytes)
  {
    forall m | 0 <= m <= last - first
      ensures (head + data)[|head| + m] == data[m]
    {
    }
  }

  lemma DataIsAimed(s: State, own: Owners, i: nat, buf: seq<byte>, off: nat, now: u32)
    requires Writable(s, own, i, off, |buf|)
    ensures Aimed(s.disk, WriteOwn(s, own, i, off, |buf|), i, WrittenInode(s, i, off, |buf|, now).ptrs,
                  DataWrites(s, i, buf, off, now), off / 4096, DataBytes(s, i, buf, off, now))
  {
    var data, bytes, own' := DataWrites(s, i, buf, off, now), DataBytes(s, i, buf, off, now),
        WriteOwn(s, own, i, off, |buf|);
    forall m | 0 <= m < |data|
      ensures DataWriteOk(s.disk, own', i, WrittenInode(s, i, off, |buf|, now).ptrs, data[m], off / 4096 + m,
          Chunk(bytes, m))
    {
      DataTarget(s, own, i, buf, off, now, m);
    }
  }

  lemma AimedIsRun(s: State, own: Owners, i: nat, buf: seq<byte>, off: nat, now: u32)
    requires HasRoom(s, i, off, |buf|) && 2 <= i < |s.disk| && !DataOf(own, i, i)
    requires Aimed(s.disk, own, i, WrittenInode(s, i, off, |buf|, now).ptrs,
                   DataWrites(s, i, buf, off, now), off / 4096, DataBytes(s, i, buf, off, now))
    ensures WriteRun(s.disk, own, i, InodeBlock(WrittenInode(s, i, off, |buf|, now)),
                     WrittenInode(s, i, off, |buf|, now).ptrs, Writes(s, i, buf, off, now),
                     |HeadWrites(s, i, off, |buf|, now)|, off / 4096, LastBlock(off, |buf|),
                         DataBytes(s, i, buf, off, now))
  {
    var head, data, bytes := HeadWrites(s, i, off, |buf|, now), DataWrites(s, i, buf, off, now),
        DataBytes(s, i, buf, off, now);
    var grown := WrittenInode(s, i, off, |buf|, now);
    RunFrom(s.disk, own, i, InodeBlock(grown), grown.ptrs, head, data, off / 4096, LastBlock(off, |buf|), bytes);
  }

  /** The writes fs_write issues form such a run. */
  lemma WritesAreRun(s: State, own: Owners, i: nat, buf: seq<byte>, off: nat, now: u32)
    requires Writable(s, own, i, off, |buf|)
    ensures WriteRun(s.disk, WriteOwn(s, own, i, off, |buf|), i, InodeBlock(WrittenInode(s, i, off, |buf|, now)),
                     WrittenInode(s, i, off, |buf|, now).ptrs, Writes(s, i, buf, off, now),
                     |HeadWrites(s, i, off, |buf|, now)|, off / 4096, LastBlock(off, |buf|),
                         DataBytes(s, i, buf, off, now))
  {
    InodeNotData(s, own, i, off, |buf|);
    DataIsAimed(s, own, i, buf, off, now);
    AimedIsRun(s, WriteOwn(s, own, i, off, |buf|), i, buf, off, now);
  }

  lemma WritableSize(s: State, own: Owners, i: nat, off: nat, n: nat)
    requires Writable(s, own, i, off, n)
    ensures 0 <= Ino(s.disk, i).size <= MAX_FILE && off <= Ino(s.disk, i).size
    ensures Extent(Ino(s.disk, i)) == NBlocks(Ino(s.disk, i).size)
  {
    assert InodeOk(s.disk, own, i);
  }

  lemma ByteInExtent(ino: Inode, off: nat, n: nat, k: nat)
    requires 0 <= ino.size <= MAX_FILE && off <= ino.size && WriteFits(off, n)
    requires k < ino.size || k < off + n
    ensures k / 4096 < Extent(ino) + Needed(ino, off, n)
    ensures k < ino.size ==> k / 4096 < Extent(ino)
  {
  }

  /** Byte k of the file after fs_write, in terms of the disk before it. */
  lemma WrittenByte(s: State, own: Owners, i: nat, buf: seq<byte>, off: nat, now: u32, k: nat)
    requires Writable(s, own, i, off, |buf|)
    requires k < Ino(s.disk, i).size || k < off + |buf|
    ensures k < MAX_FILE
    ensures ByteAt(Apply(s.disk, Writes(s, i, buf, off, now)), WrittenInode(s, i, off, |buf|, now).ptrs, k)
            == if off <= k < off + |buf| then buf[k - off]
                else ByteAt(s.disk, WrittenInode(s, i, off, |buf|, now).ptrs, k)
  {
    var ws, h := Writes(s, i, buf, off, now), |HeadWrites(s, i, off, |buf|, now)|;
    WritableSize(s, own, i, off, |buf|);
    ByteInExtent(Ino(s.disk, i), off, |buf|, k);
    WritesAreRun(s, own, i, buf, off, now);
    TargetOwned(s, own, i, off, |buf|, now, k / 4096);
    assert ws[..h] == HeadWrites(s, i, off, |buf|, now);
    RunByte(s.disk, WriteOwn(s, own, i, off, |buf|), i, InodeBlock(WrittenInode(s, i, off, |buf|, now)),
            WrittenInode(s, i, off, |buf|, now).ptrs, ws, h, Ino(s.disk, i).size, off, buf, DataBytes(s, i, buf,
                off, now), k);
  }

  /** c with buf written over it at off, extended if buf runs past its end. */
  function Splice(c: seq<byte>, off: nat, buf: seq<byte>): seq<byte>
    requires off <= |c|
  {
    c[..off] + buf + if off + |buf| < |c| then c[off + |buf|..] else []
  }

  /** Byte k after the write is the caller's byte, or what the file held. */
  ghost predicate ByteSpliced(d: Disk, d': Disk, ino: Inode, grown: Inode, off: nat, buf: seq<byte>, k: nat)
    requires k < MAX_FILE
  {
    && (off <= k < off + |buf| ==> ByteAt(d', grown.ptrs, k) == buf[k - off])
    && (!(off <= k < off + |buf|) ==> ByteAt(d', grown.ptrs, k) == ByteAt(d, ino.ptrs, k))
  }

  lemma SplicedContent(d: Disk, d': Disk, ino: Inode, grown: Inode, off: nat, buf: seq<byte>)
    requires 0 <= ino.size <= MAX_FILE && off <= ino.size && off + |buf| <= MAX_FILE
    requires grown.size == if off + |buf| > ino.size then off + |buf| else ino.size
    requires forall k :: 0 <= k < grown.size ==> ByteSpliced(d, d', ino, grown, off, buf, k)
    ensures Content(d', grown) == Splice(Content(d, ino), off, buf)
  {
    var c := Splice(Content(d, ino), off, buf);
    forall k | 0 <= k < grown.size
      ensures Content(d', grown)[k] == c[k]
    {
      assert ByteSpliced(d, d', ino, grown, off, buf, k);
    }
  }

  /** Inside the old length the grown file still uses the old blocks. */
  lemma OldPointer(s: State, i: nat, off: nat, n: nat, now: u32, k: nat)
    requires HasRoom(s, i, off, n) && 0 <= Ino(s.disk, i).size <= MAX_FILE && off <= Ino(s.disk, i).size
    requires k < WrittenInode(s, i, off, n, now).size && !(off <= k < off + n)
    ensures k < MAX_FILE && ByteAt(s.disk, WrittenInode(s, i, off, n, now).ptrs, k) ==
        ByteAt(s.disk, Ino(s.disk, i).ptrs, k)
  {
    ByteInExtent(Ino(s.disk, i), off, n, k);
  }

  lemma ByteIsSpliced(s: State, own: Owners, i: nat, buf: seq<byte>, off: nat, now: u32, k: nat)
    requires Writable(s, own, i, off, |buf|) && k < WrittenInode(s, i, off, |buf|, now).size
    ensures k < MAX_FILE
    ensures ByteSpliced(s.disk, Apply(s.disk, Writes(s, i, buf, off, now)), Ino(s.disk, i),
        WrittenInode(s, i, off, |buf|, now), off, buf, k)
  {
    WritableSize(s, own, i, off, |buf|);
    WrittenByte(s, own, i, buf, off, now, k);
    if !(off <= k < off + |buf|) {
      OldPointer(s, i, off, |buf|, now, k);
    }
  }

  /** fs_write leaves the old bytes with buf spliced in at off. */
  lemma WrittenContent(s: State, own: Owners, i: nat, buf: seq<byte>, off: nat, now: u32, ino: Inode, grown: Inode,
          d': Disk)
    requires Writable(s, own, i, off, |buf|)
    requires ino == Ino(s.disk, i) && grown == WrittenInode(s, i, off, |buf|, now)
        && d' == Apply(s.disk, Writes(s, i, buf, off, now))
    ensures 0 <= ino.size <= MAX_FILE && 0 <= grown.size <= MAX_FILE && off <= ino.size
    ensures Content(d', grown) == Splice(Content(s.disk, ino), off, buf)
  {
    WritableSize(s, own, i, off, |buf|);
    forall k | 0 <= k < grown.size
      ensures k < MAX_FILE && ByteSpliced(s.disk, d', ino, grown, off, buf, k)
    {
      ByteIsSpliced(s, own, i, buf, off, now, k);
    }
    SplicedContent(s.disk, d', ino, grown, off, buf);
  }

  // ------------------------------------------------------------------- effects

  /** From the inode write on, every intermediate disk differs from the old one
      only in the file. */
  lemma PrefixTouches(s: State, own: Owners, i: nat, buf: seq<byte>, off: nat, now: u32, k: nat)
    requires Writable(s, own, i, off, |buf|)
    requires |HeadWrites(s, i, off, |buf|, now)| <= k <= |Writes(s, i, buf, off, now)|
    ensures var d' := Apply(s.disk, Writes(s, i, buf, off, now)[..k]);
      && Ino(d', i) == WrittenInode(s, i, off, |buf|, now)
      && Touched(s.disk, d', own, WriteOwn(s, own, i, off, |buf|), i)
  {
    var ws, h, bytes := Writes(s, i, buf, off, now), |HeadWrites(s, i, off, |buf|, now)|,
        DataBytes(s, i, buf, off, now);
    var d', own', grown := Apply(s.disk, ws[..k]), WriteOwn(s, own, i, off, |buf|), WrittenInode(s, i, off, |buf|, now);
    var first, last := off / 4096, LastBlock(off, |buf|);
    WritesAreRun(s, own, i, buf, off, now);
    RunInode(s.disk, own', i, InodeBlock(grown), grown.ptrs, ws, h, first, last, bytes, k);
    forall b: nat | !OwnTarget(own', i, b)
      ensures Blk(d', b) == Blk(s.disk, b)
    {
      RunElsewhere(s.disk, own', i, InodeBlock(grown), grown.ptrs, ws, h, first, last, bytes, k, b);
    }
    WriteTouches(s, own, i, off, |buf|, now, d');
  }

  /** A write that passes its checks: the file is spliced, the rest is untouched,
      and the image stays sound and exact. */
  lemma WriteFileEffect(s: State, own: Owners, i: nat, buf: seq<byte>, off: nat, now: u32)
    requires Writable(s, own, i, off, |buf|)
    ensures var s', own' := Commit(s, WriteFile(s, i, buf, off, now)), WriteOwn(s, own, i, off, |buf|);
      && Touched(s.disk, s'.disk, own, own', i)
      && Sound(s'.disk, s'.bits, own')
      && (Exact(s.disk, s.bits, own) ==> Exact(s'.disk, s'.bits, own'))
      && (Attached(s'.disk, own') <==> Attached(s.disk, own))
      && Ino(s'.disk, i) == WrittenInode(s, i, off, |buf|, now)
  {
    var s', own' := Commit(s, WriteFile(s, i, buf, off, now)), WriteOwn(s, own, i, off, |buf|);
    var ws := Writes(s, i, buf, off, now);
    assert ws[..|ws|] == ws;
    PrefixTouches(s, own, i, buf, off, now, |ws|);
    WriteMarks(s, own, i, off, |buf|);
    TouchedSound(s.disk, s.bits, s'.disk, s'.bits, own, own', i);
    TouchedAttached(s.disk, s.bits, s'.disk, own, own', i);
  }

  lemma WrittenNode(s: State, own: Owners, i: nat, buf: seq<byte>, off: nat, now: u32)
    requires Writable(s, own, i, off, |buf|)
    ensures var ino, d' := Ino(s.disk, i), Commit(s, WriteFile(s, i, buf, off, now)).disk;
      && 0 <= ino.size <= MAX_FILE && off <= ino.size
      && NodeOf(d', Ino(d', i)) == FileNode(MetaOf(ino).(mtime := now), Splice(Content(s.disk, ino), off, buf))
  {
    var d' := Commit(s, WriteFile(s, i, buf, off, now)).disk;
    WriteFileEffect(s, own, i, buf, off, now);
    WrittenContent(s, own, i, buf, off, now, Ino(s.disk, i), WrittenInode(s, i, off, |buf|, now), d');
  }

  lemma WriteViews(s: State, own: Owners, path: Path, buf: seq<byte>, off: nat, now: u32, q: Path)
    requires Resolve(s.disk, path).Ok? && Writable(s, own, Resolve(s.disk, path).value, off, |buf|)
    ensures var i := Resolve(s.disk, path).value;
      var ino, d' := Ino(s.disk, i), Commit(s, WriteFile(s, i, buf, off, now)).disk;
      && 0 <= ino.size <= MAX_FILE && off <= ino.size
      && Resolve(d', q) == Resolve(s.disk, q)
      && View(d', q) == if q == path
          then Ok(FileNode(MetaOf(ino).(mtime := now), Splice(Content(s.disk, ino), off, buf)))
                        else View(s.disk, q)
  {
    var i := Resolve(s.disk, path).value;
    var s' := Commit(s, WriteFile(s, i, buf, off, now));
    WriteFileEffect(s, own, i, buf, off, now);
    TouchedViews(s.disk, s.bits, s'.disk, s'.bits, own, WriteOwn(s, own, i, off, |buf|), i, path, q);
    WrittenNode(s, own, i, buf, off, now);
  }

  /** How many blocks writing n bytes at off adds to a file of the given length. */
  function BlocksAdded(size: nat, off: nat, n: nat): nat {
    if NBlocks(off + n) > NBlocks(size) then NBlocks(off + n) - NBlocks(size) else 0
  }

  lemma NeededIsAdded(ino: Inode, off: nat, n: nat)
    requires 0 <= ino.size <= MAX_FILE
    ensures Needed(ino, off, n) == BlocksAdded(ino.size, off, n)
  {
  }

  /** There is room exactly when enough blocks are free. */
  lemma RoomIsFreeSpace(s: State, i: nat, off: nat, n: nat)
    requires 0 <= Ino(s.disk, i).size <= MAX_FILE
    ensures EnoughFree(s, i, off, n) <==> FreeIn(s.bits, 0, |s.disk|) >= BlocksAdded(Ino(s.disk, i).size, off, n)
  {
    NeededIsAdded(Ino(s.disk, i), off, n);
    LowestFreeCount(s.bits, 0, |s.disk|, Needed(Ino(s.disk, i), off, n));
  }

  /** Which calls have a defined meaning, in terms of what a caller can see: one
      that does not fit must name no file, or lie past the end of the file, or
      need more blocks than are free. */
  lemma WriteDefinedWhen(s: State, own: Owners, path: Path, off: nat, n: nat)
    requires Sound(s.disk, s.bits, own)
    ensures var v := View(s.disk, path);
      WriteDefined(s, path, off, n) <==>
        ((n > 0 || off % 4096 != 0) && off + n <= 1019 * 4096) || v.Err? || !v.value.FileNode? || off > |v.value.bytes|
        || FreeIn(s.bits, 0, |s.disk|) < BlocksAdded(|v.value.bytes|, off, n)
  {
    FileAt(s.disk, s.bits, own, path);
    if View(s.disk, path).Ok? && View(s.disk, path).value.FileNode? {
      RoomIsFreeSpace(s, Resolve(s.disk, path).value, off, n);
    }
  }

  /** When a write is refused, with which error, and when it goes ahead. */
  lemma WriteDecision(s: State, own: Owners, path: Path, buf: seq<byte>, off: nat, now: u32)
    requires Sound(s.disk, s.bits, own) && WriteDefined(s, path, off, |buf|)
    ensures var p, v := WritePlan(s, path, buf, off, now), View(s.disk, path);
      if v.Err? || !v.value.FileNode? then p == Fail(s, FileError(v))
      else if off > |v.value.bytes| then p == Fail(s, EINVAL)
      else if FreeIn(s.bits, 0, |s.disk|) < BlocksAdded(|v.value.bytes|, off, |buf|) then p == Fail(s, ENOSPC)
      else
        && Resolve(s.disk, path).Ok? && Writable(s, own, Resolve(s.disk, path).value, off, |buf|)
        && p == WriteFile(s, Resolve(s.disk, path).value, buf, off, now)
  {
    var v := View(s.disk, path);
    FileAt(s.disk, s.bits, own, path);
    if v.Ok? && v.value.FileNode? && off <= |v.value.bytes| {
      RoomIsFreeSpace(s, Resolve(s.disk, path).value, off, |buf|);
    }
  }

  /** write: the result is decided by the file's length and by how many blocks
      are free; on success the bytes are spliced in, the modification time is
      updated and every other path shows what it showed. */
  lemma WriteEffect(s: State, own: Owners, path: Path, buf: seq<byte>, off: nat, now: u32, q: Path)
    requires Sound(s.disk, s.bits, own) && WriteDefined(s, path, off, |buf|)
    ensures var p, v := WritePlan(s, path, buf, off, now), View(s.disk, path);
      var s' := Commit(s, p);
      if v.Err? || !v.value.FileNode? then p == Fail(s, FileError(v))
      else if off > |v.value.bytes| then p == Fail(s, EINVAL)
      else if FreeIn(s.bits, 0, |s.disk|) < BlocksAdded(|v.value.bytes|, off, |buf|) then p == Fail(s, ENOSPC)
      else
        && p.result == Ok(|buf|)
        && Resolve(s'.disk, q) == Resolve(s.disk, q)
        && View(s'.disk, q) ==
             if q == path then Ok(FileNode(v.value.meta.(mtime := now), Splice(v.value.bytes, off, buf)))
             else View(s.disk, q)
  {
    WriteDecision(s, own, path, buf, off, now);
    if WritePlan(s, path, buf, off, now).result.Ok? {
      FileAt(s.disk, s.bits, own, path);
      WriteViews(s, own, path, buf, off, now, q);
    }
  }
}
