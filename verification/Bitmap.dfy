/** The block bitmap: byte-level bit operations, the bits they stand for, the
    first-free-block allocator and the bulk update of allocated blocks. */
module Bitmap {
  import opened Layout

  type Bits = s: seq<bool> | |s| == NBITS witness seq(NBITS, _ => false)
  type BitmapBytes = m: seq<bv8> | |m| == BLOCK_SIZE witness seq(BLOCK_SIZE, _ => 0)

  // -------------------------------------------------------------- single bits

  predicate TestIn(x: bv8, k: nat)
    requires k < 8
  {
    x & ((1 as bv8) << k) != 0
  }

  function SetIn(x: bv8, k: nat): bv8
    requires k < 8
  {
    x | ((1 as bv8) << k)
  }

  function ClearIn(x: bv8, k: nat): bv8
    requires k < 8
  {
    x & !((1 as bv8) << k)
  }

  lemma Mask(k: nat)
    requires k < 8
    ensures (1 as bv8) << k == [1, 2, 4, 8, 16, 32, 64, 128][k]
  {
    if k == 0 {} else if k == 1 {} else if k == 2 {} else if k == 3 {}
    else if k == 4 {} else if k == 5 {} else if k == 6 {} else {}
  }

  lemma SetAndClearOneBit(x: bv8, k: nat, j: nat)
    requires k < 8 && j < 8
    ensures TestIn(SetIn(x, k), j) == (j == k || TestIn(x, j))
    ensures TestIn(ClearIn(x, k), j) == (j != k && TestIn(x, j))
  {
    Mask(k);
    Mask(j);
  }

  /** Bit i of the map is bit i % 8 of byte i / 8. */
  predicate TestAt(m: BitmapBytes, i: nat)
    requires i < NBITS
  {
    TestIn(m[i / 8], i % 8)
  }

  ghost predicate AreBits(m: BitmapBytes, bits: Bits) {
    forall i {:trigger TestAt(m, i)} :: 0 <= i < NBITS ==> bits[i] == TestAt(m, i)
  }

  /** The bits a bitmap stands for. */
  ghost function BitsOf(m: BitmapBytes): (bits: Bits)
    ensures AreBits(m, bits)
  {
    BitsExist(m);
    var bits: Bits :| AreBits(m, bits);
    bits
  }

  lemma BitsExist(m: BitmapBytes)
    ensures exists bits: Bits :: AreBits(m, bits)
  {
    var bits := seq(NBITS, i requires 0 <= i < NBITS => TestAt(m, i));
    assert AreBits(m, bits);
  }

  /** A bitmap stands for one sequence of bits only. */
  lemma BitsAre(m: BitmapBytes, bits: Bits)
    requires forall i :: 0 <= i < NBITS ==> bits[i] == TestAt(m, i)
    ensures BitsOf(m) == bits
  {
    forall i | 0 <= i < NBITS
      ensures BitsOf(m)[i] == bits[i]
    {
      assert BitsOf(m)[i] == TestAt(m, i);
    }
  }

  method BitSet(bytes: array<bv8>, i: nat)
    requires bytes.Length == BLOCK_SIZE && i < NBITS
    modifies bytes
    ensures BitsOf(bytes[..]) == old(BitsOf(bytes[..]))[i := true]
  {
    bytes[i / 8] := SetIn(bytes[i / 8], i % 8);
    forall b | 0 <= b < NBITS
      ensures old(BitsOf(bytes[..]))[i := true][b] == TestAt(bytes[..], b)
    {
      assert old(BitsOf(bytes[..]))[b] == TestAt(old(bytes[..]), b);
      SetAndClearOneBit(old(bytes[i / 8]), i % 8, b % 8);
    }
    BitsAre(bytes[..], old(BitsOf(bytes[..]))[i := true]);
  }

  method BitClear(bytes: array<bv8>, i: nat)
    requires bytes.Length == BLOCK_SIZE && i < NBITS
    modifies bytes
    ensures BitsOf(bytes[..]) == old(BitsOf(bytes[..]))[i := false]
  {
    bytes[i / 8] := ClearIn(bytes[i / 8], i % 8);
    forall b | 0 <= b < NBITS
      ensures old(BitsOf(bytes[..]))[i := false][b] == TestAt(bytes[..], b)
    {
      assert old(BitsOf(bytes[..]))[b] == TestAt(old(bytes[..]), b);
      SetAndClearOneBit(old(bytes[i / 8]), i % 8, b % 8);
    }
    BitsAre(bytes[..], old(BitsOf(bytes[..]))[i := false]);
  }

  method BitTest(bytes: array<bv8>, i: nat) returns (r: bool)
    requires bytes.Length == BLOCK_SIZE && i < NBITS
    ensures r == BitsOf(bytes[..])[i]
  {
    r := TestIn(bytes[i / 8], i % 8);
    assert BitsOf(bytes[..])[i] == TestAt(bytes[..], i);
  }

  // ---------------------------------------------------- the bitmap on the disk

  function BytesOfBlock(b: Block): BitmapBytes {
    seq(BLOCK_SIZE, j requires 0 <= j < BLOCK_SIZE => b[j] as bv8)
  }

  function BlockOfBytes(m: BitmapBytes): Block {
    seq(BLOCK_SIZE, j requires 0 <= j < BLOCK_SIZE => m[j] as int)
  }

  /** The bits recorded by the bitmap block. */
  ghost function DiskBits(b: Block): Bits {
    BitsOf(BytesOfBlock(b))
  }

  function Weight(bit: bool, m: bv8): bv8 { if bit then m else 0 }

  function Pack(b: seq<bool>): bv8
    requires |b| == 8
  {
    Weight(b[0], 1) | Weight(b[1], 2) | Weight(b[2], 4) | Weight(b[3], 8)
    | Weight(b[4], 16) | Weight(b[5], 32) | Weight(b[6], 64) | Weight(b[7], 128)
  }

  lemma PackedBit(b: seq<bool>, k: nat)
    requires |b| == 8 && k < 8
    ensures TestIn(Pack(b), k) == b[k]
  {
    Mask(k);
  }

  lemma PackIs(x: bv8, b: seq<bool>)
    requires |b| == 8 && forall k :: 0 <= k < 8 ==> b[k] == TestIn(x, k)
    ensures Pack(b) == x
  {
    Mask(0); Mask(1); Mask(2); Mask(3); Mask(4); Mask(5); Mask(6); Mask(7);
    assert b[0] == TestIn(x, 0);
  }

  function PackedBytes(bits: Bits): BitmapBytes {
    seq(BLOCK_SIZE, j requires 0 <= j < BLOCK_SIZE => Pack(bits[8 * j..8 * j + 8]))
  }

  /** The bytes of the one bitmap with the given bits. */
  ghost function BytesWith(bits: Bits): (m: BitmapBytes)
    ensures BitsOf(m) == bits
  {
    PackedBits(bits);
    var m: BitmapBytes :| BitsOf(m) == bits;
    m
  }

  /** The bitmap block that records the given bits. */
  ghost function BitmapBlock(bits: Bits): (b: Block)
    ensures DiskBits(b) == bits
  {
    BlockBytes(BytesWith(bits));
    BlockOfBytes(BytesWith(bits))
  }

  lemma PackedBits(bits: Bits)
    ensures BitsOf(PackedBytes(bits)) == bits
  {
    forall i | 0 <= i < NBITS
      ensures bits[i] == TestAt(PackedBytes(bits), i)
    {
      PackedBit(bits[8 * (i / 8)..8 * (i / 8) + 8], i % 8);
    }
    BitsAre(PackedBytes(bits), bits);
  }

  lemma BlockBytes(m: BitmapBytes)
    ensures BytesOfBlock(BlockOfBytes(m)) == m
  {
  }

  lemma Successor(m: bv8)
    requires m < 255
    ensures (m + 1) as int == m as int + 1
  {
  }

  lemma BelowTop(m: bv8)
    requires m as int < 255
    ensures m < 255
  {
  }

  /** Every byte is the value of some bit-vector. */
  lemma {:induction false} SomeByte(x: byte) returns (m: bv8)
    ensures m as int == x
    decreases x
  {
    if x == 0 {
      m := 0;
    } else {
      m := SomeByte(x - 1);
      BelowTop(m);
      Successor(m);
      m := m + 1;
    }
  }

  lemma BackToByte(m: bv8)
    ensures (m as int) as bv8 == m
  {
  }

  lemma ByteRoundTrip(x: byte)
    ensures (x as bv8) as int == x
  {
    var m := SomeByte(x);
    BackToByte(m);
  }

  /** Reading a block into the bitmap and writing it back changes nothing. */
  lemma BlockRoundTrip(b: Block)
    ensures BlockOfBytes(BytesOfBlock(b)) == b
  {
    forall j | 0 <= j < BLOCK_SIZE
      ensures BlockOfBytes(BytesOfBlock(b))[j] == b[j]
    {
      ByteRoundTrip(b[j]);
    }
  }

  lemma PackedByte(m: BitmapBytes, j: nat)
    requires j < BLOCK_SIZE
    ensures Pack(BitsOf(m)[8 * j..8 * j + 8]) == m[j]
  {
    var b := BitsOf(m)[8 * j..8 * j + 8];
    forall k | 0 <= k < 8
      ensures b[k] == TestIn(m[j], k)
    {
      assert (8 * j + k) / 8 == j && (8 * j + k) % 8 == k;
      assert BitsOf(m)[8 * j + k] == TestAt(m, 8 * j + k);
    }
    PackIs(m[j], b);
  }

  /** A bitmap is determined by its bits. */
  lemma PackedIs(m: BitmapBytes)
    ensures PackedBytes(BitsOf(m)) == m
  {
    forall j | 0 <= j < BLOCK_SIZE
      ensures PackedBytes(BitsOf(m))[j] == m[j]
    {
      PackedByte(m, j);
    }
  }

  /** Writing out the in-memory bytes stores exactly the block of their bits. */
  lemma StoredBitmap(m: BitmapBytes)
    ensures BlockOfBytes(m) == BitmapBlock(BitsOf(m))
  {
    PackedIs(m);
    PackedIs(BytesWith(BitsOf(m)));
  }

  // ------------------------------------------------------------- bulk updates

  /** The bits after setting (or clearing) every listed block, in order. */
  function Mark(bits: Bits, list: seq<nat>, flag: bool): Bits
    decreases |list|
  {
    if list == [] then bits else Mark(Put(bits, list[0], flag), list[1..], flag)
  }

  function Put(bits: Bits, b: nat, flag: bool): Bits {
    if b < NBITS then bits[b := flag] else bits
  }

  lemma {:induction false} MarkAt(bits: Bits, list: seq<nat>, flag: bool, b: nat)
    requires b < NBITS
    ensures Mark(bits, list, flag)[b] == if b in list then flag else bits[b]
    decreases |list|
  {
    if list != [] {
      MarkAt(Put(bits, list[0], flag), list[1..], flag, b);
    }
  }

  lemma {:induction false} MarkSnoc(bits: Bits, list: seq<nat>, b: nat, flag: bool)
    requires b < NBITS
    ensures Mark(bits, list + [b], flag) == Mark(bits, list, flag)[b := flag]
    decreases |list|
  {
    if list == [] {
      assert [b][1..] == [];
    } else {
      assert (list + [b])[1..] == list[1..] + [b];
      MarkSnoc(Put(bits, list[0], flag), list[1..], b, flag);
    }
  }

  /** Setting a list of clear bits and clearing it again restores the bitmap. */
  lemma MarkUndone(bits: Bits, list: seq<nat>)
    requires forall b :: b in list && b < NBITS ==> !bits[b]
    ensures Mark(Mark(bits, list, true), list, false) == bits
  {
    forall b | 0 <= b < NBITS
      ensures Mark(Mark(bits, list, true), list, false)[b] == bits[b]
    {
      MarkAt(bits, list, true, b);
      MarkAt(Mark(bits, list, true), list, false, b);
    }
  }

  ghost predicate Distinct(s: seq<nat>) {
    forall i, j :: 0 <= i < j < |s| ==> s[i] != s[j]
  }

  // ---------------------------------------------------------------- free space

  /** The number of clear bits in [lo, hi). */
  function FreeIn(bits: Bits, lo: nat, hi: nat): nat
    requires hi <= NBITS
    decreases hi - lo
  {
    if lo >= hi then 0 else (if bits[lo] then 0 else 1) + FreeIn(bits, lo + 1, hi)
  }

  lemma {:induction false} FreeInUpdate(bits: Bits, lo: nat, hi: nat, b: nat, flag: bool)
    requires hi <= NBITS && b < NBITS && bits[b] != flag
    ensures FreeIn(bits[b := flag], lo, hi) ==
            FreeIn(bits, lo, hi) + if lo <= b < hi then (if flag then -1 else 1) else 0
    decreases hi - lo
  {
    if lo < hi {
      FreeInUpdate(bits, lo + 1, hi, b, flag);
    }
  }

  /** Flipping n distinct bits below hi moves the free count by exactly n. */
  lemma {:induction false} FreeInMark(bits: Bits, list: seq<nat>, flag: bool, hi: nat)
    requires hi <= NBITS && Distinct(list)
    requires forall b :: b in list ==> b < hi && bits[b] != flag
    ensures FreeIn(Mark(bits, list, flag), 0, hi) == FreeIn(bits, 0, hi) + if flag then -|list| else |list|
    decreases |list|
  {
    if list != [] {
      assert list[0] in list;
      var rest := bits[list[0] := flag];
      FreeInUpdate(bits, 0, hi, list[0], flag);
      forall b | b in list[1..]
        ensures b < hi && rest[b] != flag
      {
        var k :| 0 <= k < |list[1..]| && list[1..][k] == b;
        assert list[k + 1] in list && list[0] != list[k + 1];
      }
      FreeInMark(rest, list[1..], flag, hi);
    }
  }

  // ----------------------------------------------------------------- allocator

  /** The first n clear bits at or after lo and below hi, or all of them if there are fewer. */
  function LowestFree(bits: Bits, lo: nat, hi: nat, n: nat): (r: seq<nat>)
    requires hi <= NBITS
    ensures |r| <= n
    ensures forall k :: 0 <= k < |r| ==> lo <= r[k] < hi
    decreases hi - lo
  {
    if lo >= hi || n == 0 then []
    else if !bits[lo] then [lo] + LowestFree(bits, lo + 1, hi, n - 1)
    else LowestFree(bits, lo + 1, hi, n)
  }

  ghost predicate Increasing(s: seq<nat>) {
    forall i, j :: 0 <= i < j < |s| ==> s[i] < s[j]
  }

  /** The allocator's answer is in range and made of free blocks. */
  lemma {:induction false} LowestFreeIsFree(bits: Bits, lo: nat, hi: nat, n: nat, b: nat)
    requires hi <= NBITS && b in LowestFree(bits, lo, hi, n)
    ensures lo <= b < hi && !bits[b]
    decreases hi - lo
  {
    if bits[lo] {
      LowestFreeIsFree(bits, lo + 1, hi, n, b);
    } else if b != lo {
      LowestFreeIsFree(bits, lo + 1, hi, n - 1, b);
    }
  }

  /** ... and is strictly increasing. */
  lemma {:induction false} LowestFreeIncreases(bits: Bits, lo: nat, hi: nat, n: nat)
    requires hi <= NBITS
    ensures Increasing(LowestFree(bits, lo, hi, n))
    decreases hi - lo
  {
    if lo < hi && n != 0 {
      var m := if bits[lo] then n else n - 1;
      LowestFreeIncreases(bits, lo + 1, hi, m);
      if !bits[lo] {
        var rest := LowestFree(bits, lo + 1, hi, m);
        forall k | 0 <= k < |rest|
          ensures lo < rest[k]
        {
          LowestFreeIsFree(bits, lo + 1, hi, m, rest[k]);
        }
        IncreasingCons(lo, rest);
      }
    }
  }

  lemma IncreasingCons(a: nat, s: seq<nat>)
    requires Increasing(s) && forall k :: 0 <= k < |s| ==> a < s[k]
    ensures Increasing([a] + s)
  {
  }

  lemma IncreasingIsDistinct(s: seq<nat>)
    requires Increasing(s)
    ensures Distinct(s)
  {
  }

  /** No free block below the last one handed out is skipped. */
  lemma {:induction false} LowestFreeIsLowest(bits: Bits, lo: nat, hi: nat, n: nat, b: nat)
    requires hi <= NBITS && lo <= b < hi && !bits[b]
    ensures var r := LowestFree(bits, lo, hi, n);
      b in r || (|r| == n && forall c :: c in r ==> c < b)
    decreases hi - lo
  {
    if lo < b && n != 0 {
      LowestFreeIsLowest(bits, lo + 1, hi, if bits[lo] then n else n - 1, b);
    }
  }

  /** Fewer than n blocks come back exactly when fewer than n are free. */
  lemma {:induction false} LowestFreeCount(bits: Bits, lo: nat, hi: nat, n: nat)
    requires hi <= NBITS
    ensures |LowestFree(bits, lo, hi, n)| == if FreeIn(bits, lo, hi) < n then FreeIn(bits, lo, hi) else n
    decreases hi - lo
  {
    if lo < hi && n != 0 {
      LowestFreeCount(bits, lo + 1, hi, if bits[lo] then n else n - 1);
    }
  }

  /** One step of the scan moves a block from the rest of the answer to its front. */
  lemma LowestFreeStep(bits: Bits, lo: nat, hi: nat, n: nat, found: seq<nat>, all: seq<nat>)
    requires lo < hi <= NBITS && n > 0
    requires all == found + LowestFree(bits, lo, hi, n)
    ensures bits[lo] ==> all == found + LowestFree(bits, lo + 1, hi, n)
    ensures !bits[lo] ==> all == (found + [lo]) + LowestFree(bits, lo + 1, hi, n - 1)
  {
  }

  /** The scan of the bitmap: on success the n lowest free blocks; it fails
      exactly when fewer than n blocks below diskSize are free. */
  method FindFirstNFreeBlocks(bytes: array<bv8>, startIdx: nat, n: nat, diskSize: nat)
    returns (ok: bool, found: seq<nat>)
    requires bytes.Length == BLOCK_SIZE && diskSize <= NBITS
    ensures ok == (FreeIn(BitsOf(bytes[..]), startIdx, diskSize) >= n)
    ensures ok ==> found == LowestFree(BitsOf(bytes[..]), startIdx, diskSize, n) && |found| == n
  {
    ghost var bits := BitsOf(bytes[..]);
    ghost var all := LowestFree(bits, startIdx, diskSize, n);
    LowestFreeCount(bits, startIdx, diskSize, n);
    var requested: nat := n;
    var blkIdx := startIdx;
    found := [];
    while blkIdx < diskSize && requested > 0
      invariant requested + |found| == n
      invariant all == found + LowestFree(bits, blkIdx, diskSize, requested)
      decreases diskSize - blkIdx
    {
      var used := BitTest(bytes, blkIdx);
      LowestFreeStep(bits, blkIdx, diskSize, requested, found, all);
      if !used {
        found := found + [blkIdx];
        requested := requested - 1;
      }
      blkIdx := blkIdx + 1;
    }
    ok := requested == 0;
  }
}
