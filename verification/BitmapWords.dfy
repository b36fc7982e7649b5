/** The second view of the bitmap block: 1024 little-endian 32-bit words, as the
    Python tools read and write it, and its agreement with the byte view. A word
    is an integer here, as it is in Python, and its operators &, | and ^ work on
    the binary digits of any two non-negative integers. */
module BitmapWords {
  import opened Layout
  import opened Bitmap
  import opened Binary

  // ------------------------------------------------------------------ one word

  /** n | (1 << k), or n & ((1 << k) ^ 0xffffffff). */
  function With(n: nat, k: nat, val: bool): nat {
    if val then Or.On(n, Pow(k)) else And.On(n, Xor.On(Pow(k), 0xffff_ffff))
  }

  /** Updating bit k of a word changes that bit and no other ... */
  lemma OneBit(n: nat, k: nat, val: bool, j: nat)
    requires n < 0x1_0000_0000 && k < 32 && j < 32
    ensures Bit(With(n, k, val), j) == if j == k then val else Bit(n, j)
  {
    WordSize();
    PowBit(k, j);
    OnesBit(32, j);
    OnBit(Or, n, Pow(k), j);
    OnBit(Xor, Pow(k), 0xffff_ffff, j);
    OnBit(And, n, Xor.On(Pow(k), 0xffff_ffff), j);
  }

  lemma {:induction false} PowGrows(k: nat, e: nat)
    requires k < e
    ensures Pow(k) < Pow(e)
    decreases e
  {
    if k < e - 1 {
      PowGrows(k, e - 1);
    }
  }

  /** ... and stays within the word. */
  lemma StaysInWord(n: nat, k: nat, val: bool)
    requires n < 0x1_0000_0000 && k < 32
    ensures With(n, k, val) < 0x1_0000_0000
  {
    WordSize();
    PowGrows(k, 32);
    OnSize(Or, n, Pow(k), 32);
    OnSize(Xor, Pow(k), 0xffff_ffff, 32);
    OnSize(And, n, Xor.On(Pow(k), 0xffff_ffff), 32);
  }

  /** Below the lowest e bits comes the rest of the number. */
  lemma {:induction false} BitsAbove(a: nat, h: nat, e: nat, k: nat)
    requires a < Pow(e)
    ensures Bit(a + Times(h, e), k) == if k < e then Bit(a, k) else Bit(h, k - e)
    decreases e
  {
    if e > 0 {
      var x := Times(h, e - 1);
      assert (a + 2 * x) % 2 == a % 2 && (a + 2 * x) / 2 == a / 2 + x;
      if k > 0 {
        BitsAbove(a / 2, h, e - 1, k - 1);
      }
    }
  }

  lemma ByteThenRest(b: byte, h: nat, k: nat)
    ensures Bit(b as int + 0x100 * h, k) == if k < 8 then Bit(b, k) else Bit(h, k - 8)
  {
    WordSize();
    assert Times(h, 8) == 0x100 * h;
    BitsAbove(b, h, 8, k);
  }

  /** Bit k of a little-endian word is bit k % 8 of its byte k / 8. */
  lemma BitOfWord(b0: byte, b1: byte, b2: byte, b3: byte, k: nat)
    requires k < 32
    ensures Bit(Word(b0, b1, b2, b3), k) ==
            if k < 8 then Bit(b0, k) else if k < 16 then Bit(b1, k - 8)
            else if k < 24 then Bit(b2, k - 16) else Bit(b3, k - 24)
  {
    ByteThenRest(b0, b1 as int + 0x100 * (b2 as int + 0x100 * b3 as int), k);
    if k >= 8 {
      ByteThenRest(b1, b2 as int + 0x100 * b3 as int, k - 8);
    }
    if k >= 16 {
      ByteThenRest(b2, b3, k - 16);
    }
  }

  // ------------------------------------------------------------------ one byte

  lemma HalfByte(m: bv8)
    ensures (m >> 1) as int == (m as int) / 2
  {
  }

  lemma LowestBit(m: bv8)
    ensures (m & 1 != 0) == ((m as int) % 2 == 1)
  {
  }

  lemma ShiftedTest(m: bv8, r: nat)
    requires 0 < r < 8
    ensures TestIn(m, r) == TestIn(m >> 1, r - 1)
  {
    Mask(r);
    Mask(r - 1);
  }

  /** bit_test on a byte is the bit of that byte as a number. */
  lemma {:induction false} ByteBit(m: bv8, r: nat)
    requires r < 8
    ensures TestIn(m, r) == Bit(m as int, r)
    decreases r
  {
    if r == 0 {
      Mask(0);
      LowestBit(m);
    } else {
      ShiftedTest(m, r);
      HalfByte(m);
      ByteBit(m >> 1, r - 1);
    }
  }

  // ------------------------------------------------------------------ the words

  predicate TestWords(v: Words, i: nat)
    requires i < NBITS
  {
    Bit(v[i / 32], i % 32)
  }

  ghost predicate AreWordBits(v: Words, bits: Bits) {
    forall i {:trigger TestWords(v, i)} :: 0 <= i < NBITS ==> bits[i] == TestWords(v, i)
  }

  /** The bits the words stand for. */
  ghost function WordBits(v: Words): (bits: Bits)
    ensures AreWordBits(v, bits)
  {
    WordBitsExist(v);
    var bits: Bits :| AreWordBits(v, bits);
    bits
  }

  lemma WordBitsExist(v: Words)
    ensures exists bits: Bits :: AreWordBits(v, bits)
  {
    var bits := seq(NBITS, i requires 0 <= i < NBITS => TestWords(v, i));
    assert AreWordBits(v, bits);
  }

  lemma WordBitsAre(v: Words, bits: Bits)
    requires forall i :: 0 <= i < NBITS ==> bits[i] == TestWords(v, i)
    ensures WordBits(v) == bits
  {
    forall i | 0 <= i < NBITS
      ensures WordBits(v)[i] == bits[i]
    {
      assert WordBits(v)[i] == TestWords(v, i);
    }
  }

  /** The same, for the word over four bytes of a block. */
  lemma BitOfWordAt(b: Block, o: nat, k: nat)
    requires o + 4 <= BLOCK_SIZE && k < 32
    ensures Bit(U32(b, o), k) == Bit(b[o + k / 8], k % 8)
  {
    BitOfWord(b[o], b[o + 1], b[o + 2], b[o + 3], k);
  }

  /** Bit i of the map, as its place in a word and in a byte. */
  lemma Places(i: nat)
    requires i < NBITS
    ensures var o, k := 4 * (i / 32), i % 32;
      o + 4 <= BLOCK_SIZE && o + k / 8 == i / 8 && k % 8 == i % 8
  {
  }

  lemma SameBit(m: BitmapBytes, i: nat)
    requires i < NBITS
    ensures TestWords(WordsOf(BlockOfBytes(m)), i) == TestAt(m, i)
  {
    var b := BlockOfBytes(m);
    Places(i);
    BitOfWordAt(b, 4 * (i / 32), i % 32);
    ByteBit(m[i / 8], i % 8);
    assert WordsOf(b)[i / 32] == U32(b, 4 * (i / 32));
  }

  /** The words that lie over the bytes of a bitmap denote the same set of blocks. */
  lemma SameBits(m: BitmapBytes)
    ensures WordBits(WordsOf(BlockOfBytes(m))) == BitsOf(m)
  {
    forall i | 0 <= i < NBITS
      ensures BitsOf(m)[i] == TestWords(WordsOf(BlockOfBytes(m)), i)
    {
      SameBit(m, i);
      assert BitsOf(m)[i] == TestAt(m, i);
    }
    WordBitsAre(WordsOf(BlockOfBytes(m)), BitsOf(m));
  }

  /** The words of a bitmap block denote what the file system reads in it. */
  lemma SameDiskBits(b: Block)
    ensures WordBits(WordsOf(b)) == DiskBits(b)
  {
    SameBits(BytesOfBlock(b));
    BlockRoundTrip(b);
  }

  /** Replacing one word by itself with one bit changed. */
  lemma UpdatedWordBits(v: Words, i: nat, val: bool, y: u32)
    requires i < NBITS && y == With(v[i / 32], i % 32, val)
    ensures WordBits(v[i / 32 := y]) == WordBits(v)[i := val]
  {
    var v' := v[i / 32 := y];
    forall b | 0 <= b < NBITS
      ensures WordBits(v)[i := val][b] == TestWords(v', b)
    {
      assert WordBits(v)[b] == TestWords(v, b);
      OneBit(v[i / 32], i % 32, val, b % 32);
      assert b == i <==> b / 32 == i / 32 && b % 32 == i % 32;
    }
    WordBitsAre(v', WordBits(v)[i := val]);
  }

  /** A bitmap is determined by its bits. */
  lemma BitsDetermine(m: BitmapBytes, m': BitmapBytes)
    requires BitsOf(m) == BitsOf(m')
    ensures m == m'
  {
    PackedIs(m);
    PackedIs(m');
  }

  /** Updating a bit through the words leaves exactly the bytes that bit_set or
      bit_clear leaves: m' is the block under the words after `set`, n the array
      after the byte-wise update. */
  lemma SameUpdate(m: BitmapBytes, m': BitmapBytes, n: BitmapBytes, i: nat, val: bool)
    requires i < NBITS
    requires WordBits(WordsOf(BlockOfBytes(m'))) == WordBits(WordsOf(BlockOfBytes(m)))[i := val]
    requires BitsOf(n) == BitsOf(m)[i := val]
    ensures m' == n
  {
    SameBits(m);
    SameBits(m');
    BitsDetermine(m', n);
  }

  /** The tools' bitmap: words that `set` updates in place. */
  class WordBitmap {
    const vals: array<u32>

    ghost predicate Valid() { vals.Length == NWORDS }

    constructor (block: Block)
      ensures Valid() && fresh(vals) && vals[..] == WordsOf(block)
    {
      vals := new u32[NWORDS](w requires 0 <= w < NWORDS => U32(block, 4 * w));
    }

    method Get(i: nat) returns (r: bool)
      requires Valid() && i < NBITS
      ensures r == WordBits(vals[..])[i]
    {
      var n := vals[i / 32];
      var mask := Pow(i % 32);
      MaskTest(n, i % 32);
      r := And.On(n, mask) != 0;
      assert WordBits(vals[..])[i] == TestWords(vals[..], i);
    }

    method Set(i: nat, val: bool)
      requires Valid() && i < NBITS
      modifies vals
      ensures WordBits(vals[..]) == old(WordBits(vals[..]))[i := val]
    {
      var mask := Pow(i % 32);
      var n: nat := vals[i / 32];
      StaysInWord(n, i % 32, val);
      UpdatedWordBits(vals[..], i, val, With(n, i % 32, val));
      if val {
        n := Or.On(n, mask);
      } else {
        n := And.On(n, Xor.On(mask, 0xffff_ffff));
      }
      vals[i / 32] := n;
      assert vals[..] == old(vals[..])[i / 32 := n];
    }
  }
}
