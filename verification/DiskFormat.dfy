/** The disk format, byte by byte: what the fields of inodes and directory entries
    are in terms of the bytes of their block, and what lookup and reading of a file
    see in the bytes of an image. */
module DiskFormat {
  import opened Layout
  import opened Image
  import opened Binary
  import Bitmap
  import BitmapWords
  import Modes

  /** Two and four bytes, the least significant first. */
  function Le16(b: Block, o: nat): nat
    requires o + 2 <= 4096
  {
    b[o] as int + 0x100 * b[o + 1] as int
  }

  function Le32(b: Block, o: nat): nat
    requires o + 4 <= 4096
  {
    b[o] as int + 0x100 * b[o + 1] as int + 0x1_0000 * b[o + 2] as int + 0x100_0000 * b[o + 3] as int
  }

  lemma WordAt(b: Block, o: nat)
    requires o + 4 <= 4096
    ensures U32(b, o) == Le32(b, o) < 0x1_0000_0000
  {
  }

  // ------------------------------------------------------------------ inodes

  lemma HalfWords(b: Block, o: nat)
    requires o + 4 <= 4096
    ensures Le32(b, o) % 0x1_0000 == Le16(b, o) && Le32(b, o) / 0x1_0000 == Le16(b, o + 2)
  {
    assert Le32(b, o) == Le16(b, o) + 0x1_0000 * Le16(b, o + 2);
  }

  /** Where an inode block keeps its fields: struct fs_inode without padding. */
  lemma InodeBytes(b: Block)
    ensures var i := InodeOf(b);
      && i.uid == Le16(b, 0) && i.gid == Le16(b, 2) && i.mode == Le32(b, 4)
      && i.ctime == Le32(b, 8) && i.mtime == Le32(b, 12)
      && i.size == (if b[19] < 0x80 then Le32(b, 16) else Le32(b, 16) - 0x1_0000_0000)
      && forall k :: 0 <= k < 1019 ==> i.ptrs[k] == Le32(b, 20 + 4 * k)
  {
    InodeOfIs(b);
    HalfWords(b, 0);
    FieldWords(b);
    forall k | 0 <= k < 1019
      ensures InodeOf(b).ptrs[k] == Le32(b, 20 + 4 * k)
    {
      PointerWord(b, k);
    }
  }

  lemma FieldWords(b: Block)
    ensures var i := DecodeInode(b);
      && i.uid == Le32(b, 0) % 0x1_0000 && i.gid == Le32(b, 0) / 0x1_0000
      && i.mode == Le32(b, 4) && i.ctime == Le32(b, 8) && i.mtime == Le32(b, 12)
      && i.size == if b[19] < 0x80 then Le32(b, 16) else Le32(b, 16) - 0x1_0000_0000
  {
    WordAt(b, 0);
    WordAt(b, 4);
    WordAt(b, 8);
    WordAt(b, 12);
    WordAt(b, 16);
    var w := WordsOf(b);
    assert w[0] == U32(b, 0) && w[1] == U32(b, 4) && w[2] == U32(b, 8) && w[3] == U32(b, 12) && w[4] == U32(b, 16);
  }

  lemma PointerWord(b: Block, k: nat)
    requires k < 1019
    ensures DecodeInode(b).ptrs[k] == Le32(b, 20 + 4 * k)
  {
    WordAt(b, 20 + 4 * k);
    assert WordsOf(b)[5 + k] == U32(b, 4 * (5 + k));
  }

  // ------------------------------------------------------------- directories

  /** Where a directory block keeps its entries: struct fs_dirent, the valid bit
      being the lowest of the word it shares with the inode number. */
  lemma DirentBytes(b: Block, j: nat)
    requires j < 128
    ensures var e := DirOf(b)[j];
      && (e.valid <==> b[32 * j] % 2 == 1)
      && 2 * e.inode + b[32 * j] % 2 == Le32(b, 32 * j)
      && forall k :: 0 <= k < 28 ==> e.name[k] == b[32 * j + 4 + k]
  {
    DirOfIs(b);
    WordAt(b, 32 * j);
    LowestDigit(b, 32 * j);
  }

  lemma LowestDigit(b: Block, o: nat)
    requires o + 4 <= 4096
    ensures Le32(b, o) % 2 == b[o] % 2
  {
  }

  /** The entry is in use and carries exactly this name, zero-terminated. */
  ghost predicate SpelledAt(b: Block, j: nat, name: Name)
    requires j < 128
  {
    && b[32 * j] % 2 == 1
    && (forall k :: 0 <= k < |name| ==> b[32 * j + 4 + k] == name[k])
    && b[32 * j + 4 + |name|] == 0
  }

  /** A C string is what comes before the first zero byte. */
  lemma {:induction false} CStringFacts(s: seq<byte>)
    ensures |CString(s)| <= |s| && CString(s) == s[..|CString(s)|] && 0 !in CString(s)
    ensures |CString(s)| < |s| ==> s[|CString(s)|] == 0
  {
    if s != [] && s[0] != 0 {
      CStringFacts(s[1..]);
    }
  }

  lemma SpelledIs(b: Block, j: nat, name: Name)
    requires j < 128
    ensures SpelledAt(b, j, name) <==> DirOf(b)[j].valid && NameOf(DirOf(b)[j]) == name
  {
    var e := DirOf(b)[j];
    DirentBytes(b, j);
    CStringFacts(e.name);
    if SpelledAt(b, j, name) {
      assert e.name[|name|] == b[32 * j + 4 + |name|];
      assert e.name[..|name|] == name;
      CStringIs(e.name, name);
    }
  }

  // ------------------------------------------------------------------ bitmap

  /** Where the bitmap block keeps the bit of block i: bit i % 8 of byte i / 8,
      counted from the lowest. */
  lemma BitmapBytes(b: Block, i: nat)
    requires i < 32768
    ensures Bitmap.DiskBits(b)[i] <==> Right(b[i / 8], i % 8) % 2 == 1
  {
    var m := Bitmap.BytesOfBlock(b);
    assert Bitmap.DiskBits(b)[i] == Bitmap.TestAt(m, i);
    Bitmap.ByteRoundTrip(b[i / 8]);
    BitmapWords.ByteBit(m[i / 8], i % 8);
    BitIsRight(b[i / 8], i % 8);
  }

  // ---------------------------------------------------- lookup and file contents

  /** Looking a name up from inode i, in the bytes of the image: the inode number
      of the first entry that is in use and spells the name. */
  lemma LookupBytes(d: Disk, i: nat, name: Name)
    ensures i >= |d| ==> Step(d, i, name) == Err(EIO)
    ensures i < |d| && And.On(Le32(d[i], 4), 0xf000) != 0x4000 ==> Step(d, i, name) == Err(ENOTDIR)
    ensures i < |d| && And.On(Le32(d[i], 4), 0xf000) == 0x4000 ==>
      var p := Le32(d[i], 20);
      && (p >= |d| ==> Step(d, i, name) == Err(EIO))
      && (p < |d| && (forall j :: 0 <= j < 128 ==> !SpelledAt(d[p], j, name)) ==> Step(d, i, name) == Err(ENOENT))
      && forall j :: 0 <= j < 128 && p < |d| && FirstSpelled(d[p], j, name) ==>
          Step(d, i, name) == Ok(Le32(d[p], 32 * j) / 2)
  {
    if i < |d| {
      InodeBytes(d[i]);
      Modes.KindsAre(InodeOf(d[i]));
      var p := Le32(d[i], 20);
      assert InodeOf(d[i]).ptrs[0] == Le32(d[i], 20 + 4 * 0);
      if IsDir(InodeOf(d[i])) && p < |d| {
        ScanBytes(d[p], name);
      }
    }
  }

  /** The entry spells the name, and no entry before it does. */
  ghost predicate FirstSpelled(b: Block, j: nat, name: Name)
    requires j < 128
  {
    SpelledAt(b, j, name) && forall k :: 0 <= k < j ==> !SpelledAt(b, k, name)
  }

  lemma ScanBytes(b: Block, name: Name)
    ensures var s := FindSlot(DirOf(b), name, 0);
      && ((forall j :: 0 <= j < 128 ==> !SpelledAt(b, j, name)) ==> s == 128)
      && forall j :: 0 <= j < 128 && FirstSpelled(b, j, name) ==> s == j && DirOf(b)[s].inode == Le32(b, 32 * j) / 2
  {
    forall j | 0 <= j < 128
      ensures SpelledAt(b, j, name) <==> DirOf(b)[j].valid && NameOf(DirOf(b)[j]) == name
      ensures DirOf(b)[j].inode == Le32(b, 32 * j) / 2
    {
      SpelledIs(b, j, name);
      DirentBytes(b, j);
    }
  }

  /** Paths start at inode 2, and each component is looked up in turn. */
  lemma PathBytes(d: Disk, p: Path, name: Name)
    ensures Resolve(d, []) == Ok(2)
    ensures Resolve(d, p).Err? ==> Resolve(d, p + [name]) == Resolve(d, p)
    ensures Resolve(d, p).Ok? ==> Resolve(d, p + [name]) == Step(d, Resolve(d, p).value, name)
  {
    assert Parent(p + [name]) == p && Last(p + [name]) == name;
  }

  /** Byte k of a file is byte k % 4096 of the block that pointer k / 4096 names. */
  lemma ContentBytes(d: Disk, i: nat, k: nat)
    requires i < |d| && 0 <= Ino(d, i).size <= 1019 * 4096 && k < Ino(d, i).size
    ensures var p := Le32(d[i], 20 + 4 * (k / 4096));
      p < |d| ==> Content(d, Ino(d, i))[k] == d[p][k % 4096]
  {
    InodeBytes(d[i]);
  }
}
