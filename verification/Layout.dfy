/** The on-disk format: how a 4096-byte block is read as an inode or as a
    directory, and how those records are laid out again as bytes.
    (fs5600.h, and the same structures as declared in diskfmt.py.) */
module Layout {

  const BLOCK_SIZE := 4096
  const NPTRS := 1019
  const SLOTS := 128
  const NAME_MAX := 27
  const MAX_FILE := 1019 * 4096
  const NBITS := 32768

  type byte = x: int | 0 <= x < 0x100
  type u16 = x: int | 0 <= x < 0x1_0000
  type u31 = x: int | 0 <= x < 0x8000_0000
  type u32 = x: int | 0 <= x < 0x1_0000_0000
  type i32 = x: int | -0x8000_0000 <= x < 0x8000_0000

  type Block = b: seq<byte> | |b| == BLOCK_SIZE witness seq(BLOCK_SIZE, _ => 0)
  const NWORDS := 1024
  type Words = w: seq<u32> | |w| == NWORDS witness seq(NWORDS, _ => 0)
  type Pointers = p: seq<u32> | |p| == NPTRS witness seq(NPTRS, _ => 0)
  type NameField = n: seq<byte> | |n| == 28 witness seq(28, _ => 0)
  type Directory = d: seq<Dirent> | |d| == SLOTS witness seq(SLOTS, _ => Dirent(false, 0, seq(28, _ => 0)))

  datatype Inode = Inode(uid: u16, gid: u16, mode: u32, ctime: u32, mtime: u32, size: i32, ptrs: Pointers)
  datatype Dirent = Dirent(valid: bool, inode: u31, name: NameField)

  function Zeros(): Block { seq(BLOCK_SIZE, _ => 0) }

  function NoPointers(): Pointers { seq(NPTRS, _ => 0) }

  // ---------------------------------------------------------------- integers

  /** Four bytes as a little-endian word. */
  function Word(b0: byte, b1: byte, b2: byte, b3: byte): u32 {
    b0 as int + 0x100 * (b1 as int + 0x100 * (b2 as int + 0x100 * b3 as int))
  }

  /** Byte j of a word, least significant first. */
  function Le(x: u32, j: nat): byte
    requires j < 4
  {
    if j == 0 then x % 0x100
    else if j == 1 then x / 0x100 % 0x100
    else if j == 2 then x / 0x100 / 0x100 % 0x100
    else x / 0x100 / 0x100 / 0x100 % 0x100
  }

  lemma WordOfBytes(x: u32)
    ensures Word(Le(x, 0), Le(x, 1), Le(x, 2), Le(x, 3)) == x
  {
  }

  lemma BytesOfWord(b0: byte, b1: byte, b2: byte, b3: byte)
    ensures var x := Word(b0, b1, b2, b3);
      Le(x, 0) == b0 && Le(x, 1) == b1 && Le(x, 2) == b2 && Le(x, 3) == b3
  {
    LowByte(b0, b1 as int + 0x100 * (b2 as int + 0x100 * b3 as int));
    LowByte(b1, b2 as int + 0x100 * b3 as int);
    LowByte(b2, b3);
  }

  lemma LowByte(b: byte, rest: nat)
    ensures (b as int + 0x100 * rest) % 0x100 == b && (b as int + 0x100 * rest) / 0x100 == rest
  {
  }

  /** The word at byte offset o. */
  function U32(b: Block, o: nat): u32
    requires o + 4 <= BLOCK_SIZE
  {
    Word(b[o], b[o + 1], b[o + 2], b[o + 3])
  }

  lemma U32Reads(b: Block, o: nat, x: u32)
    requires o + 4 <= BLOCK_SIZE
    requires b[o] == Le(x, 0) && b[o + 1] == Le(x, 1) && b[o + 2] == Le(x, 2) && b[o + 3] == Le(x, 3)
    ensures U32(b, o) == x
  {
    WordOfBytes(x);
  }

  lemma U32Bytes(b: Block, o: nat, j: nat)
    requires o + 4 <= BLOCK_SIZE && j < 4
    ensures Le(U32(b, o), j) == b[o + j]
  {
    BytesOfWord(b[o], b[o + 1], b[o + 2], b[o + 3]);
  }

  /** A block as 1024 little-endian words, and back. */
  function WordsOf(b: Block): Words {
    seq(NWORDS, m requires 0 <= m < NWORDS => U32(b, 4 * m))
  }

  function BytesOf(w: Words): Block {
    seq(BLOCK_SIZE, k requires 0 <= k < BLOCK_SIZE => Le(w[k / 4], k % 4))
  }

  lemma WordsRoundTrip(w: Words)
    ensures WordsOf(BytesOf(w)) == w
  {
    forall m | 0 <= m < NWORDS
      ensures WordsOf(BytesOf(w))[m] == w[m]
    {
      WordRoundTrip(w, m);
    }
  }

  lemma WordRoundTrip(w: Words, m: nat)
    requires m < NWORDS
    ensures U32(BytesOf(w), 4 * m) == w[m]
  {
    U32Reads(BytesOf(w), 4 * m, w[m]);
  }

  lemma BytesRoundTrip(b: Block)
    ensures BytesOf(WordsOf(b)) == b
  {
    forall k | 0 <= k < BLOCK_SIZE
      ensures BytesOf(WordsOf(b))[k] == b[k]
    {
      U32Bytes(b, 4 * (k / 4), k % 4);
    }
  }

  // ------------------------------------------------------------------ inodes

  /** A 32-bit word read as a signed int. */
  function Signed(x: u32): i32 {
    if x < 0x8000_0000 then x else x - 0x1_0000_0000
  }

  function Unsigned(x: i32): u32 {
    if x >= 0 then x else x + 0x1_0000_0000
  }

  function InodeOfWords(w: Words): Inode {
    Inode(w[0] % 0x1_0000, w[0] / 0x1_0000, w[1], w[2], w[3], Signed(w[4]), w[5..])
  }

  function WordsOfInode(i: Inode): Words {
    [i.uid as int + 0x1_0000 * i.gid as int, i.mode, i.ctime, i.mtime, Unsigned(i.size)] + i.ptrs
  }

  lemma InodeFields(i: Inode)
    ensures InodeOfWords(WordsOfInode(i)) == i
  {
    assert WordsOfInode(i)[5..] == i.ptrs;
  }

  lemma FieldsOnto(w: Words)
    ensures WordsOfInode(InodeOfWords(w)) == w
  {
  }

  /** What block_read(&inode, ...) leaves in a struct fs_inode. */
  function DecodeInode(b: Block): Inode {
    InodeOfWords(WordsOf(b))
  }

  /** The 4096 bytes block_write stores for a struct fs_inode. */
  function EncodeInode(i: Inode): Block {
    BytesOf(WordsOfInode(i))
  }

  /** Decoding undoes encoding ... */
  lemma InodeRoundTrip(i: Inode)
    ensures DecodeInode(EncodeInode(i)) == i
  {
    WordsRoundTrip(WordsOfInode(i));
    InodeFields(i);
  }

  /** ... and, the layout having no padding, encoding undoes decoding. */
  lemma InodeLayoutIsOnto(b: Block)
    ensures EncodeInode(DecodeInode(b)) == b
  {
    FieldsOnto(WordsOf(b));
    BytesRoundTrip(b);
  }

  function InodeByte(i: Inode, k: nat): byte
    requires k < BLOCK_SIZE
  {
    Le(WordsOfInode(i)[k / 4], k % 4)
  }

  ghost predicate LaysOutInode(i: Inode, b: Block) {
    forall k {:trigger InodeByte(i, k)} :: 0 <= k < BLOCK_SIZE ==> b[k] == InodeByte(i, k)
  }

  lemma LaidOutInode(i: Inode, b: Block)
    ensures LaysOutInode(i, b) <==> b == EncodeInode(i)
  {
    if LaysOutInode(i, b) {
      forall k | 0 <= k < BLOCK_SIZE
        ensures b[k] == EncodeInode(i)[k]
      {
        assert b[k] == InodeByte(i, k);
      }
    }
  }

  /** The inode a block holds: the one whose layout it is. */
  ghost function InodeOf(b: Block): (i: Inode)
    ensures LaysOutInode(i, b)
  {
    InodeLayoutIsOnto(b);
    LaidOutInode(DecodeInode(b), b);
    var i: Inode :| LaysOutInode(i, b);
    i
  }

  lemma InodeOfIs(b: Block)
    ensures InodeOf(b) == DecodeInode(b)
  {
    LaidOutInode(InodeOf(b), b);
    InodeRoundTrip(InodeOf(b));
  }

  /** The block that holds a given inode. */
  ghost function InodeBlock(i: Inode): (b: Block)
    ensures InodeOf(b) == i
  {
    InodeRoundTrip(i);
    InodeOfIs(EncodeInode(i));
    var b: Block :| InodeOf(b) == i;
    b
  }

  lemma InodeBlockIs(i: Inode)
    ensures InodeBlock(i) == EncodeInode(i)
  {
    InodeOfIs(InodeBlock(i));
    InodeLayoutIsOnto(InodeBlock(i));
  }

  // ------------------------------------------------------------- directories

  function DirentAt(b: Block, o: nat): Dirent
    requires o + 32 <= BLOCK_SIZE
  {
    Dirent(U32(b, o) % 2 == 1, U32(b, o) / 2, b[o + 4..o + 32])
  }

  /** What block_read(dirBlock, ...) leaves in an array of 128 struct fs_dirent. */
  function DecodeDir(b: Block): Directory {
    seq(SLOTS, j requires 0 <= j < SLOTS => DirentAt(b, 32 * j))
  }

  function DirentWord(e: Dirent): u32 {
    2 * e.inode + if e.valid then 1 else 0
  }

  function DirentByte(e: Dirent, k: nat): byte
    requires k < 32
  {
    if k < 4 then Le(DirentWord(e), k) else e.name[k - 4]
  }

  /** The 4096 bytes block_write stores for a directory block. */
  function EncodeDir(d: Directory): Block {
    seq(BLOCK_SIZE, k requires 0 <= k < BLOCK_SIZE => DirentByte(d[k / 32], k % 32))
  }

  lemma DirentRoundTrip(d: Directory, j: nat)
    requires j < SLOTS
    ensures DirentAt(EncodeDir(d), 32 * j) == d[j]
  {
    WordRead(d, j);
    assert EncodeDir(d)[32 * j + 4..32 * j + 32] == d[j].name by {
      forall k | 0 <= k < 28
        ensures EncodeDir(d)[32 * j + 4..32 * j + 32][k] == d[j].name[k]
      {
        NameByteRead(d, j, k);
      }
    }
  }

  lemma NameByteRead(d: Directory, j: nat, k: nat)
    requires j < SLOTS && k < 28
    ensures EncodeDir(d)[32 * j + 4 + k] == d[j].name[k]
  {
  }

  lemma WordRead(d: Directory, j: nat)
    requires j < SLOTS
    ensures U32(EncodeDir(d), 32 * j) == DirentWord(d[j])
  {
    U32Reads(EncodeDir(d), 32 * j, DirentWord(d[j]));
  }

  /** Decoding undoes encoding ... */
  lemma DirRoundTrip(d: Directory)
    ensures DecodeDir(EncodeDir(d)) == d
  {
    forall j | 0 <= j < SLOTS
      ensures DecodeDir(EncodeDir(d))[j] == d[j]
    {
      DirentRoundTrip(d, j);
    }
  }

  /** ... and encoding undoes decoding. */
  lemma DirLayoutIsOnto(b: Block)
    ensures EncodeDir(DecodeDir(b)) == b
  {
    forall k | 0 <= k < BLOCK_SIZE
      ensures EncodeDir(DecodeDir(b))[k] == b[k]
    {
      DirentByteOf(b, k / 32, k % 32);
    }
  }

  lemma DirentByteOf(b: Block, j: nat, m: nat)
    requires j < SLOTS && m < 32
    ensures DirentByte(DirentAt(b, 32 * j), m) == b[32 * j + m]
  {
    if m < 4 {
      assert DirentWord(DirentAt(b, 32 * j)) == U32(b, 32 * j);
      U32Bytes(b, 32 * j, m);
    }
  }

  function DirByte(d: Directory, k: nat): byte
    requires k < BLOCK_SIZE
  {
    DirentByte(d[k / 32], k % 32)
  }

  ghost predicate LaysOutDir(d: Directory, b: Block) {
    forall k {:trigger DirByte(d, k)} :: 0 <= k < BLOCK_SIZE ==> b[k] == DirByte(d, k)
  }

  lemma LaidOutDir(d: Directory, b: Block)
    ensures LaysOutDir(d, b) <==> b == EncodeDir(d)
  {
    if LaysOutDir(d, b) {
      forall k | 0 <= k < BLOCK_SIZE
        ensures b[k] == EncodeDir(d)[k]
      {
        assert b[k] == DirByte(d, k);
      }
    }
  }

  /** The directory a block holds: the one whose layout it is. */
  ghost function DirOf(b: Block): (d: Directory)
    ensures LaysOutDir(d, b)
  {
    DirLayoutIsOnto(b);
    LaidOutDir(DecodeDir(b), b);
    var d: Directory :| LaysOutDir(d, b);
    d
  }

  lemma DirOfIs(b: Block)
    ensures DirOf(b) == DecodeDir(b)
  {
    LaidOutDir(DirOf(b), b);
    DirRoundTrip(DirOf(b));
  }

  /** The block that holds a given directory. */
  ghost function DirBlock(d: Directory): (b: Block)
    ensures DirOf(b) == d
  {
    DirRoundTrip(d);
    DirOfIs(EncodeDir(d));
    var b: Block :| DirOf(b) == d;
    b
  }

  lemma DirBlockIs(d: Directory)
    ensures DirBlock(d) == EncodeDir(d)
  {
    DirOfIs(DirBlock(d));
    DirLayoutIsOnto(DirBlock(d));
  }

  /** A block of zeros is a directory without entries. */
  lemma EmptyDirectory(j: nat)
    requires j < SLOTS
    ensures !DirOf(Zeros())[j].valid && DirOf(Zeros())[j].name[NAME_MAX] == 0
  {
    DirOfIs(Zeros());
  }

  // ------------------------------------------------------------------- names

  /** The C string at the start of a byte buffer. */
  function CString(s: seq<byte>): seq<byte> {
    if s == [] || s[0] == 0 then [] else [s[0]] + CString(s[1..])
  }

  function NameOf(e: Dirent): seq<byte> {
    CString(e.name)
  }

  /** strncpy(field, name, 27): zero-fills up to 27 bytes and leaves byte 27 alone. */
  function StrnCpy(field: NameField, name: seq<byte>): NameField {
    seq(28, k requires 0 <= k < 28 => if k == NAME_MAX then field[k] else if k < |name| then name[k] else 0)
  }

  lemma CStringIs(s: seq<byte>, r: seq<byte>)
    requires |r| < |s| && r == s[..|r|] && 0 !in r && s[|r|] == 0
    ensures CString(s) == r
  {
    if r != [] {
      assert s[0] == r[0];
      CStringIs(s[1..], r[1..]);
    }
  }

  lemma StrnCpyName(field: NameField, name: seq<byte>)
    requires 0 !in name && |name| <= NAME_MAX && field[NAME_MAX] == 0
    ensures CString(StrnCpy(field, name)) == name && StrnCpy(field, name)[NAME_MAX] == 0
  {
    var f := StrnCpy(field, name);
    assert f[..|name|] == name;
    CStringIs(f, name);
  }

  // -------------------------------------------------------------------- mode

  const IFDIR: u32 := 0x4000
  const IFMT_UNIT := 0x1000

  /** mode & S_IFMT, in units of 0x1000 */
  function Kind(mode: u32): nat { mode / IFMT_UNIT % 16 }

  predicate IsReg(i: Inode) { Kind(i.mode) == 8 }

  predicate IsDir(i: Inode) { Kind(i.mode) == 4 }

  /** (mode & ~0777) | (perm & 0777) */
  function WithPermissions(mode: u32, perm: u32): u32 {
    mode - mode % 0x200 + perm % 0x200
  }

  lemma PermissionsKeepKind(mode: u32, perm: u32)
    ensures Kind(WithPermissions(mode, perm)) == Kind(mode)
    ensures WithPermissions(mode, perm) % 0x200 == perm % 0x200
  {
  }

  /** size / 4096 + (size % 4096 > 0 ? 1 : 0) */
  function NBlocks(size: nat): nat {
    (size + 4095) / 4096
  }
}
