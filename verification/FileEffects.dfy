/** What chmod, truncate and write do, as a user sees it: exact results, exact
    new contents, and nothing else changed. */
module FileEffects {
  import opened Layout
  import opened Bitmap
  import opened Image
  import opened Ownership
  import opened Operations
  import opened Frames
  import opened FileEdits

  // -------------------------------------------------------------- one inode write

  lemma StoredInode(d: Disk, i: nat, ino: Inode)
    requires i < |d|
    ensures Ino(Store(d, Write(i, InodeBlock(ino))), i) == ino
    ensures forall b: nat :: b != i ==> Blk(Store(d, Write(i, InodeBlock(ino))), b) == Blk(d, b)
  {
  }

  lemma OwnedAboveBitmap(d: Disk, bits: Bits, own: Owners, b: nat)
    requires Sound(d, bits, own) && b in own
    ensures 2 <= b < |d|
  {
    assert PlaceOk(d, own, b);
  }

  // -------------------------------------------------------------------- chmod

  function WithMode(n: Node, mode: u32): Node {
    match n
    case FileNode(m, c) => FileNode(m.(mode := WithPermissions(m.mode, mode)), c)
    case DirNode(m) => DirNode(m.(mode := WithPermissions(m.mode, mode)))
    case BadNode => BadNode
  }

  lemma ChmodDisk(s: State, own: Owners, path: Path, mode: u32)
    requires Sound(s.disk, s.bits, own) && Resolve(s.disk, path).Ok?
    ensures var p, i := ChmodPlan(s, path, mode), Resolve(s.disk, path).value;
      && HasInode(own, i) && p.result == Ok(0) && p.bits == s.bits && p.released == 0
      && p.writes == [Write(i, InodeBlock(Chmodded(Ino(s.disk, i), mode)))]
      && Ino(Apply(s.disk, p.writes), i) == Chmodded(Ino(s.disk, i), mode)
      && (forall b: nat :: b != i ==> Blk(Apply(s.disk, p.writes), b) == Blk(s.disk, b))
  {
    var i := Resolve(s.disk, path).value;
    ResolveSound(s.disk, s.bits, own, path);
    ViewOf(s.disk, s.bits, own, path);
    OwnedAboveBitmap(s.disk, s.bits, own, i);
    ApplyOne(s.disk, Write(i, InodeBlock(Chmodded(Ino(s.disk, i), mode))));
    StoredInode(s.disk, i, Chmodded(Ino(s.disk, i), mode));
  }

  /** chmod changes the permission bits of what the path names, and nothing else. */
  lemma ChmodEffect(s: State, own: Owners, path: Path, mode: u32, q: Path)
    requires Sound(s.disk, s.bits, own)
    ensures var p := ChmodPlan(s, path, mode);
      var s' := Commit(s, p);
      && (Resolve(s.disk, path).Err? ==> p == Fail(s, Resolve(s.disk, path).error))
      && (Resolve(s.disk, path).Ok? ==>
            && p.result == Ok(0) && p.released == 0 && s'.bits == s.bits
            && Sound(s'.disk, s'.bits, own)
            && (Attached(s'.disk, own) <==> Attached(s.disk, own))
            && Resolve(s'.disk, q) == Resolve(s.disk, q)
            && View(s'.disk, q) == if q == path then Ok(WithMode(View(s.disk, path).value, mode)) else View(s.disk, q))
  {
    ViewOf(s.disk, s.bits, own, path);
    if Resolve(s.disk, path).Ok? {
      var i := Resolve(s.disk, path).value;
      var d' := Commit(s, ChmodPlan(s, path, mode)).disk;
      ChmodDisk(s, own, path, mode);
      ChmodTouches(s, own, i, mode, d');
      TouchedSound(s.disk, s.bits, d', s.bits, own, own, i);
      TouchedAttached(s.disk, s.bits, d', own, own, i);
      TouchedViews(s.disk, s.bits, d', s.bits, own, own, i, path, q);
      ChmodNode(s, own, i, mode, d');
    }
  }

  lemma ChmodNode(s: State, own: Owners, i: nat, mode: u32, d': Disk)
    requires Sound(s.disk, s.bits, own) && HasInode(own, i)
    requires Ino(d', i) == Chmodded(Ino(s.disk, i), mode)
    requires forall b: nat :: b != i ==> Blk(d', b) == Blk(s.disk, b)
    ensures NodeOf(d', Ino(d', i)) == WithMode(NodeOf(s.disk, Ino(s.disk, i)), mode)
  {
    var ino := Ino(s.disk, i);
    PermissionsKeepKind(ino.mode, mode);
    assert InodeOk(s.disk, own, i);
    if IsReg(ino) {
      forall k | 0 <= k < ino.size
        ensures Content(d', Ino(d', i))[k] == Content(s.disk, ino)[k]
      {
        assert Holds(own, ino.ptrs[k / 4096], FileData(i, k / 4096));
      }
    }
  }

  // ----------------------------------------------------------------- truncate

  /** All the bytes in the blocks a file holds, past its end included. */
  function Allocated(d: Disk, ino: Inode): seq<byte> {
    seq(4096 * Extent(ino), k requires 0 <= k < 4096 * Extent(ino) => ByteAt(d, ino.ptrs, k))
  }

  /** A file's contents are a prefix of what its blocks hold. */
  lemma ContentIsAllocated(d: Disk, ino: Inode)
    requires 0 <= ino.size <= MAX_FILE
    ensures ino.size <= |Allocated(d, ino)|
    ensures Content(d, ino) == Allocated(d, ino)[..ino.size]
  {
  }

  lemma TruncateDisk(s: State, own: Owners, i: nat, len: nat)
    requires Sound(s.disk, s.bits, own) && HasInode(own, i) && IsReg(Ino(s.disk, i))
    requires NBlocks(len) <= Extent(Ino(s.disk, i))
    ensures var d' := Apply(s.disk, TruncateFile(s, i, Ino(s.disk, i), len).writes);
      && Ino(d', i) == Cut(Ino(s.disk, i), len)
      && (forall b: nat :: b != i && b != BITMAP_LBA ==> Blk(d', b) == Blk(s.disk, b))
  {
    var ino := Ino(s.disk, i);
    OwnedAboveBitmap(s.disk, s.bits, own, i);
    InodeThenBitmap(s.disk, i, Cut(ino, len), TruncateFile(s, i, ino, len).bits);
  }

  lemma InodeThenBitmap(d: Disk, i: nat, ino: Inode, bits: Bits)
    requires 2 <= i < |d|
    ensures var d' := Apply(d, [Write(i, InodeBlock(ino)), Write(BITMAP_LBA, BitmapBlock(bits))]);
      && Ino(d', i) == ino
      && (forall b: nat :: b != i && b != BITMAP_LBA ==> Blk(d', b) == Blk(d, b))
  {
    var w, v := Write(i, InodeBlock(ino)), Write(BITMAP_LBA, BitmapBlock(bits));
    ApplyTwo(d, w, v);
    forall b: nat
      ensures Blk(Store(Store(d, w), v), b) == if b == BITMAP_LBA then v.data else if b == i then w.data else Blk(d, b)
    {
      StoreAt(d, w, b);
      StoreAt(Store(d, w), v, b);
    }
  }

  /** After truncate to len the file is exactly the first len bytes its blocks
      held; the dropped blocks are freed, everything else stays. */
  lemma TruncateFileEffect(s: State, own: Owners, i: nat, len: nat)
    requires Sound(s.disk, s.bits, own) && HasInode(own, i) && IsReg(Ino(s.disk, i))
    requires NBlocks(len) <= Extent(Ino(s.disk, i))
    ensures var p := TruncateFile(s, i, Ino(s.disk, i), len);
      var s', own' := Commit(s, p), Dropped(own, i, NBlocks(len));
      && Touched(s.disk, s'.disk, own, own', i)
      && Sound(s'.disk, s'.bits, own')
      && (Exact(s.disk, s.bits, own) ==> Exact(s'.disk, s'.bits, own'))
      && (Attached(s'.disk, own') <==> Attached(s.disk, own))
      && Ino(s'.disk, i) == Cut(Ino(s.disk, i), len)
      && Allocated(s'.disk, Ino(s'.disk, i)) == Allocated(s.disk, Ino(s.disk, i))[..4096 * NBlocks(len)]
  {
    var d' := Commit(s, TruncateFile(s, i, Ino(s.disk, i), len)).disk;
    TruncateDisk(s, own, i, len);
    forall b | b in own
      ensures b != BITMAP_LBA
    {
      OwnedAboveBitmap(s.disk, s.bits, own, b);
    }
    TruncateTouches(s, own, i, len, d');
    TruncateMarks(s, own, i, NBlocks(len));
    TouchedSound(s.disk, s.bits, d', Commit(s, TruncateFile(s, i, Ino(s.disk, i), len)).bits, own,
        Dropped(own, i, NBlocks(len)), i);
    TouchedAttached(s.disk, s.bits, d', own, Dropped(own, i, NBlocks(len)), i);
    CutBytes(s, own, i, len, d');
  }

  lemma CutBytes(s: State, own: Owners, i: nat, len: nat, d': Disk)
    requires Sound(s.disk, s.bits, own) && HasInode(own, i) && IsReg(Ino(s.disk, i))
    requires NBlocks(len) <= Extent(Ino(s.disk, i))
    requires Ino(d', i) == Cut(Ino(s.disk, i), len)
    requires forall b: nat :: b != i && b != BITMAP_LBA ==> Blk(d', b) == Blk(s.disk, b)
    ensures Allocated(d', Ino(d', i)) == Allocated(s.disk, Ino(s.disk, i))[..4096 * NBlocks(len)]
  {
    var ino := Ino(s.disk, i);
    assert InodeOk(s.disk, own, i);
    CutSize(ino, len);
    forall k | 0 <= k < 4096 * NBlocks(len)
      ensures ByteAt(d', Cut(ino, len).ptrs, k) == ByteAt(s.disk, ino.ptrs, k)
    {
      assert Holds(own, ino.ptrs[k / 4096], FileData(i, k / 4096));
      OwnedAboveBitmap(s.disk, s.bits, own, ino.ptrs[k / 4096]);
    }
  }

  /** The error a call on a regular file reports before it looks at its arguments. */
  function FileError(v: Result<Node>): Errno {
    match v case Err(e) => e case Ok(_) => EISDIR
  }

  /** A path to a regular file, in terms of its inode. */
  lemma FileAt(d: Disk, bits: Bits, own: Owners, path: Path)
    requires Sound(d, bits, own)
    ensures View(d, path).Ok? <==> Resolve(d, path).Ok?
    ensures View(d, path).Ok? ==>
      var i := Resolve(d, path).value;
      && HasInode(own, i) && PathInode(d, path) == Ok((i, Ino(d, i)))
      && (View(d, path).value.FileNode? <==> IsReg(Ino(d, i)))
      && (View(d, path).value.DirNode? <==> IsDir(Ino(d, i)))
      && (IsReg(Ino(d, i)) ==>
            && 0 <= Ino(d, i).size <= MAX_FILE
            && View(d, path) == Ok(FileNode(MetaOf(Ino(d, i)), Content(d, Ino(d, i)))))
    ensures View(d, path).Err? ==> PathInode(d, path) == Err(View(d, path).error)
  {
    ViewOf(d, bits, own, path);
    ResolveSound(d, bits, own, path);
    if Resolve(d, path).Ok? {
      assert InodeOk(d, own, Resolve(d, path).value);
    }
  }

  /** What truncate to len leaves of a file, past-the-end bytes of its blocks included. */
  lemma CutNode(s: State, own: Owners, i: nat, len: nat)
    requires Sound(s.disk, s.bits, own) && HasInode(own, i) && IsReg(Ino(s.disk, i))
    requires NBlocks(len) <= Extent(Ino(s.disk, i))
    ensures var ino, d' := Ino(s.disk, i), Commit(s, TruncateFile(s, i, Ino(s.disk, i), len)).disk;
      len <= |Allocated(s.disk, ino)| && NodeOf(d', Ino(d', i)) == FileNode(MetaOf(ino), Allocated(s.disk, ino)[..len])
  {
    var ino, d' := Ino(s.disk, i), Commit(s, TruncateFile(s, i, Ino(s.disk, i), len)).disk;
    assert InodeOk(s.disk, own, i);
    TruncateFileEffect(s, own, i, len);
    CutContent(s.disk, d', ino, len);
  }

  lemma CutContent(d: Disk, d': Disk, ino: Inode, len: nat)
    requires IsReg(ino) && 0 <= ino.size <= MAX_FILE && NBlocks(len) <= Extent(ino)
    requires Allocated(d', Cut(ino, len)) == Allocated(d, ino)[..4096 * NBlocks(len)]
    ensures len <= |Allocated(d, ino)|
    ensures NodeOf(d', Cut(ino, len)) == FileNode(MetaOf(ino), Allocated(d, ino)[..len])
  {
    CutSize(ino, len);
    ContentIsAllocated(d', Cut(ino, len));
    PrefixOfPrefix(Allocated(d, ino), 4096 * NBlocks(len), len);
  }

  lemma PrefixOfPrefix(s: seq<byte>, m: nat, n: nat)
    requires n <= m <= |s|
    ensures s[..m][..n] == s[..n]
  {
  }

  lemma TruncateViews(s: State, own: Owners, path: Path, len: nat, q: Path)
    requires Sound(s.disk, s.bits, own) && Resolve(s.disk, path).Ok?
    requires IsReg(Ino(s.disk, Resolve(s.disk, path).value))
    requires NBlocks(len) <= Extent(Ino(s.disk, Resolve(s.disk, path).value))
    ensures var i := Resolve(s.disk, path).value;
      var ino, d' := Ino(s.disk, i), Commit(s, TruncateFile(s, i, Ino(s.disk, i), len)).disk;
      && len <= |Allocated(s.disk, ino)|
      && Resolve(d', q) == Resolve(s.disk, q)
      && View(d', q) == if q == path then Ok(FileNode(MetaOf(ino), Allocated(s.disk, ino)[..len])) else View(s.disk, q)
  {
    var i := Resolve(s.disk, path).value;
    ResolveSound(s.disk, s.bits, own, path);
    var s' := Commit(s, TruncateFile(s, i, Ino(s.disk, i), len));
    TruncateFileEffect(s, own, i, len);
    TouchedViews(s.disk, s.bits, s'.disk, s'.bits, own, Dropped(own, i, NBlocks(len)), i, path, q);
    CutNode(s, own, i, len);
  }

  /** truncate: its result is decided by the length asked for and the length of
      the file; on success the file is the first len bytes its blocks held. */
  lemma TruncateEffect(s: State, own: Owners, path: Path, len: int, q: Path)
    requires Sound(s.disk, s.bits, own)
    ensures var p, v := TruncatePlan(s, path, len), View(s.disk, path);
      var s' := Commit(s, p);
      if len < 0 then p == Fail(s, EINVAL)
      else if v.Err? || !v.value.FileNode? then p == Fail(s, FileError(v))
      else if NBlocks(len) > NBlocks(|v.value.bytes|) then p == Fail(s, EINVAL)
      else
        var held := Allocated(s.disk, Ino(s.disk, Resolve(s.disk, path).value));
        && p.result == Ok(0) && p.released == NBlocks(|v.value.bytes|) - NBlocks(len)
        && len <= |held| && v.value.bytes <= held
        && Resolve(s'.disk, q) == Resolve(s.disk, q)
        && View(s'.disk, q) == if q == path then Ok(FileNode(v.value.meta, held[..len])) else View(s.disk, q)
  {
    var v := View(s.disk, path);
    FileAt(s.disk, s.bits, own, path);
    if len >= 0 && v.Ok? && v.value.FileNode? {
      ContentIsAllocated(s.disk, Ino(s.disk, Resolve(s.disk, path).value));
      if NBlocks(len) <= NBlocks(|v.value.bytes|) {
        TruncateViews(s, own, path, len, q);
      }
    }
  }

  /** Within the old length, truncate keeps exactly the first len bytes. */
  lemma TruncateShrinks(s: State, own: Owners, path: Path, len: nat)
    requires Sound(s.disk, s.bits, own)
    requires View(s.disk, path).Ok? && View(s.disk, path).value.FileNode?
    requires len <= |View(s.disk, path).value.bytes|
    ensures TruncatePlan(s, path, len).result == Ok(0)
    ensures View(Commit(s, TruncatePlan(s, path, len)).disk, path)
            == Ok(View(s.disk, path).value.(bytes := View(s.disk, path).value.bytes[..len]))
  {
    var v := View(s.disk, path).value;
    BlocksGrow(len, |v.bytes|);
    TruncateEffect(s, own, path, len, path);
    PrefixTake(v.bytes, Allocated(s.disk, Ino(s.disk, Resolve(s.disk, path).value)), len);
  }

  lemma PrefixTake(a: seq<byte>, b: seq<byte>, n: nat)
    requires a <= b && n <= |a|
    ensures b[..n] == a[..n]
  {
  }

  lemma BlocksGrow(m: nat, n: nat)
    requires m <= n
    ensures NBlocks(m) <= NBlocks(n)
  {
  }
}
