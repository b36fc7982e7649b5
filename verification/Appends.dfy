/** Appending to a file piece by piece: every way of cutting the same bytes into
    pieces ends in the same file, the same bitmap and the same counters. */
module Appends {
  import opened Layout
  import opened Bitmap
  import opened Image
  import opened Ownership
  import opened Operations
  import FileEdits
  import FileEffects
  import opened WriteEffects
  import opened Runs

  /** One fs_write call: where it starts, what it writes, and what the clock says. */
  datatype Piece = Piece(off: nat, buf: seq<byte>, now: u32)

  /** The bytes of all pieces, put together. */
  function Joined(pieces: seq<Piece>): seq<byte> {
    if pieces == [] then [] else pieces[0].buf + Joined(pieces[1..])
  }

  /** Non-empty pieces, each where the one before it ended, the first one at off. */
  ghost predicate InTurn(pieces: seq<Piece>, off: nat)
    decreases |pieces|
  {
    pieces == [] || (pieces[0].off == off && pieces[0].buf != [] && InTurn(pieces[1..], off + |pieces[0].buf|))
  }

  /** The clock of the last call. */
  function LastClock(pieces: seq<Piece>): u32 {
    if pieces == [] then 0 else pieces[|pieces| - 1].now
  }

  /** One fs_write: the state after it, or the error it reports. */
  ghost function Wrote(s: State, path: Path, p: Piece): Result<State>
    requires WriteFits(p.off, |p.buf|)
  {
    var plan := WritePlan(s, path, p.buf, p.off, p.now);
    if plan.result.Ok? then Ok(Commit(s, plan)) else Err(plan.result.error)
  }

  ghost predicate AllFit(pieces: seq<Piece>) {
    forall k :: 0 <= k < |pieces| ==> WriteFits(pieces[k].off, |pieces[k].buf|)
  }

  /** One fs_write per piece, until one is refused. */
  ghost function WroteAll(s: State, path: Path, pieces: seq<Piece>): Result<State>
    requires AllFit(pieces)
    decreases |pieces|
  {
    if pieces == [] then Ok(s)
    else
      var t :- Wrote(s, path, pieces[0]);
      WroteAll(t, path, pieces[1..])
  }

  lemma {:induction false} PiecesFit(pieces: seq<Piece>, off: nat)
    requires InTurn(pieces, off) && off + |Joined(pieces)| <= MAX_FILE
    ensures AllFit(pieces)
    decreases |pieces|
  {
    if pieces != [] {
      PiecesFit(pieces[1..], off + |pieces[0].buf|);
      assert pieces == [pieces[0]] + pieces[1..];
    }
  }

  // -------------------------------------------------------- allocating in pieces

  lemma UsedHead(bits: Bits, lo: nat, hi: nat, n: nat, next: nat)
    requires lo < hi <= NBITS && next == lo + 1 && bits[lo]
    ensures LowestFree(bits, lo, hi, n) == LowestFree(bits, next, hi, n)
  {
  }

  lemma FreeHead(bits: Bits, lo: nat, hi: nat, n: nat, next: nat, less: nat)
    requires lo < hi <= NBITS && next == lo + 1 && n == less + 1 && !bits[lo]
    ensures LowestFree(bits, lo, hi, n) == [lo] + LowestFree(bits, next, hi, less)
  {
  }

  /** Between lo and hi, bits' is bits with its m lowest free blocks taken. */
  ghost predicate Took(bits: Bits, bits': Bits, lo: nat, hi: nat, m: nat)
    requires hi <= NBITS
  {
    forall b :: lo <= b < hi ==> bits'[b] == (bits[b] || b in LowestFree(bits, lo, hi, m))
  }

  lemma {:induction false} LowestFreeSame(bits: Bits, bits': Bits, lo: nat, hi: nat, n: nat)
    requires hi <= NBITS && forall b :: lo <= b < hi ==> bits'[b] == bits[b]
    ensures LowestFree(bits', lo, hi, n) == LowestFree(bits, lo, hi, n)
    decreases hi - lo
  {
    if lo < hi && n > 0 {
      LowestFreeSame(bits, bits', lo + 1, hi, if bits[lo] then n else n - 1);
    }
  }

  /** Taking the m lowest free blocks and then the n lowest of the rest is taking
      the m + n lowest. */
  lemma {:induction false} LowestFreeSplit(bits: Bits, bits': Bits, lo: nat, hi: nat, m: nat, n: nat, both: nat)
    requires hi <= NBITS && both == m + n && Took(bits, bits', lo, hi, m)
    ensures LowestFree(bits, lo, hi, both) == LowestFree(bits, lo, hi, m) + LowestFree(bits', lo, hi, n)
    decreases hi - lo
  {
    if lo >= hi {
    } else if bits[lo] {
      SplitUsed(bits, bits', lo, hi, m, n, both, lo + 1);
    } else if m > 0 {
      SplitTaken(bits, bits', lo, hi, m, n, both, lo + 1, m - 1, both - 1);
    } else {
      LowestFreeSame(bits, bits', lo, hi, n);
    }
  }

  lemma {:induction false} SplitUsed(bits: Bits, bits': Bits, lo: nat, hi: nat, m: nat, n: nat, both: nat, next: nat)
    requires lo < hi <= NBITS && both == m + n && Took(bits, bits', lo, hi, m) && bits[lo] && next == lo + 1
    ensures LowestFree(bits, lo, hi, both) == LowestFree(bits, lo, hi, m) + LowestFree(bits', lo, hi, n)
    decreases hi - lo, 0
  {
    UsedHead(bits, lo, hi, m, next);
    UsedHead(bits, lo, hi, both, next);
    UsedHead(bits', lo, hi, n, next);
    LowestFreeSplit(bits, bits', next, hi, m, n, both);
  }

  lemma {:induction false} SplitTaken(bits: Bits, bits': Bits, lo: nat, hi: nat, m: nat, n: nat, both: nat, next: nat,
          less: nat, rest: nat)
    requires lo < hi <= NBITS && both == m + n && Took(bits, bits', lo, hi, m)
    requires !bits[lo] && next == lo + 1 && m == less + 1 && both == rest + 1
    ensures LowestFree(bits, lo, hi, both) == LowestFree(bits, lo, hi, m) + LowestFree(bits', lo, hi, n)
    decreases hi - lo, 0
  {
    FreeHead(bits, lo, hi, m, next, less);
    FreeHead(bits, lo, hi, both, next, rest);
    assert lo in LowestFree(bits, lo, hi, m);
    UsedHead(bits', lo, hi, n, next);
    LowestFreeSplit(bits, bits', next, hi, less, n, rest);
  }

  lemma {:induction false} MarkAppend(bits: Bits, a: seq<nat>, b: seq<nat>, flag: bool)
    ensures Mark(bits, a + b, flag) == Mark(Mark(bits, a, flag), b, flag)
    decreases |a|
  {
    if a == [] {
      assert a + b == b;
    } else {
      assert (a + b)[1..] == a[1..] + b;
      MarkAppend(Put(bits, a[0], flag), a[1..], b, flag);
    }
  }

  function Taken(bits: Bits, hi: nat, n: nat): Bits
    requires hi <= NBITS
  {
    Mark(bits, LowestFree(bits, 0, hi, n), true)
  }

  lemma TakenTwice(bits: Bits, hi: nat, m: nat, n: nat)
    requires hi <= NBITS
    ensures Taken(Taken(bits, hi, m), hi, n) == Taken(bits, hi, m + n)
  {
    var got := LowestFree(bits, 0, hi, m);
    forall b: nat | b < hi
      ensures Taken(bits, hi, m)[b] == (bits[b] || b in got)
    {
      MarkAt(bits, got, true, b);
    }
    LowestFreeSplit(bits, Taken(bits, hi, m), 0, hi, m, n, m + n);
    MarkAppend(bits, got, LowestFree(Taken(bits, hi, m), 0, hi, n), true);
  }

  // -------------------------------------------------------------- appended states

  ghost predicate HasFile(s: State, path: Path) {
    View(s.disk, path).Ok? && View(s.disk, path).value.FileNode?
  }

  ghost function Bytes(s: State, path: Path): seq<byte>
    requires HasFile(s, path)
  {
    View(s.disk, path).value.bytes
  }

  /** How many blocks appending n bytes adds to the file. */
  ghost function Added(s: State, path: Path, n: nat): nat
    requires HasFile(s, path)
  {
    BlocksAdded(|Bytes(s, path)|, |Bytes(s, path)|, n)
  }

  /** The file can take n more bytes. */
  ghost predicate CanAppend(s: State, path: Path, n: nat) {
    && HasFile(s, path) && |Bytes(s, path)| + n <= MAX_FILE
    && FreeIn(s.bits, 0, |s.disk|) >= Added(s, path, n)
  }

  /** t is s with `bytes` added at the end of the file; q is any path. */
  ghost predicate Appended(s: State, t: State, path: Path, bytes: seq<byte>, now: u32, q: Path)
    requires HasFile(s, path)
  {
    var n, v := Added(s, path, |bytes|), View(s.disk, path).value;
    && |t.disk| == |s.disk|
    && t.bits == Taken(s.bits, |s.disk|, n) && t.bfree == s.bfree - n && t.bavail == s.bavail - n
    && View(t.disk, q) ==
         if q != path then View(s.disk, q)
         else if bytes == [] then Ok(v) else Ok(FileNode(v.meta.(mtime := now), v.bytes + bytes))
  }

  lemma AppendCounts(size: nat, n: nat)
    requires n > 0 && size + n <= MAX_FILE
    ensures WriteFits(size, n)
    ensures LastBlock(size, n) + 1 - NBlocks(size) == BlocksAdded(size, size, n)
  {
  }

  lemma SpliceAtEnd(c: seq<byte>, buf: seq<byte>)
    ensures Splice(c, |c|, buf) == c + buf
  {
  }

  /** One append, in full. */
  lemma AppendOnce(s: State, own: Owners, path: Path, buf: seq<byte>, now: u32, q: Path) returns (own': Owners)
    requires Safe(s, own) && buf != [] && CanAppend(s, path, |buf|)
    ensures var off := |Bytes(s, path)|;
      && WriteFits(off, |buf|) && WritePlan(s, path, buf, off, now).result.Ok?
      && Safe(Commit(s, WritePlan(s, path, buf, off, now)), own')
      && Appended(s, Commit(s, WritePlan(s, path, buf, off, now)), path, buf, now, path)
      && Appended(s, Commit(s, WritePlan(s, path, buf, off, now)), path, buf, now, q)
  {
    var c := Bytes(s, path);
    var off := |c|;
    AppendCounts(off, |buf|);
    WriteEffect(s, own, path, buf, off, now, path);
    WriteEffect(s, own, path, buf, off, now, q);
    WriteDecision(s, own, path, buf, off, now);
    WriteKeeps(s, own, path, buf, off, now);
    SpliceAtEnd(c, buf);
    FileEffects.FileAt(s.disk, s.bits, own, path);
    NeededIsAdded(Ino(s.disk, Target(s, path)), off, |buf|);
    own' := FileEdits.WriteOwn(s, own, Target(s, path), off, |buf|);
  }

  lemma AddedTwice(size: nat, m: nat, n: nat)
    ensures BlocksAdded(size, size, m + n) == BlocksAdded(size, size, m) + BlocksAdded(size + m, size + m, n)
  {
  }

  lemma FreeAfter(s: State, own: Owners, n: nat)
    requires Sound(s.disk, s.bits, own) && FreeIn(s.bits, 0, |s.disk|) >= n
    ensures FreeIn(Taken(s.bits, |s.disk|, n), 0, |s.disk|) == FreeIn(s.bits, 0, |s.disk|) - n
  {
    TakingCounts(s, own, n);
    LowestFreeCount(s.bits, 0, |s.disk|, n);
  }

  lemma AddedSum(s: State, t: State, path: Path, a: seq<byte>, n: nat, now: u32)
    requires HasFile(s, path) && Appended(s, t, path, a, now, path)
    ensures HasFile(t, path) && Added(s, path, |a| + n) == Added(s, path, |a|) + Added(t, path, n)
  {
    AddedTwice(|Bytes(s, path)|, |a|, n);
  }

  /** After one piece there is still room for the rest. */
  lemma StillFits(s: State, own: Owners, t: State, path: Path, a: seq<byte>, n: nat, both: nat, now: u32)
    requires Sound(s.disk, s.bits, own) && a != [] && CanAppend(s, path, both) && both == |a| + n
    requires Appended(s, t, path, a, now, path)
    ensures CanAppend(t, path, n) && |Bytes(t, path)| == |Bytes(s, path)| + |a|
  {
    AddedSum(s, t, path, a, n, now);
    FreeAfter(s, own, Added(s, path, |a|));
  }

  lemma NothingAppended(s: State, path: Path, now: u32, q: Path)
    requires HasFile(s, path)
    ensures Appended(s, s, path, [], now, q)
  {
  }

  /** The blocks after two appends, as after one. */
  lemma SizesAddUp(s: State, t: State, u: State, path: Path, a: seq<byte>, b: seq<byte>, now: u32, later: u32, q: Path,
          m: nat, n: nat)
    requires HasFile(s, path) && Appended(s, t, path, a, now, path)
    requires HasFile(t, path) && Appended(t, u, path, b, later, q)
    requires m == Added(s, path, |a|) && n == Added(t, path, |b|)
    ensures Added(s, path, |a + b|) == m + n
    ensures |u.disk| == |s.disk| && u.bits == Taken(s.bits, |s.disk|, m + n)
    ensures u.bfree == s.bfree - (m + n) && u.bavail == s.bavail - (m + n)
  {
    AddedSum(s, t, path, a, |b|, now);
    TakenTwice(s.bits, |s.disk|, m, n);
  }

  lemma AppendedTwice(s: State, t: State, u: State, path: Path, a: seq<byte>, b: seq<byte>, now: u32, later: u32,
      q: Path)
    requires HasFile(s, path) && a != []
    requires Appended(s, t, path, a, now, path) && Appended(s, t, path, a, now, q)
    requires HasFile(t, path) && Appended(t, u, path, b, later, q)
    ensures Appended(s, u, path, a + b, if b == [] then now else later, q)
  {
    SizesAddUp(s, t, u, path, a, b, now, later, q, Added(s, path, |a|), Added(t, path, |b|));
    assert Bytes(s, path) + (a + b) == Bytes(s, path) + a + b;
    assert b == [] ==> a + b == a;
  }

  lemma CanAppendLess(s: State, path: Path, m: nat, n: nat, both: nat)
    requires CanAppend(s, path, both) && both == m + n
    ensures CanAppend(s, path, m)
  {
    AddedTwice(|Bytes(s, path)|, m, n);
  }

  lemma WroteIs(s: State, path: Path, p: Piece, t: State)
    requires WriteFits(p.off, |p.buf|) && WritePlan(s, path, p.buf, p.off, p.now).result.Ok?
    requires t == Commit(s, WritePlan(s, path, p.buf, p.off, p.now))
    ensures Wrote(s, path, p) == Ok(t)
  {
  }

  /** The first of several pieces. */
  lemma AppendFirst(s: State, own: Owners, path: Path, p: Piece, n: nat, both: nat, q: Path)
    returns (t: State, own': Owners)
    requires Safe(s, own) && p.buf != [] && CanAppend(s, path, both) && both == |p.buf| + n && p.off == |Bytes(s, path)|
    ensures WriteFits(p.off, |p.buf|) && Wrote(s, path, p) == Ok(t)
    ensures Safe(t, own') && Appended(s, t, path, p.buf, p.now, path) && Appended(s, t, path, p.buf, p.now, q)
    ensures CanAppend(t, path, n) && |Bytes(t, path)| == p.off + |p.buf|
  {
    CanAppendLess(s, path, |p.buf|, n, both);
    own' := AppendOnce(s, own, path, p.buf, p.now, q);
    t := Commit(s, WritePlan(s, path, p.buf, p.off, p.now));
    WroteIs(s, path, p, t);
    StillFits(s, own, t, path, p.buf, n, both, p.now);
  }

  lemma WroteFirst(s: State, path: Path, pieces: seq<Piece>, t: State, r: Result<State>)
    requires pieces != [] && AllFit(pieces)
    requires Wrote(s, path, pieces[0]) == Ok(t) && r == WroteAll(s, path, pieces)
    ensures AllFit(pieces[1..]) && r == WroteAll(t, path, pieces[1..])
  {
  }

  lemma InTurnRest(pieces: seq<Piece>, off: nat, next: nat)
    requires pieces != [] && InTurn(pieces, off) && next == off + |pieces[0].buf|
    ensures pieces[0].off == off && pieces[0].buf != [] && InTurn(pieces[1..], next)
    ensures |Joined(pieces)| == |pieces[0].buf| + |Joined(pieces[1..])|
    ensures LastClock(pieces) == if Joined(pieces[1..]) == [] then pieces[0].now else LastClock(pieces[1..])
  {
  }

  /** The first of several calls, seen from the state it leaves. */
  lemma AppendStep(s: State, own: Owners, path: Path, pieces: seq<Piece>, q: Path, r: Result<State>)
    returns (t: State, own': Owners)
    requires Safe(s, own) && CanAppend(s, path, |Joined(pieces)|) && InTurn(pieces, |Bytes(s, path)|)
    requires pieces != [] && AllFit(pieces) && r == WroteAll(s, path, pieces)
    ensures AllFit(pieces[1..]) && r == WroteAll(t, path, pieces[1..])
    ensures pieces[0].buf != [] && Safe(t, own')
    ensures Appended(s, t, path, pieces[0].buf, pieces[0].now, path)
        && Appended(s, t, path, pieces[0].buf, pieces[0].now, q)
    ensures CanAppend(t, path, |Joined(pieces[1..])|) && InTurn(pieces[1..], |Bytes(t, path)|)
    ensures LastClock(pieces) == if Joined(pieces[1..]) == [] then pieces[0].now else LastClock(pieces[1..])
  {
    var off := |Bytes(s, path)|;
    InTurnRest(pieces, off, off + |pieces[0].buf|);
    t, own' := AppendFirst(s, own, path, pieces[0], |Joined(pieces[1..])|, |Joined(pieces)|, q);
    WroteFirst(s, path, pieces, t, r);
    InTurnRest(pieces, off, |Bytes(t, path)|);
  }

  /** Appending in pieces: every call succeeds, and the outcome depends on the
      bytes and the clock of the last call alone. */
  lemma {:induction false} AppendRun(s: State, own: Owners, path: Path, pieces: seq<Piece>, q: Path, r: Result<State>)
    requires Safe(s, own) && CanAppend(s, path, |Joined(pieces)|) && InTurn(pieces, |Bytes(s, path)|)
    requires AllFit(pieces) && r == WroteAll(s, path, pieces)
    ensures r.Ok? && Appended(s, r.value, path, Joined(pieces), LastClock(pieces), q)
    decreases |pieces|
  {
    if pieces == [] {
      NothingAppended(s, path, 0, q);
    } else {
      var t, own' := AppendStep(s, own, path, pieces, q, r);
      AppendRun(t, own', path, pieces[1..], q, r);
      AppendedTwice(s, t, r.value, path, pieces[0].buf, Joined(pieces[1..]), pieces[0].now, LastClock(pieces[1..]), q);
    }
  }

  /** However the same bytes are cut into non-empty pieces, and whenever those are
      appended, it ends with the same bitmap, bit for bit, the same counters and
      the same view of every path, as one write would; but for the modification
      time of the file, which is that of the last call. */
  lemma AnySplitIsTheSame(s: State, own: Owners, path: Path, a: seq<Piece>, b: seq<Piece>, q: Path)
    requires Safe(s, own) && HasFile(s, path) && Joined(a) == Joined(b) && CanAppend(s, path, |Joined(a)|)
    requires InTurn(a, |Bytes(s, path)|) && InTurn(b, |Bytes(s, path)|)
    ensures AllFit(a) && AllFit(b)
    ensures var t, u := WroteAll(s, path, a), WroteAll(s, path, b);
      && t.Ok? && u.Ok?
      && t.value.bits == u.value.bits && t.value.bfree == u.value.bfree && t.value.bavail == u.value.bavail
      && (q != path || LastClock(a) == LastClock(b) ==> View(t.value.disk, q) == View(u.value.disk, q))
      && HasFile(t.value, path) && HasFile(u.value, path) && Bytes(t.value, path) == Bytes(u.value, path)
  {
    PiecesFit(a, |Bytes(s, path)|);
    PiecesFit(b, |Bytes(s, path)|);
    AppendRun(s, own, path, a, q, WroteAll(s, path, a));
    AppendRun(s, own, path, b, q, WroteAll(s, path, b));
    AppendRun(s, own, path, a, path, WroteAll(s, path, a));
    AppendRun(s, own, path, b, path, WroteAll(s, path, b));
  }
}
