/** The consistency walk of read-img.py: it visits what paths lead to, each inode
    once, and reports exactly the blocks in use that the bitmap does not mark. */
module Walk {
  import opened Layout
  import opened Bitmap
  import opened Image
  import opened Ownership
  import BitmapWords
  import opened Paths

  /** One call of the walk: the path it prints and the inode it looks at. */
  datatype Visit = Visit(path: Path, inode: nat)

  // -------------------------------------------------------------- specification

  /** The calls a directory leads to, from slot j on. */
  ghost function Children(dir: Directory, p: Path, j: nat): seq<Visit>
    requires j <= SLOTS
    decreases |dir| - j
  {
    if j == SLOTS then []
    else (if dir[j].valid && ValidName(NameOf(dir[j])) then [Visit(p + [NameOf(dir[j])], dir[j].inode)] else [])
         + Children(dir, p, j + 1)
  }

  /** The calls the walk of an inode makes in turn. */
  ghost function Next(d: Disk, v: Visit): seq<Visit> {
    if IsDir(Ino(d, v.inode)) then Children(Ents(d, v.inode), v.path, 0) else []
  }

  /** The walk from a visit on, going at most `fuel` levels down. */
  ghost function Tour(d: Disk, v: Visit, fuel: nat): seq<Visit>
    decreases fuel, 0
  {
    [v] + if fuel == 0 then [] else Tours(d, Next(d, v), fuel - 1)
  }

  ghost function Tours(d: Disk, vs: seq<Visit>, fuel: nat): seq<Visit>
    decreases fuel, |vs|
  {
    if vs == [] then [] else Tour(d, vs[0], fuel) + Tours(d, vs[1..], fuel)
  }

  ghost predicate Resolves(d: Disk, v: Visit) {
    Resolve(d, v.path) == Ok(v.inode)
  }

  // ------------------------------------------------------------------- children

  lemma {:induction false} ChildrenAre(dir: Directory, p: Path, from: nat, v: Visit)
    requires from <= SLOTS
    ensures v in Children(dir, p, from) <==>
            exists j :: from <= j < SLOTS && dir[j].valid && ValidName(NameOf(dir[j]))
                && v == Visit(p + [NameOf(dir[j])], dir[j].inode)
    decreases SLOTS - from
  {
    if from < SLOTS {
      ChildrenAre(dir, p, from + 1, v);
    }
  }

  /** What a valid slot of a directory names, resolves. */
  lemma SlotResolves(d: Disk, bits: Bits, own: Owners, v: Visit, j: nat, name: Name)
    requires Sound(d, bits, own) && Resolves(d, v) && IsDir(Ino(d, v.inode))
    requires j < SLOTS && Ents(d, v.inode)[j].valid && NameOf(Ents(d, v.inode)[j]) == name
    ensures Resolve(d, v.path + [name]) == Ok(Ents(d, v.inode)[j].inode)
  {
    var p := v.path + [name];
    assert Parent(p) == v.path && Last(p) == name;
    ResolveSound(d, bits, own, v.path);
    StepSound(d, bits, own, v.inode, name);
    assert UniqueNames(Ents(d, v.inode)) by {
      assert DirOk(own, v.inode, Ents(d, v.inode));
    }
  }

  lemma Depths(d: Disk, bits: Bits, own: Owners, v: Visit)
    requires Sound(d, bits, own) && Resolves(d, v)
    ensures HasInode(own, v.inode) && |v.path| == own[v.inode].Depth() <= MAX_PATH_LEN
  {
    ResolveSound(d, bits, own, v.path);
    assert PlaceOk(d, own, v.inode);
  }

  /** Every child of a directory resolves. */
  lemma ChildResolves(d: Disk, bits: Bits, own: Owners, v: Visit, c: Visit)
    requires Sound(d, bits, own) && Resolves(d, v) && IsDir(Ino(d, v.inode))
    requires c in Children(Ents(d, v.inode), v.path, 0)
    ensures Resolves(d, c) && c.path != [] && Parent(c.path) == v.path && |c.path| == |v.path| + 1
  {
    var dir := Ents(d, v.inode);
    ChildrenAre(dir, v.path, 0, c);
    var j :| 0 <= j < SLOTS && dir[j].valid && ValidName(NameOf(dir[j]))
        && c == Visit(v.path + [NameOf(dir[j])], dir[j].inode);
    SlotResolves(d, bits, own, v, j, NameOf(dir[j]));
    assert Parent(c.path) == v.path;
  }

  /** Everything one level below a directory is one of its children. */
  lemma ResolvesIsChild(d: Disk, bits: Bits, own: Owners, v: Visit, c: Visit)
    requires Sound(d, bits, own) && Resolves(d, v) && Resolves(d, c) && c.path != [] && Parent(c.path) == v.path
    ensures IsDir(Ino(d, v.inode)) && c in Children(Ents(d, v.inode), v.path, 0)
  {
    var dir, name := Ents(d, v.inode), Last(c.path);
    assert c.path == v.path + [name];
    ResolveSound(d, bits, own, v.path);
    StepSound(d, bits, own, v.inode, name);
    FoundIsChild(dir, v.path, name);
    assert c == Visit(v.path + [name], dir[FindSlot(dir, name, 0)].inode);
  }

  lemma FoundIsChild(dir: Directory, p: Path, name: Name)
    requires FindSlot(dir, name, 0) < SLOTS
    ensures Visit(p + [name], dir[FindSlot(dir, name, 0)].inode) in Children(dir, p, 0)
  {
    ChildrenAre(dir, p, 0, Visit(p + [name], dir[FindSlot(dir, name, 0)].inode));
  }

  ghost predicate DistinctVisits(s: seq<Visit>) {
    forall i, j :: 0 <= i < j < |s| ==> s[i] != s[j]
  }

  /** No child is listed twice, since names are unique. */
  lemma {:induction false} ChildrenDistinct(dir: Directory, p: Path, from: nat)
    requires from <= SLOTS && UniqueNames(dir)
    ensures DistinctVisits(Children(dir, p, from))
    decreases SLOTS - from
  {
    if from < SLOTS {
      ChildrenDistinct(dir, p, from + 1);
      if dir[from].valid && ValidName(NameOf(dir[from])) {
        NotAmongLater(dir, p, from, NameOf(dir[from]));
      }
    }
  }

  lemma {:induction false} NotAmongLater(dir: Directory, p: Path, from: nat, name: Name)
    requires from < SLOTS && UniqueNames(dir) && dir[from].valid && NameOf(dir[from]) == name
    ensures Visit(p + [name], dir[from].inode) !in Children(dir, p, from + 1)
  {
    var c := Visit(p + [name], dir[from].inode);
    ChildrenAre(dir, p, from + 1, c);
    forall j | from + 1 <= j < SLOTS && dir[j].valid && ValidName(NameOf(dir[j]))
      ensures c != Visit(p + [NameOf(dir[j])], dir[j].inode)
    {
      var q: Path := p + [NameOf(dir[j])];
      assert Last(c.path) == name && Last(q) == NameOf(dir[j]) != name;
    }
  }

  // ----------------------------------------------------------------------- tours

  lemma TourUnfolds(d: Disk, v: Visit, fuel: nat)
    requires fuel > 0
    ensures Tour(d, v, fuel) == [v] + Tours(d, Next(d, v), fuel - 1)
  {
  }

  /** A tour is the visit itself, then what its entries lead to. */
  lemma TourOf(d: Disk, v: Visit, fuel: nat, less: nat)
    requires less == if fuel > 0 then fuel - 1 else 0
    ensures fuel > 0 ==> Tour(d, v, fuel) == [v] + Tours(d, Next(d, v), less)
  {
    if fuel > 0 {
      TourUnfolds(d, v, fuel);
    }
  }

  /** Visits that resolve, all below p. */
  ghost predicate AllBelow(d: Disk, p: Path, vs: seq<Visit>) {
    forall c :: c in vs ==> Resolves(d, c) && p <= c.path
  }

  lemma ChildrenBelow(d: Disk, bits: Bits, own: Owners, v: Visit)
    requires Sound(d, bits, own) && Resolves(d, v)
    ensures AllBelow(d, v.path, Next(d, v))
  {
    forall c | c in Next(d, v)
      ensures Resolves(d, c) && v.path <= c.path
    {
      ChildResolves(d, bits, own, v, c);
    }
  }

  /** A tour goes only to what is below its start, and to what really is there. */
  lemma {:induction false} TourResolves(d: Disk, bits: Bits, own: Owners, v: Visit, fuel: nat)
    requires Sound(d, bits, own) && Resolves(d, v)
    ensures AllBelow(d, v.path, Tour(d, v, fuel))
    decreases fuel, 0
  {
    if fuel > 0 {
      var less: nat := fuel - 1;
      TourOf(d, v, fuel, less);
      ChildrenBelow(d, bits, own, v);
      ToursResolve(d, bits, own, v.path, Next(d, v), less);
    }
  }

  lemma {:induction false} ToursResolve(d: Disk, bits: Bits, own: Owners, p: Path, vs: seq<Visit>, fuel: nat)
    requires Sound(d, bits, own) && AllBelow(d, p, vs)
    ensures AllBelow(d, p, Tours(d, vs, fuel))
    decreases fuel, |vs|
  {
    if vs != [] {
      TourResolves(d, bits, own, vs[0], fuel);
      ToursResolve(d, bits, own, p, vs[1..], fuel);
    }
  }

  /** A tour misses nothing below its start. */
  lemma {:induction false} TourComplete(d: Disk, bits: Bits, own: Owners, v: Visit, fuel: nat, w: Visit)
    requires Sound(d, bits, own) && Resolves(d, v) && Resolves(d, w) && v.path <= w.path
    requires |w.path| <= |v.path| + fuel
    ensures w in Tour(d, v, fuel)
    decreases fuel, 0
  {
    if w.path == v.path {
      assert w == v;
    } else {
      var c := Towards(d, bits, own, v, w);
      var less: nat := fuel - 1;
      TourOf(d, v, fuel, less);
      ToursComplete(d, bits, own, Next(d, v), less, c, w);
    }
  }

  lemma {:induction false} ToursComplete(d: Disk, bits: Bits, own: Owners, vs: seq<Visit>, fuel: nat, c: Visit,
          w: Visit)
    requires Sound(d, bits, own) && c in vs && Resolves(d, c) && Resolves(d, w) && c.path <= w.path
    requires |w.path| <= |c.path| + fuel
    ensures w in Tours(d, vs, fuel)
    decreases fuel, |vs|
  {
    if c == vs[0] {
      TourComplete(d, bits, own, c, fuel, w);
    } else {
      ToursComplete(d, bits, own, vs[1..], fuel, c, w);
    }
  }

  /** The child of v on the way to w. */
  lemma {:induction false} Towards(d: Disk, bits: Bits, own: Owners, v: Visit, w: Visit) returns (c: Visit)
    requires Sound(d, bits, own) && Resolves(d, v) && Resolves(d, w) && v.path < w.path
    ensures c in Next(d, v) && Resolves(d, c) && c.path <= w.path && |c.path| == |v.path| + 1
    decreases |w.path|
  {
    ResolveParent(d, bits, own, w.path);
    var u := Visit(Parent(w.path), Resolve(d, Parent(w.path)).value);
    if u.path == v.path {
      c := w;
      ResolvesIsChild(d, bits, own, v, w);
    } else {
      c := Towards(d, bits, own, v, u);
    }
  }

  // ------------------------------------------------------------------- no repeats

  /** Visits none of which lies below another. */
  ghost predicate Apart(vs: seq<Visit>) {
    forall i, j :: 0 <= i < j < |vs| ==> !(vs[i].path <= vs[j].path) && !(vs[j].path <= vs[i].path)
  }

  lemma ChildrenApart(d: Disk, bits: Bits, own: Owners, v: Visit)
    requires Sound(d, bits, own) && Resolves(d, v) && IsDir(Ino(d, v.inode))
    ensures Apart(Next(d, v))
  {
    var cs := Next(d, v);
    Depths(d, bits, own, v);
    assert DirOk(own, v.inode, Ents(d, v.inode));
    ChildrenDistinct(Ents(d, v.inode), v.path, 0);
    forall i, j | 0 <= i < j < |cs|
      ensures !(cs[i].path <= cs[j].path) && !(cs[j].path <= cs[i].path)
    {
      ChildResolves(d, bits, own, v, cs[i]);
      ChildResolves(d, bits, own, v, cs[j]);
      assert cs[i].path != cs[j].path;
    }
  }

  lemma DistinctAppend(a: seq<Visit>, b: seq<Visit>)
    requires DistinctVisits(a) && DistinctVisits(b) && forall x :: x in a ==> x !in b
    ensures DistinctVisits(a + b)
  {
    forall i, j | 0 <= i < j < |a + b|
      ensures (a + b)[i] != (a + b)[j]
    {
      if i < |a| <= j {
        assert a[i] in a && b[j - |a|] in b;
      }
    }
  }

  /** A tour visits nothing twice. */
  lemma {:induction false} TourDistinct(d: Disk, bits: Bits, own: Owners, v: Visit, fuel: nat)
    requires Sound(d, bits, own) && Resolves(d, v)
    ensures DistinctVisits(Tour(d, v, fuel))
    decreases fuel, 0
  {
    if fuel > 0 {
      var cs, less: nat := Next(d, v), fuel - 1;
      TourOf(d, v, fuel, less);
      ChildrenBelow(d, bits, own, v);
      if IsDir(Ino(d, v.inode)) {
        ChildrenApart(d, bits, own, v);
      }
      ToursDistinct(d, bits, own, v.path, cs, less);
      NotBelowItself(d, bits, own, v, cs, Tours(d, cs, less), less);
      DistinctAppend([v], Tours(d, cs, less));
    }
  }

  lemma NotBelowItself(d: Disk, bits: Bits, own: Owners, v: Visit, cs: seq<Visit>, ts: seq<Visit>, fuel: nat)
    requires Sound(d, bits, own) && Resolves(d, v) && cs == Next(d, v) && ts == Tours(d, cs, fuel)
    ensures v !in ts
  {
    forall c | c in cs
      ensures Resolves(d, c) && |c.path| == |v.path| + 1
    {
      ChildResolves(d, bits, own, v, c);
    }
    forall w | w in ts
      ensures |w.path| > |v.path|
    {
      var c := SomeStart(d, bits, own, cs, fuel, w);
    }
  }

  /** What several tours visit lies below one of their starts. */
  lemma {:induction false} SomeStart(d: Disk, bits: Bits, own: Owners, vs: seq<Visit>, fuel: nat,
          w: Visit) returns (c: Visit)
    requires Sound(d, bits, own) && (forall c :: c in vs ==> Resolves(d, c)) && w in Tours(d, vs, fuel)
    ensures c in vs && c.path <= w.path
    decreases |vs|
  {
    if w in Tour(d, vs[0], fuel) {
      c := vs[0];
      TourResolves(d, bits, own, c, fuel);
    } else {
      c := SomeStart(d, bits, own, vs[1..], fuel, w);
    }
  }

  lemma {:induction false} ToursDistinct(d: Disk, bits: Bits, own: Owners, p: Path, vs: seq<Visit>, fuel: nat)
    requires Sound(d, bits, own) && AllBelow(d, p, vs) && Apart(vs)
    ensures DistinctVisits(Tours(d, vs, fuel))
    decreases fuel, |vs|
  {
    if vs != [] {
      var first, rest := Tour(d, vs[0], fuel), Tours(d, vs[1..], fuel);
      TourDistinct(d, bits, own, vs[0], fuel);
      ToursDistinct(d, bits, own, p, vs[1..], fuel);
      TourResolves(d, bits, own, vs[0], fuel);
      forall x | x in rest
        ensures !(vs[0].path <= x.path)
      {
        var c := SomeStart(d, bits, own, vs[1..], fuel, x);
        NotComparable(vs[0].path, c.path, x.path);
      }
      DistinctAppend(first, rest);
    }
  }

  /** Of two ancestors of a path, one is an ancestor of the other. */
  lemma NotComparable(p: Path, q: Path, r: Path)
    requires !(p <= q) && !(q <= p) && q <= r
    ensures !(p <= r)
  {
  }

  // ---------------------------------------------------------------- the whole walk

  ghost function Walked(d: Disk): seq<Visit> { Tour(d, Visit([], 2), MAX_PATH_LEN) }

  /** The walk from the root visits exactly the paths that resolve, each once,
      and with them each inode once. */
  lemma WalkVisitsEverythingOnce(d: Disk, own: Owners)
    requires WellFormed(d, own)
    ensures forall v :: v in Walked(d) <==> Resolves(d, v)
    ensures DistinctVisits(Walked(d))
    ensures forall i, j :: 0 <= i < j < |Walked(d)| ==> Walked(d)[i].inode != Walked(d)[j].inode
  {
    var root, ws, bits := Visit([], 2), Walked(d), AllSet();
    WellFormedIsSound(d, own);
    TourResolves(d, bits, own, root, MAX_PATH_LEN);
    TourDistinct(d, bits, own, root, MAX_PATH_LEN);
    forall v | Resolves(d, v)
      ensures v in ws
    {
      Depths(d, bits, own, v);
      TourComplete(d, bits, own, root, MAX_PATH_LEN, v);
    }
    forall i, j | 0 <= i < j < |ws|
      ensures ws[i].inode != ws[j].inode
    {
      assert ws[i] in ws && ws[j] in ws;
      if ws[i].inode == ws[j].inode {
        OnePath(d, bits, own, ws[i].path, ws[j].path);
      }
    }
  }

  /** Without orphans, the inodes found are exactly the inodes in use. */
  lemma WalkFindsAllInodes(d: Disk, own: Owners, i: nat)
    requires WellFormed(d, own) && Attached(d, own)
    ensures HasInode(own, i) <==> exists v :: v in Walked(d) && v.inode == i
  {
    WalkVisitsEverythingOnce(d, own);
    WellFormedIsSound(d, own);
    if HasInode(own, i) {
      var p := Reached(d, AllSet(), own, i);
      assert Visit(p, i) in Walked(d);
    }
    forall v | v in Walked(d)
      ensures HasInode(own, v.inode)
    {
      Depths(d, AllSet(), own, v);
    }
  }

  // ---------------------------------------------------------------- what is reported

  /** The listed blocks whose bit is clear, in order. */
  function Unmarked(bits: Bits, blocks: seq<nat>): seq<nat> {
    if blocks == [] then []
    else
      var b := blocks[|blocks| - 1];
      Unmarked(bits, blocks[..|blocks| - 1]) + if b < NBITS && bits[b] then [] else [b]
  }

  lemma {:induction false} UnmarkedAre(bits: Bits, blocks: seq<nat>, b: nat)
    ensures b in Unmarked(bits, blocks) <==> b in blocks && !(b < NBITS && bits[b])
    decreases |blocks|
  {
    if blocks != [] {
      UnmarkedAre(bits, blocks[..|blocks| - 1], b);
    }
  }

  /** The blocks of an inode, as the walk looks at them. */
  ghost function PartsOf(d: Disk, i: nat): seq<nat> {
    var ino := Ino(d, i);
    [i] + if IsReg(ino) then ino.ptrs[..Extent(ino)] else if IsDir(ino) then [ino.ptrs[0]] else []
  }

  lemma PartsAre(d: Disk, i: nat, b: nat)
    ensures b in PartsOf(d, i) <==> PartOf(d, i, b)
  {
  }

  /** What the walk reports over some visits. */
  ghost function Reports(d: Disk, bits: Bits, vs: seq<Visit>): seq<nat> {
    if vs == [] then [] else Unmarked(bits, PartsOf(d, vs[0].inode)) + Reports(d, bits, vs[1..])
  }

  lemma {:induction false} ReportsAppend(d: Disk, bits: Bits, a: seq<Visit>, b: seq<Visit>)
    ensures Reports(d, bits, a + b) == Reports(d, bits, a) + Reports(d, bits, b)
    decreases |a|
  {
    if a == [] {
      assert a + b == b;
    } else {
      var ab := a + b;
      assert ab[0] == a[0] && ab[1..] == a[1..] + b;
      ReportsAppend(d, bits, a[1..], b);
      Regroup(Unmarked(bits, PartsOf(d, a[0].inode)), Reports(d, bits, a[1..]), Reports(d, bits, b));
    }
  }

  ghost predicate VisitHas(d: Disk, v: Visit, b: nat) { PartOf(d, v.inode, b) }

  /** The first of several visits has the block, or a later one. */
  lemma SomeVisit(d: Disk, vs: seq<Visit>, b: nat)
    requires vs != []
    ensures (exists v :: v in vs && VisitHas(d, v, b)) <==>
            VisitHas(d, vs[0], b) || exists v :: v in vs[1..] && VisitHas(d, v, b)
  {
    if v :| v in vs && VisitHas(d, v, b) {
      assert v == vs[0] || v in vs[1..];
    }
    if v :| v in vs[1..] && VisitHas(d, v, b) {
      assert v in vs;
    }
  }

  lemma {:induction false} ReportsAre(d: Disk, bits: Bits, vs: seq<Visit>, b: nat)
    ensures b in Reports(d, bits, vs) <==> !(b < NBITS && bits[b]) && exists v :: v in vs && VisitHas(d, v, b)
    decreases |vs|
  {
    if vs != [] {
      UnmarkedAre(bits, PartsOf(d, vs[0].inode), b);
      PartsAre(d, vs[0].inode, b);
      ReportsAre(d, bits, vs[1..], b);
      SomeVisit(d, vs, b);
    }
  }

  /** Whatever the bitmap says, the walk reports exactly the reachable blocks it
      does not mark. */
  lemma WalkReportsExactly(d: Disk, bits: Bits, own: Owners, b: nat)
    requires WellFormed(d, own)
    ensures b in Reports(d, bits, Walked(d)) <==> Reachable(d, b) && !(b < NBITS && bits[b])
  {
    WalkVisitsEverythingOnce(d, own);
    ReportsAre(d, bits, Walked(d), b);
    if Reachable(d, b) {
      var p :| Resolve(d, p).Ok? && PartOf(d, Resolve(d, p).value, b);
      var v := Visit(p, Resolve(d, p).value);
      assert v in Walked(d) && VisitHas(d, v, b);
    }
    forall v | v in Walked(d) && VisitHas(d, v, b)
      ensures Reachable(d, b)
    {
      assert Resolve(d, v.path).Ok?;
    }
  }

  /** The walk is silent exactly when nothing in use is unmarked. */
  lemma WalkIsSilentWhen(d: Disk, bits: Bits, own: Owners)
    requires WellFormed(d, own)
    ensures Reports(d, bits, Walked(d)) == [] <==> NothingDangles(d, bits)
  {
    var rs := Reports(d, bits, Walked(d));
    forall b: nat
      ensures b in rs <==> Reachable(d, b) && !(b < NBITS && bits[b])
    {
      WalkReportsExactly(d, bits, own, b);
    }
    if rs != [] {
      assert rs[0] in rs;
    }
  }

  lemma {:induction false} UnmarkedDistinct(bits: Bits, blocks: seq<nat>)
    requires Distinct(blocks)
    ensures Distinct(Unmarked(bits, blocks))
    decreases |blocks|
  {
    if blocks != [] {
      var less := blocks[..|blocks| - 1];
      UnmarkedDistinct(bits, less);
      UnmarkedAre(bits, less, blocks[|blocks| - 1]);
    }
  }

  /** Distinct lists without a common block, one after the other. */
  lemma DistinctLists(a: seq<nat>, b: seq<nat>)
    requires Distinct(a) && Distinct(b) && forall x :: x in a ==> x !in b
    ensures Distinct(a + b)
  {
    forall i, j | 0 <= i < j < |a + b|
      ensures (a + b)[i] != (a + b)[j]
    {
      if i < |a| <= j {
        assert a[i] in a && b[j - |a|] in b;
      }
    }
  }

  lemma PointersApart(d: Disk, bits: Bits, own: Owners, i: nat, data: seq<nat>)
    requires Sound(d, bits, own) && HasInode(own, i) && IsReg(Ino(d, i)) && data == Ino(d, i).ptrs[..Extent(Ino(d, i))]
    ensures Distinct(data) && i !in data
  {
    var ino := Ino(d, i);
    assert InodeOk(d, own, i);
    forall k | 0 <= k < |data|
      ensures Holds(own, data[k], FileData(i, k))
    {
      assert Holds(own, ino.ptrs[k], FileData(i, k));
    }
  }

  lemma PartsDistinct(d: Disk, bits: Bits, own: Owners, i: nat)
    requires Sound(d, bits, own) && HasInode(own, i)
    ensures Distinct(PartsOf(d, i)) && forall b :: b in PartsOf(d, i) ==> b in own && HomeOf(own, b) == i
  {
    var ino := Ino(d, i);
    assert InodeOk(d, own, i);
    forall b | b in PartsOf(d, i)
      ensures b in own && HomeOf(own, b) == i
    {
      PartsAre(d, i, b);
      PartIsOwned(d, bits, own, i, b);
    }
    if IsReg(ino) {
      PointersApart(d, bits, own, i, ino.ptrs[..Extent(ino)]);
      DistinctLists([i], ino.ptrs[..Extent(ino)]);
    } else {
      assert Holds(own, ino.ptrs[0], DirData(i));
    }
  }

  /** Visits of different inodes report different blocks. */
  lemma {:induction false} ReportsDistinct(d: Disk, bits: Bits, own: Owners, vs: seq<Visit>)
    requires WellFormed(d, own) && (forall v :: v in vs ==> HasInode(own, v.inode))
    requires forall i, j :: 0 <= i < j < |vs| ==> vs[i].inode != vs[j].inode
    ensures Distinct(Reports(d, bits, vs))
    decreases |vs|
  {
    if vs != [] {
      var first, rest := Unmarked(bits, PartsOf(d, vs[0].inode)), Reports(d, bits, vs[1..]);
      WellFormedIsSound(d, own);
      PartsDistinct(d, AllSet(), own, vs[0].inode);
      UnmarkedDistinct(bits, PartsOf(d, vs[0].inode));
      ReportsDistinct(d, bits, own, vs[1..]);
      forall b | b in first
        ensures b !in rest
      {
        UnmarkedAre(bits, PartsOf(d, vs[0].inode), b);
        OnlyReport(d, bits, own, vs, b);
      }
      DistinctLists(first, rest);
    }
  }

  lemma OnlyReport(d: Disk, bits: Bits, own: Owners, vs: seq<Visit>, b: nat)
    requires WellFormed(d, own) && vs != [] && (forall v :: v in vs ==> HasInode(own, v.inode))
    requires forall i, j :: 0 <= i < j < |vs| ==> vs[i].inode != vs[j].inode
    requires b in own && HomeOf(own, b) == vs[0].inode
    ensures b !in Reports(d, bits, vs[1..])
  {
    WellFormedIsSound(d, own);
    ReportsAre(d, bits, vs[1..], b);
    forall v | v in vs[1..] && VisitHas(d, v, b)
      ensures false
    {
      var k :| 0 <= k < |vs[1..]| && vs[1..][k] == v;
      assert v.inode != vs[0].inode;
      PartIsOwned(d, AllSet(), own, v.inode, b);
    }
  }

  /** No block is reported twice. */
  lemma WalkReportsOnce(d: Disk, bits: Bits, own: Owners)
    requires WellFormed(d, own)
    ensures Distinct(Reports(d, bits, Walked(d)))
  {
    WalkVisitsEverythingOnce(d, own);
    WellFormedIsSound(d, own);
    forall v | v in Walked(d)
      ensures HasInode(own, v.inode)
    {
      Depths(d, AllSet(), own, v);
    }
    ReportsDistinct(d, bits, own, Walked(d));
  }

  // --------------------------------------------------------------- names as printed

  /** A path as the walk spells it, and the inode it goes with. */
  datatype Line = Line(name: seq<byte>, inode: nat)

  function Printed(v: Visit): Line { Line(PathString(v.path), v.inode) }

  function Lines(vs: seq<Visit>): seq<Line> {
    seq(|vs|, k requires 0 <= k < |vs| => Printed(vs[k]))
  }

  lemma LinesAppend(a: seq<Visit>, b: seq<Visit>)
    ensures Lines(a + b) == Lines(a) + Lines(b)
  {
  }

  lemma {:induction false} PathStringSnoc(p: Path, name: Name)
    ensures PathString(p + [name]) == PathString(p) + [SLASH] + name
    decreases |p|
  {
    if p == [] {
      assert PathString([name]) == [SLASH] + name + PathString([name][1..]);
    } else {
      assert (p + [name])[1..] == p[1..] + [name];
      PathStringSnoc(p[1..], name);
    }
  }

  /** The children of any directory block: its valid entries, in slot order. */
  function Listed(des: Directory, name: seq<byte>, j: nat): seq<Line>
    requires j <= SLOTS
    decreases |des| - j
  {
    if j == SLOTS then []
    else (if des[j].valid then [Line(name + [SLASH] + NameOf(des[j]), des[j].inode)] else []) + Listed(des, name, j + 1)
  }

  ghost predicate NamesValid(dir: Directory) {
    forall j :: 0 <= j < SLOTS && dir[j].valid ==> ValidName(NameOf(dir[j]))
  }

  /** Where all names are valid, they are the children. */
  lemma {:induction false} ListedIs(dir: Directory, p: Path, j: nat)
    requires j <= SLOTS && NamesValid(dir)
    ensures Listed(dir, PathString(p), j) == Lines(Children(dir, p, j))
    decreases SLOTS - j
  {
    if j < SLOTS {
      ListedIs(dir, p, j + 1);
      if dir[j].valid {
        PathStringSnoc(p, NameOf(dir[j]));
        LinesAppend([Visit(p + [NameOf(dir[j])], dir[j].inode)], Children(dir, p, j + 1));
      }
    }
  }

  // --------------------------------------------------------------------- the code

  function InodesOf(vs: seq<Visit>): set<nat> { set v | v in vs :: v.inode }

  lemma InodesOfAppend(a: seq<Visit>, b: seq<Visit>)
    ensures InodesOf(a + b) == InodesOf(a) + InodesOf(b)
  {
    forall i | i in InodesOf(a) + InodesOf(b)
      ensures i in InodesOf(a + b)
    {
      var v :| (v in a || v in b) && v.inode == i;
      assert v in a + b;
    }
  }

  /** At the greatest depth directories are empty. */
  lemma NoChildrenAtBottom(d: Disk, bits: Bits, own: Owners, v: Visit)
    requires Sound(d, bits, own) && Resolves(d, v) && IsDir(Ino(d, v.inode)) && |v.path| == MAX_PATH_LEN
    ensures Children(Ents(d, v.inode), v.path, 0) == []
  {
    var cs := Children(Ents(d, v.inode), v.path, 0);
    if cs != [] {
      ChildResolves(d, bits, own, v, cs[0]);
      Depths(d, bits, own, cs[0]);
      assert false;
    }
  }

  /** What the walk reads of an inode on a well-formed image. */
  lemma InodeRead(d: Disk, own: Owners, v: Visit)
    requires WellFormed(d, own) && Resolves(d, v)
    ensures v.inode < |d| && |v.path| <= MAX_PATH_LEN
    ensures var ino := Ino(d, v.inode);
      && (IsReg(ino) ==> 0 <= ino.size <= MAX_FILE && forall k :: 0 <= k < Extent(ino) ==> ino.ptrs[k] < |d|)
      && (IsDir(ino) ==> ino.size == BLOCK_SIZE && ino.ptrs[0] < |d| && NamesValid(Ents(d, v.inode)))
  {
    WellFormedIsSound(d, own);
    Depths(d, AllSet(), own, v);
    var ino := Ino(d, v.inode);
    assert InodeOk(d, own, v.inode) && PlaceOk(d, own, v.inode);
    if IsDir(ino) {
      assert PlaceOk(d, own, ino.ptrs[0]) && DirOk(own, v.inode, Ents(d, v.inode));
      forall j | 0 <= j < SLOTS && Ents(d, v.inode)[j].valid
        ensures ValidName(NameOf(Ents(d, v.inode)[j]))
      {
        assert EntryOk(own, v.inode, Ents(d, v.inode)[j], j);
      }
    } else {
      forall k | 0 <= k < Extent(ino)
        ensures ino.ptrs[k] < |d|
      {
        assert Holds(own, ino.ptrs[k], FileData(v.inode, k)) && PlaceOk(d, own, ino.ptrs[k]);
      }
    }
  }

  lemma NextBelow(d: Disk, bits: Bits, own: Owners, v: Visit)
    requires Sound(d, bits, own) && Resolves(d, v)
    ensures forall c :: c in Next(d, v) ==> Resolves(d, c) && |c.path| == |v.path| + 1 <= MAX_PATH_LEN
  {
    if IsDir(Ino(d, v.inode)) {
      forall c | c in Next(d, v)
        ensures Resolves(d, c) && |c.path| == |v.path| + 1 <= MAX_PATH_LEN
      {
        ChildResolves(d, bits, own, v, c);
        Depths(d, bits, own, c);
      }
    }
  }

  lemma TourIsNext(d: Disk, bits: Bits, own: Owners, v: Visit, fuel: nat)
    requires Sound(d, bits, own) && Resolves(d, v) && |v.path| + fuel == MAX_PATH_LEN
    ensures fuel > 0 ==> Tour(d, v, fuel) == [v] + Tours(d, Next(d, v), fuel - 1)
    ensures fuel == 0 ==> Tour(d, v, fuel) == [v] && Next(d, v) == []
  {
    if fuel > 0 {
      TourUnfolds(d, v, fuel);
    } else if IsDir(Ino(d, v.inode)) {
      NoChildrenAtBottom(d, bits, own, v);
    }
  }

  /** What the walk prints over some visits, if it is told to. */
  ghost function Shown(show: bool, vs: seq<Visit>): seq<Line> { if show then Lines(vs) else [] }

  /** ... and what it reports. */
  ghost function Noted(show: bool, d: Disk, bits: Bits, vs: seq<Visit>): seq<nat> {
    if show then Reports(d, bits, vs) else []
  }

  /** Output over visits a, then visits b. */
  lemma OutputAppend(show: bool, d: Disk, bits: Bits, a: seq<Visit>, b: seq<Visit>)
    ensures Shown(show, a + b) == Shown(show, a) + Shown(show, b)
    ensures Noted(show, d, bits, a + b) == Noted(show, d, bits, a) + Noted(show, d, bits, b)
    ensures InodesOf(a + b) == InodesOf(a) + InodesOf(b)
  {
    LinesAppend(a, b);
    ReportsAppend(d, bits, a, b);
    InodesOfAppend(a, b);
  }

  /** A visit and the tours of its children. */
  lemma TourDone(d: Disk, own: Owners, v: Visit, fuel: nat, less: nat)
    requires WellFormed(d, own) && Resolves(d, v) && |v.path| + fuel == MAX_PATH_LEN
    requires less == if fuel > 0 then fuel - 1 else 0
    ensures forall c :: c in Next(d, v) ==> Resolves(d, c) && |c.path| + less == MAX_PATH_LEN && fuel == less + 1
    ensures Tour(d, v, fuel) == [v] + Tours(d, Next(d, v), less)
  {
    WellFormedIsSound(d, own);
    NextBelow(d, AllSet(), own, v);
    TourIsNext(d, AllSet(), own, v, fuel);
  }

  /** The first of several tours, and the others. */
  lemma ToursStep(d: Disk, vs: seq<Visit>, k: nat, next: nat, fuel: nat)
    requires k < |vs| && next == k + 1
    ensures Tours(d, vs[k..], fuel) == Tour(d, vs[k], fuel) + Tours(d, vs[next..], fuel)
  {
    assert vs[k..][1..] == vs[next..];
  }

  lemma ListedStep(des: Directory, name: seq<byte>, acc: seq<Line>, more: seq<Line>, j: nat, next: nat)
    requires j < SLOTS && next == j + 1
    requires more == if des[j].valid then [Line(name + [SLASH] + NameOf(des[j]), des[j].inode)] else []
    ensures acc + Listed(des, name, j) == (acc + more) + Listed(des, name, next)
  {
    assert Listed(des, name, j) == more + Listed(des, name, next);
    assert acc + (more + Listed(des, name, next)) == (acc + more) + Listed(des, name, next);
  }

  /** Collects the valid entries of a directory block. */
  method Entries(des: Directory, name: seq<byte>) returns (children: seq<Line>)
    ensures children == Listed(des, name, 0)
  {
    children := [];
    var j: nat := 0;
    while j < SLOTS
      invariant 0 <= j <= SLOTS
      invariant Listed(des, name, 0) == children + Listed(des, name, j)
    {
      var next: nat, more: seq<Line> := j + 1, [];
      if des[j].valid {
        more := [Line(name + [SLASH] + NameOf(des[j]), des[j].inode)];
      }
      ListedStep(des, name, children, more, j, next);
      children, j := children + more, next;
    }
  }

  /** The part of a report that has been made once some blocks were looked at. */
  ghost function Seen(show: bool, bits: Bits, blocks: seq<nat>): seq<nat> {
    if show then Unmarked(bits, blocks) else []
  }

  /** One block more: `before` is what had been reported on arrival at the inode. */
  lemma SeenNext(show: bool, bits: Bits, before: seq<nat>, now: seq<nat>, blocks: seq<nat>, b: nat)
    requires now == before + Seen(show, bits, blocks) && b < NBITS
    ensures now + (if show && !bits[b] then [b] else []) == before + Seen(show, bits, blocks + [b])
  {
    assert (blocks + [b])[..|blocks|] == blocks;
  }

  lemma OneVisit(show: bool, d: Disk, bits: Bits, v: Visit)
    ensures Noted(show, d, bits, [v]) == Seen(show, bits, PartsOf(d, v.inode))
  {
    assert Reports(d, bits, [v]) == Unmarked(bits, PartsOf(d, v.inode)) + Reports(d, bits, []);
  }

  /** What there is to see of a visit, by the kind of its inode. */
  lemma VisitOf(d: Disk, own: Owners, v: Visit, show: bool, bits: Bits)
    requires WellFormed(d, own) && Resolves(d, v)
    ensures v.inode < |d|
    ensures var ino := InodeOf(d[v.inode]);
      && (IsReg(ino) ==>
            && 0 <= ino.size <= MAX_FILE && (forall k :: 0 <= k < Extent(ino) ==> ino.ptrs[k] < |d|)
            && Noted(show, d, bits, [v]) == Seen(show, bits, [v.inode] + ino.ptrs[..Extent(ino)]) && Next(d, v) == [])
      && (IsDir(ino) ==>
            && ino.size == BLOCK_SIZE && ino.ptrs[0] < |d|
            && Noted(show, d, bits, [v]) == Seen(show, bits, [v.inode, ino.ptrs[0]])
            && Lines(Next(d, v)) == Listed(DirOf(d[ino.ptrs[0]]), PathString(v.path), 0))
      && (!IsReg(ino) && !IsDir(ino) ==> Noted(show, d, bits, [v]) == Seen(show, bits, [v.inode]) && Next(d, v) == [])
  {
    InodeRead(d, own, v);
    OneVisit(show, d, bits, v);
    var ino := InodeOf(d[v.inode]);
    assert Ino(d, v.inode) == ino;
    if IsDir(ino) {
      assert Ents(d, v.inode) == DirOf(d[ino.ptrs[0]]);
      ListedIs(Ents(d, v.inode), v.path, 0);
      assert PartsOf(d, v.inode) == [v.inode, ino.ptrs[0]];
    }
  }

  /** What the walker has put out. */
  datatype Output = Output(inodes: set<nat>, printed: seq<Line>, unmarked: seq<nat>)

  /** That output after some more visits. */
  ghost function Visited(o: Output, show: bool, d: Disk, bits: Bits, vs: seq<Visit>): Output {
    Output(o.inodes + InodesOf(vs), o.printed + Shown(show, vs), o.unmarked + Noted(show, d, bits, vs))
  }

  lemma VisitedAppend(o: Output, show: bool, d: Disk, bits: Bits, a: seq<Visit>, b: seq<Visit>)
    ensures Visited(o, show, d, bits, a + b) == Visited(Visited(o, show, d, bits, a), show, d, bits, b)
  {
    OutputAppend(show, d, bits, a, b);
    Regroup(o.printed, Shown(show, a), Shown(show, b));
    Regroup(o.unmarked, Noted(show, d, bits, a), Noted(show, d, bits, b));
    assert o.inodes + (InodesOf(a) + InodesOf(b)) == (o.inodes + InodesOf(a)) + InodesOf(b);
  }

  lemma Regroup<T>(a: seq<T>, b: seq<T>, c: seq<T>)
    ensures a + (b + c) == (a + b) + c
  {
  }

  lemma VisitedOne(o: Output, show: bool, d: Disk, bits: Bits, v: Visit)
    ensures Visited(o, show, d, bits, [v]) ==
            Output(o.inodes + {v.inode}, o.printed + (if show then [Printed(v)] else []),
                   o.unmarked + Noted(show, d, bits, [v]))
  {
    assert Lines([v]) == [Printed(v)] && InodesOf([v]) == {v.inode};
  }

  lemma VisitedNone(o: Output, show: bool, d: Disk, bits: Bits)
    ensures Visited(o, show, d, bits, []) == o
  {
  }

  lemma WalkedTwice(d: Disk, bits: Bits)
    ensures Visited(Visited(Output({}, [], []), false, d, bits, Walked(d)), true, d, bits, Walked(d))
            == Output(InodesOf(Walked(d)), Lines(Walked(d)), Reports(d, bits, Walked(d)))
  {
    var ws := Walked(d);
    assert {} + InodesOf(ws) + InodesOf(ws) == InodesOf(ws);
    assert [] + [] + Lines(ws) == Lines(ws);
    assert [] + [] + Reports(d, bits, ws) == Reports(d, bits, ws);
  }

  class Walker {
    const blks: Disk
    const blkmap: BitmapWords.WordBitmap
    var inodes: set<nat>
    var printed: seq<Line>
    var unmarked: seq<nat>

    ghost function Bits(): Bits
      reads blkmap.vals
      requires Valid()
    {
      BitmapWords.WordBits(blkmap.vals[..])
    }

    ghost predicate Valid() { blkmap.Valid() }

    constructor (disk: Disk)
      requires 1 < |disk|
      ensures Valid() && fresh(blkmap) && fresh(blkmap.vals)
      ensures blks == disk && Bits() == DiskBits(disk[1]) && inodes == {} && printed == [] && unmarked == []
    {
      BitmapWords.SameDiskBits(disk[1]);
      blks := disk;
      inodes, printed, unmarked := {}, [], [];
      blkmap := new BitmapWords.WordBitmap(disk[1]);
    }

    /** Looks up a block, and reports it if it is not marked. */
    method Check(b: nat, show: bool)
      requires Valid() && b < NBITS
      modifies this`unmarked
      ensures unmarked == old(unmarked) + if show && !Bits()[b] then [b] else []
    {
      var marked := blkmap.Get(b);
      if show && !marked {
        unmarked := unmarked + [b];
      }
    }

    /** One more block of an inode. */
    method CheckNext(b: nat, show: bool, ghost before: seq<nat>, ghost blocks: seq<nat>)
      requires Valid() && b < NBITS && unmarked == before + Seen(show, Bits(), blocks)
      modifies this`unmarked
      ensures unmarked == before + Seen(show, Bits(), blocks + [b])
    {
      SeenNext(show, Bits(), before, unmarked, blocks, b);
      Check(b, show);
    }

    /** Looks at the blocks of a file. */
    method InspectFile(inum: nat, ino: Inode, xblks: nat, show: bool, ghost before: seq<nat>)
      requires Valid() && xblks <= NPTRS && forall k :: 0 <= k < xblks ==> ino.ptrs[k] < NBITS
      requires unmarked == before + Seen(show, Bits(), [inum])
      modifies this`unmarked
      ensures unmarked == before + Seen(show, Bits(), [inum] + ino.ptrs[..xblks])
    {
      var i := 0;
      assert [inum] + ino.ptrs[..0] == [inum];
      while i < xblks
        invariant 0 <= i <= xblks
        invariant unmarked == before + Seen(show, Bits(), [inum] + ino.ptrs[..i])
      {
        ghost var blocks: seq<nat> := [inum] + ino.ptrs[..i];
        CheckNext(ino.ptrs[i], show, before, blocks);
        assert blocks + [ino.ptrs[i]] == [inum] + ino.ptrs[..i + 1];
        i := i + 1;
      }
    }

    /** Looks at the one block of a directory, and collects its entries. */
    method InspectDir(name: seq<byte>, inum: nat, ino: Inode, xblks: nat, show: bool, ghost before: seq<nat>)
      returns (children: seq<Line>)
      requires Valid() && xblks == 1 && ino.ptrs[0] < |blks| && unmarked == before + Seen(show, Bits(), [inum])
      modifies this`unmarked
      ensures unmarked == before + Seen(show, Bits(), [inum, ino.ptrs[0]])
      ensures children == Listed(DirOf(blks[ino.ptrs[0]]), name, 0)
    {
      children := [];
      var i := 0;
      while i < xblks
        invariant 0 <= i <= 1
        invariant i == 0 ==> unmarked == before + Seen(show, Bits(), [inum]) && children == []
        invariant i == 1 ==> unmarked == before + Seen(show, Bits(), [inum, ino.ptrs[0]])
        invariant i == 1 ==> children == Listed(DirOf(blks[ino.ptrs[0]]), name, 0)
      {
        CheckNext(ino.ptrs[i], show, before, [inum]);
        assert [inum] + [ino.ptrs[0]] == [inum, ino.ptrs[0]];
        DirOfIs(blks[ino.ptrs[i]]);
        var more := Entries(DecodeDir(blks[ino.ptrs[i]]), name);
        children := children + more;
        i := i + 1;
      }
    }

    /** Looks at one inode and its blocks. */
    method Inspect(name: seq<byte>, inum: nat, show: bool, ghost v: Visit, ghost own: Owners)
        returns (children: seq<Line>)
      requires Valid() && WellFormed(blks, own) && Resolves(blks, v) && Printed(v) == Line(name, inum)
      modifies this`unmarked
      ensures unmarked == old(unmarked) + Noted(show, blks, Bits(), [v]) && children == Lines(Next(blks, v))
    {
      ghost var before := unmarked;
      VisitOf(blks, own, v, show, Bits());
      InodeOfIs(blks[inum]);
      var ino := DecodeInode(blks[inum]);
      CheckNext(inum, show, before, []);
      assert [] + [inum] == [inum];
      var xblks := (ino.size + 4095) / 4096;
      children := [];
      if IsReg(ino) {
        InspectFile(inum, ino, xblks, show, before);
      } else if IsDir(ino) {
        children := InspectDir(name, inum, ino, xblks, show, before);
      }
    }

    ghost function Out(): Output
      reads this
    {
      Output(inodes, printed, unmarked)
    }

    /** The walk from one inode on: it ends, visits exactly the tour of the tree
        below, and if told to prints it and reports what is unmarked. */
    method Iter(name: seq<byte>, inum: nat, show: bool, ghost v: Visit, ghost own: Owners, ghost fuel: nat)
      requires Valid() && WellFormed(blks, own) && Resolves(blks, v) && Printed(v) == Line(name, inum)
      requires |v.path| + fuel == MAX_PATH_LEN
      modifies this`inodes, this`printed, this`unmarked
      ensures Out() == Visited(old(Out()), show, blks, Bits(), Tour(blks, v, fuel))
      decreases fuel, 1
    {
      ghost var start, less: nat, cs := Out(), if fuel > 0 then fuel - 1 else 0, Next(blks, v);
      inodes := inodes + {inum};
      if show {
        printed := printed + [Line(name, inum)];
      }
      var children := Inspect(name, inum, show, v, own);
      VisitedOne(start, show, blks, Bits(), v);
      TourDone(blks, own, v, fuel, less);
      VisitedAppend(start, show, blks, Bits(), [v], Tours(blks, cs, less));
      Descend(children, show, cs, own, fuel, less);
    }

    /** The recursive calls at the end of iter. */
    method Descend(children: seq<Line>, show: bool, ghost vs: seq<Visit>, ghost own: Owners, ghost fuel: nat,
        ghost less: nat)
      requires Valid() && WellFormed(blks, own) && children == Lines(vs)
      requires forall c :: c in vs ==> Resolves(blks, c) && |c.path| + less == MAX_PATH_LEN && fuel == less + 1
      modifies this`inodes, this`printed, this`unmarked
      ensures Out() == Visited(old(Out()), show, blks, Bits(), Tours(blks, vs, less))
      decreases fuel, 0
    {
      ghost var end := Visited(Out(), show, blks, Bits(), Tours(blks, vs, less));
      var k: nat := 0;
      assert vs[k..] == vs;
      while k < |children|
        invariant 0 <= k <= |children|
        invariant Visited(Out(), show, blks, Bits(), Tours(blks, vs[k..], less)) == end
      {
        var next: nat := k + 1;
        ToursStep(blks, vs, k, next, less);
        VisitedAppend(Out(), show, blks, Bits(), Tour(blks, vs[k], less), Tours(blks, vs[next..], less));
        assert vs[k] in vs && children[k] == Printed(vs[k]);
        Iter(children[k].name, children[k].inode, show, vs[k], own, less);
        k := next;
      }
      VisitedNone(Out(), show, blks, Bits());
    }

    /** The whole script: a silent walk that collects the inodes, and one that
        prints. It ends on every well-formed image; each inode is found and each
        path printed once, and the report is exactly what the bitmap fails to mark. */
    method WalkAll(ghost own: Owners)
      requires Valid() && WellFormed(blks, own) && Out() == Output({}, [], [])
      modifies this`inodes, this`printed, this`unmarked
      ensures inodes == InodesOf(Walked(blks)) && printed == Lines(Walked(blks))
      ensures unmarked == Reports(blks, Bits(), Walked(blks)) && Distinct(unmarked)
      ensures forall b: nat :: b in unmarked <==> Reachable(blks, b) && !(b < NBITS && Bits()[b])
    {
      ghost var root := Visit([], 2);
      Iter([], 2, false, root, own, MAX_PATH_LEN);
      Iter([], 2, true, root, own, MAX_PATH_LEN);
      WalkedTwice(blks, Bits());
      WalkReportsOnce(blks, Bits(), own);
      forall b: nat
        ensures b in Reports(blks, Bits(), Walked(blks)) <==> Reachable(blks, b) && !(b < NBITS && Bits()[b])
      {
        WalkReportsExactly(blks, Bits(), own, b);
      }
    }
  }
}
