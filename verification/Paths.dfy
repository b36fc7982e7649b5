/** Splitting a path string into components, in place, as strtok does. */
module Paths {
  import opened Layout
  import opened Image

  // -------------------------------------------------------------- specification

  /** The first position at or after i that is not a slash. */
  function SlashEnd(s: seq<byte>, i: nat): (e: nat)
    requires i <= |s|
    ensures i <= e <= |s| && (e < |s| ==> s[e] != SLASH)
    decreases |s| - i
  {
    if i == |s| || s[i] != SLASH then i else SlashEnd(s, i + 1)
  }

  /** The first position at or after i that is a slash. */
  function WordEnd(s: seq<byte>, i: nat): (e: nat)
    requires i <= |s|
    ensures i <= e <= |s| && (e < |s| ==> s[e] == SLASH)
    decreases |s| - i
  {
    if i == |s| || s[i] == SLASH then i else WordEnd(s, i + 1)
  }

  /** A component, shortened to what a directory entry can hold. */
  function Shortened(w: seq<byte>): seq<byte> {
    if |w| > NAME_MAX then w[..NAME_MAX] else w
  }

  /** The first n components of a path string, from position i on. */
  function Components(s: seq<byte>, i: nat, n: nat): seq<seq<byte>>
    requires i <= |s|
    decreases |s| - i
  {
    var start := SlashEnd(s, i);
    if n == 0 || start == |s| then []
    else [Shortened(s[start..WordEnd(s, start)])] + Components(s, WordEnd(s, start), n - 1)
  }

  // ----------------------------------------------------------------- properties

  lemma {:induction false} NoSlashInWord(s: seq<byte>, i: nat)
    requires i <= |s|
    ensures forall k :: i <= k < WordEnd(s, i) ==> s[k] != SLASH
    decreases |s| - i
  {
    if i < |s| && s[i] != SLASH {
      NoSlashInWord(s, i + 1);
    }
  }

  lemma WordIsName(s: seq<byte>, start: nat)
    requires start < |s| && 0 !in s && s[start] != SLASH
    ensures ValidName(Shortened(s[start..WordEnd(s, start)]))
  {
    var w := s[start..WordEnd(s, start)];
    NoSlashInWord(s, start);
    assert forall k :: 0 <= k < |w| ==> w[k] == s[start + k];
  }

  /** Every component is a valid name, and there are at most n. */
  lemma {:induction false} ComponentsAreNames(s: seq<byte>, i: nat, n: nat)
    requires i <= |s| && 0 !in s
    ensures |Components(s, i, n)| <= n
    ensures forall k :: 0 <= k < |Components(s, i, n)| ==> ValidName(Components(s, i, n)[k])
    decreases |s| - i
  {
    var start := SlashEnd(s, i);
    if n != 0 && start != |s| {
      WordIsName(s, start);
      ComponentsAreNames(s, WordEnd(s, start), n - 1);
    }
  }

  /** Asking for fewer components only drops the last ones. */
  lemma {:induction false} FewerComponents(s: seq<byte>, i: nat, m: nat, n: nat)
    requires i <= |s| && m <= n
    ensures Components(s, i, m) <= Components(s, i, n)
    decreases |s| - i
  {
    var start := SlashEnd(s, i);
    if m != 0 && start != |s| {
      FewerComponents(s, WordEnd(s, start), m - 1, n - 1);
    }
  }

  /** The path string "/a/b/c" of a list of names. */
  function PathString(p: Path): seq<byte> {
    if p == [] then [] else [SLASH] + p[0] + PathString(p[1..])
  }

  lemma {:induction false} WordEndIs(s: seq<byte>, i: nat, e: nat)
    requires i <= e <= |s| && (e < |s| ==> s[e] == SLASH) && forall k :: i <= k < e ==> s[k] != SLASH
    ensures WordEnd(s, i) == e
    decreases e - i
  {
    if i < e {
      WordEndIs(s, i + 1, e);
    }
  }

  lemma FirstName(s: seq<byte>, i: nat, e: nat, w: seq<byte>, rest: seq<byte>)
    requires i <= |s| && s[i..] == [SLASH] + w + rest && e == i + 1 + |w|
    requires rest == [] || rest[0] == SLASH
    ensures e <= |s| && s[i] == SLASH && s[i + 1..e] == w && s[e..] == rest
    ensures e < |s| ==> s[e] == SLASH
  {
    assert s[i] == s[i..][0];
    assert s[i + 1..e] == s[i..][1..1 + |w|];
    assert s[e..] == s[i..][1 + |w|..];
    if e < |s| {
      assert s[e] == s[e..][0];
    }
  }

  lemma FirstComponent(s: seq<byte>, i: nat, e: nat, w: Name, n: nat)
    requires i < e <= |s| && s[i] == SLASH && s[i + 1..e] == w && (e < |s| ==> s[e] == SLASH) && n > 0
    ensures Components(s, i, n) == [w] + Components(s, e, n - 1)
  {
    assert forall k :: i + 1 <= k < e ==> s[k] == w[k - (i + 1)];
    assert SlashEnd(s, i) == SlashEnd(s, i + 1) == i + 1;
    WordEndIs(s, i + 1, e);
  }

  /** Splitting a path string from where a path's own string begins gives the path. */
  lemma {:induction false} SplitFrom(s: seq<byte>, i: nat, p: Path, n: nat)
    requires i <= |s| && s[i..] == PathString(p) && |p| <= n
    ensures Components(s, i, n) == p
    decreases |p|
  {
    if p == [] {
      assert |s[i..]| == 0;
    } else {
      var w, e := p[0], i + 1 + |p[0]|;
      FirstName(s, i, e, w, PathString(p[1..]));
      FirstComponent(s, i, e, w, n);
      SplitFrom(s, e, p[1..], n - 1);
      assert p == [w] + p[1..];
    }
  }

  /** Splitting the string of a path of at most ten names gives the path back. */
  lemma SplitPathString(p: Path)
    requires |p| <= MAX_PATH_LEN
    ensures Components(PathString(p), 0, MAX_PATH_LEN) == p
  {
    assert PathString(p)[0..] == PathString(p);
    SplitFrom(PathString(p), 0, p, MAX_PATH_LEN);
  }

  // ----------------------------------------------------------------- any string

  function Slashes(n: nat): seq<byte> { seq(n, _ => SLASH) }

  /** A string: before each word a number of slashes, and some at the end. */
  function Spelled(gaps: seq<nat>, words: seq<seq<byte>>, tail: nat): seq<byte>
    requires |gaps| == |words|
  {
    if words == [] then Slashes(tail) else Slashes(gaps[0]) + words[0] + Spelled(gaps[1..], words[1..], tail)
  }

  /** Words are not empty and without slashes; between two there is a slash. */
  ghost predicate Separate(gaps: seq<nat>, words: seq<seq<byte>>) {
    && |gaps| == |words|
    && (forall k :: 0 <= k < |words| ==> words[k] != [] && SLASH !in words[k])
    && (forall k :: 1 <= k < |gaps| ==> gaps[k] > 0)
  }

  /** At most n of the words, each cut to 27 bytes. */
  function FirstWords(words: seq<seq<byte>>, n: nat): seq<seq<byte>> {
    seq(if |words| < n then |words| else n, k requires 0 <= k < |words| && k < n =>
      if |words[k]| > 27 then words[k][..27] else words[k])
  }

  lemma {:induction false} SlashEndIs(s: seq<byte>, i: nat, e: nat)
    requires i <= e <= |s| && (e < |s| ==> s[e] != SLASH) && forall k :: i <= k < e ==> s[k] == SLASH
    ensures SlashEnd(s, i) == e
    decreases e - i
  {
    if i < e {
      SlashEndIs(s, i + 1, e);
    }
  }

  /** Where the first gap and the first word of a string end. */
  lemma FirstWord(s: seq<byte>, i: nat, gap: nat, w: seq<byte>, rest: seq<byte>, start: nat, e: nat)
    requires i <= |s| && s[i..] == Slashes(gap) + w + rest && w != [] && SLASH !in w
        && (rest != [] ==> rest[0] == SLASH)
    requires start == i + gap && e == start + |w|
    ensures e <= |s| && SlashEnd(s, i) == start && WordEnd(s, start) == e && s[start..e] == w && s[e..] == rest
  {
    assert forall k :: i <= k < |s| ==> s[k] == s[i..][k - i];
    assert s[start..e] == s[i..][gap..gap + |w|];
    assert s[e..] == s[i..][gap + |w|..];
    SlashEndIs(s, i, start);
    WordEndIs(s, start, e);
  }

  lemma SpelledStart(gaps: seq<nat>, words: seq<seq<byte>>, tail: nat)
    requires |gaps| == |words| && (gaps != [] ==> gaps[0] > 0)
    ensures Spelled(gaps, words, tail) != [] ==> Spelled(gaps, words, tail)[0] == SLASH
  {
  }

  lemma OneComponent(s: seq<byte>, i: nat, start: nat, e: nat, n: nat, less: nat)
    requires i <= |s| && SlashEnd(s, i) == start < e <= |s| && WordEnd(s, start) == e
    requires n > 0 && less == if n > 0 then n - 1 else 0
    ensures Components(s, i, n) == [Shortened(s[start..e])] + Components(s, e, less)
  {
  }

  lemma FirstWordsCons(words: seq<seq<byte>>, n: nat, less: nat)
    requires words != [] && n == less + 1
    ensures FirstWords(words, n) == [Shortened(words[0])] + FirstWords(words[1..], less)
  {
  }

  lemma NoWords(s: seq<byte>, i: nat, tail: nat, n: nat)
    requires i <= |s| && s[i..] == Slashes(tail)
    ensures Components(s, i, n) == []
  {
    assert forall k :: i <= k < |s| ==> s[k] == s[i..][k - i];
    SlashEndIs(s, i, |s|);
  }

  lemma FirstOf(s: seq<byte>, i: nat, gaps: seq<nat>, words: seq<seq<byte>>, tail: nat, n: nat, less: nat)
    returns (e: nat)
    requires i <= |s| && Separate(gaps, words) && s[i..] == Spelled(gaps, words, tail)
    requires words != [] && n > 0 && less == n - 1
    ensures e <= |s| && s[e..] == Spelled(gaps[1..], words[1..], tail)
    ensures Components(s, i, n) == [Shortened(words[0])] + Components(s, e, less)
  {
    var start, w, rest := i + gaps[0], words[0], Spelled(gaps[1..], words[1..], tail);
    e := start + |w|;
    SpelledStart(gaps[1..], words[1..], tail);
    FirstWord(s, i, gaps[0], w, rest, start, e);
    OneComponent(s, i, start, e, n, less);
  }

  lemma {:induction false} SplitSpelled(s: seq<byte>, i: nat, gaps: seq<nat>, words: seq<seq<byte>>, tail: nat, n: nat)
    requires i <= |s| && Separate(gaps, words) && s[i..] == Spelled(gaps, words, tail)
    ensures Components(s, i, n) == FirstWords(words, n)
    decreases |words|
  {
    if words == [] {
      NoWords(s, i, tail, n);
    } else if n > 0 {
      var less: nat := n - 1;
      var e := FirstOf(s, i, gaps, words, tail, n, less);
      SplitSpelled(s, e, gaps[1..], words[1..], tail, less);
      FirstWordsCons(words, n, less);
    }
  }

  /** Splitting any string: its first ten words, however many slashes are around
      them, each cut to its first 27 bytes. */
  lemma SplitAnyString(gaps: seq<nat>, words: seq<seq<byte>>, tail: nat)
    requires Separate(gaps, words)
    ensures Components(Spelled(gaps, words, tail), 0, MAX_PATH_LEN) == FirstWords(words, 10)
  {
    var s := Spelled(gaps, words, tail);
    assert s[0..] == s;
    SplitSpelled(s, 0, gaps, words, tail, MAX_PATH_LEN);
  }

  /** Every string is made of words and slashes. */
  lemma {:induction false} Spelling(s: seq<byte>, i: nat) returns (gaps: seq<nat>, words: seq<seq<byte>>, tail: nat)
    requires i <= |s|
    ensures Separate(gaps, words) && s[i..] == Spelled(gaps, words, tail)
    ensures i < |s| && s[i] == SLASH && gaps != [] ==> gaps[0] > 0
    decreases |s| - i
  {
    var start := SlashEnd(s, i);
    OnlySlashes(s, i);
    if start == |s| {
      gaps, words, tail := [], [], start - i;
      assert s[i..] == Slashes(tail);
    } else {
      var e := WordEnd(s, start);
      NoSlashInWord(s, start);
      var g, ws;
      g, ws, tail := Spelling(s, e);
      gaps, words := [start - i] + g, [s[start..e]] + ws;
      assert gaps[1..] == g && words[1..] == ws;
      assert s[i..] == Slashes(start - i) + s[start..e] + s[e..];
      assert words[0] != [] && SLASH !in words[0];
      assert forall k :: 1 <= k < |words| ==> words[k] == ws[k - 1];
      assert forall k :: 1 <= k < |gaps| ==> gaps[k] == g[k - 1];
    }
  }

  lemma {:induction false} OnlySlashes(s: seq<byte>, i: nat)
    requires i <= |s|
    ensures forall k :: i <= k < SlashEnd(s, i) ==> s[k] == SLASH
    decreases |s| - i
  {
    if i < |s| && s[i] == SLASH {
      OnlySlashes(s, i + 1);
    }
  }

  // ------------------------------------------------------------------ the code

  /** strtok on the rest of a string: skips slashes from `from` on, ends the
      component found there with a zero byte and says where to go on. A start at
      the terminator stands for NULL. */
  method StrTok(buf: array<byte>, from: nat, n: nat, ghost s: seq<byte>) returns (start: nat, save: nat)
    requires buf.Length == n + 1 && from <= n == |s| && buf[n] == 0
    requires forall k :: from <= k < n ==> buf[k] == s[k]
    modifies buf
    ensures start == SlashEnd(s, from)
    ensures start == n ==> buf[..] == old(buf[..])
    ensures start < n ==>
      var end := WordEnd(s, start);
      buf[..] == old(buf[..])[end := 0] && save == if end < n then end + 1 else n
  {
    start := from;
    while start < n && buf[start] == SLASH
      invariant from <= start <= n
      invariant SlashEnd(s, from) == SlashEnd(s, start)
    {
      start := start + 1;
    }
    save := start;
    while save < n && buf[save] != SLASH
      invariant start <= save <= n
      invariant WordEnd(s, start) == WordEnd(s, save)
    {
      save := save + 1;
    }
    if save < n {
      buf[save] := 0;
      save := save + 1;
    }
  }

  /** Component w lies at position i and ends with a zero byte. */
  ghost predicate WordAt(b: seq<byte>, i: nat, w: seq<byte>) {
    i + |w| < |b| && b[i..i + |w|] == w && b[i + |w|] == 0 && 0 !in w
  }

  lemma WordIsCString(b: seq<byte>, i: nat, w: seq<byte>)
    requires WordAt(b, i, w)
    ensures CString(b[i..]) == w
  {
    assert b[i..][..|w|] == w;
    CStringIs(b[i..], w);
  }

  /** A component stays in place while nothing up to its end is changed. */
  lemma WordStays(b: seq<byte>, c: seq<byte>, i: nat, w: seq<byte>)
    requires WordAt(b, i, w) && |c| == |b| && forall k :: 0 <= k <= i + |w| ==> c[k] == b[k]
    ensures WordAt(c, i, w)
  {
    assert c[i..i + |w|] == b[i..i + |w|];
  }

  lemma OneWord(b: seq<byte>, i: nat, v: seq<byte>, w: seq<byte>)
    requires WordAt(b, i, v) && WordAt(b, i, w)
    ensures v == w
  {
    WordIsCString(b, i, v);
    WordIsCString(b, i, w);
  }

  method StrLen(buf: array<byte>, i: nat) returns (len: nat)
    requires i < buf.Length && buf[buf.Length - 1] == 0
    ensures i + len < buf.Length && WordAt(buf[..], i, buf[i..i + len])
  {
    len := 0;
    while buf[i + len] != 0
      invariant i + len < buf.Length && 0 !in buf[i..i + len]
      decreases buf.Length - len
    {
      assert buf[i..i + len + 1] == buf[i..i + len] + [buf[i + len]];
      len := len + 1;
    }
  }

  /** Where strtok put its zero byte there is now a component. */
  lemma TokenStands(b: seq<byte>, s: seq<byte>, start: nat)
    requires |b| == |s| + 1 && start < |s| && 0 !in s
    requires forall k :: start <= k < WordEnd(s, start) ==> b[k] == s[k]
    requires b[WordEnd(s, start)] == 0
    ensures WordAt(b, start, s[start..WordEnd(s, start)])
  {
    var w := s[start..WordEnd(s, start)];
    assert b[start..start + |w|] == w;
  }

  lemma CutWord(b: seq<byte>, i: nat, w: seq<byte>)
    requires WordAt(b, i, w)
    ensures WordAt(if |w| > NAME_MAX then b[i + NAME_MAX := 0] else b, i, Shortened(w))
  {
    if |w| > NAME_MAX {
      var c := b[i + NAME_MAX := 0];
      assert c[i..i + NAME_MAX] == b[i..i + |w|][..NAME_MAX];
    }
  }

  /** The components found so far stand in the buffer, before the rest of the string. */
  ghost predicate Placed(b: seq<byte>, s: seq<byte>, argv: seq<nat>, parts: seq<seq<byte>>, save: nat) {
    && |b| == |s| + 1 && b[|s|] == 0 && save <= |s| && |parts| == |argv|
    && (forall k :: save <= k < |s| ==> b[k] == s[k])
    && (forall k :: 0 <= k < |argv| ==> WordAt(b, argv[k], parts[k]))
    && (forall k :: 0 <= k < |argv| ==> save == |s| || argv[k] + |parts[k]| < save)
  }

  /** argv points at the given components, each a C string of its own. */
  ghost predicate PointsAt(b: seq<byte>, argv: seq<nat>, parts: seq<seq<byte>>) {
    |argv| == |parts| && forall k :: 0 <= k < |argv| ==> argv[k] < |b| && CString(b[argv[k]..]) == parts[k]
  }

  lemma PlacedPointsAt(b: seq<byte>, s: seq<byte>, argv: seq<nat>, parts: seq<seq<byte>>, save: nat)
    requires Placed(b, s, argv, parts, save)
    ensures PointsAt(b, argv, parts)
  {
    forall k | 0 <= k < |argv|
      ensures argv[k] < |b| && CString(b[argv[k]..]) == parts[k]
    {
      WordIsCString(b, argv[k], parts[k]);
    }
  }

  /** The first component left, and where the search for the next one goes on. */
  lemma NextComponent(s: seq<byte>, rest: seq<seq<byte>>, from: nat, start: nat, save: nat, n: nat, more: nat)
    requires from <= |s| && n == more + 1 && start == SlashEnd(s, from) < |s|
    requires save == if WordEnd(s, start) < |s| then WordEnd(s, start) + 1 else |s|
    requires rest == Components(s, from, n)
    ensures rest != [] && rest[0] == Shortened(s[start..WordEnd(s, start)]) && rest[1..] == Components(s, save, more)
  {
    AfterSlash(s, WordEnd(s, start), save, more);
  }

  lemma AfterSlash(s: seq<byte>, e: nat, save: nat, n: nat)
    requires e <= |s| && (e < |s| ==> s[e] == SLASH) && save == if e < |s| then e + 1 else |s|
    ensures Components(s, save, n) == Components(s, e, n)
  {
    assert SlashEnd(s, e) == SlashEnd(s, save);
  }

  /** One turn of the loop of parse. */
  lemma PlaceOneMore(b: seq<byte>, c: seq<byte>, s: seq<byte>, argv: seq<nat>, parts: seq<seq<byte>>, from: nat,
          start: nat, save: nat, w: seq<byte>)
    requires Placed(b, s, argv, parts, from) && from <= start < |s| && start < save <= |s|
    requires |c| == |b| && c[|s|] == 0 && (forall k :: 0 <= k < |s| && !(start <= k < save) ==> c[k] == b[k])
    requires WordAt(c, start, w) && (save == |s| || start + |w| < save)
    ensures Placed(c, s, argv + [start], parts + [w], save)
  {
    forall k | 0 <= k < |argv|
      ensures WordAt(c, argv[k], parts[k])
    {
      WordStays(b, c, argv[k], parts[k]);
    }
  }

  /** The next component, ended by a zero byte and cut to 27 bytes. */
  method NextToken(buf: array<byte>, from: nat, n: nat, ghost s: seq<byte>) returns (start: nat, save: nat)
    requires buf.Length == n + 1 && from <= n == |s| && buf[n] == 0 && 0 !in s
    requires forall k :: from <= k < n ==> buf[k] == s[k]
    modifies buf
    ensures start == SlashEnd(s, from)
    ensures start == n ==> buf[..] == old(buf[..])
    ensures start < n ==>
      && save == (if WordEnd(s, start) < n then WordEnd(s, start) + 1 else n)
      && (forall k :: 0 <= k < n && !(start <= k < save) ==> buf[k] == old(buf[k])) && buf[n] == 0
      && WordAt(buf[..], start, Shortened(s[start..WordEnd(s, start)]))
  {
    start, save := StrTok(buf, from, n, s);
    if start < n {
      ghost var w := s[start..WordEnd(s, start)];
      TokenStands(buf[..], s, start);
      CutWord(buf[..], start, w);
      var length := StrLen(buf, start);
      OneWord(buf[..], start, buf[start..start + length], w);
      if length > NAME_MAX {
        buf[start + NAME_MAX] := 0;
      }
    }
  }

  /** How far parse has come: the components found stand in the buffer, and the
      rest of the string holds the others. */
  ghost predicate Split(b: seq<byte>, s: seq<byte>, argv: seq<nat>, all: seq<seq<byte>>, save: nat, left: nat) {
    exists parts: seq<seq<byte>> :: Placed(b, s, argv, parts, save) && all == parts + Components(s, save, left)
  }

  lemma SplitOneMore(b: seq<byte>, c: seq<byte>, s: seq<byte>, argv: seq<nat>, all: seq<seq<byte>>, from: nat,
          start: nat, save: nat, left: nat, more: nat)
    requires Split(b, s, argv, all, from, left) && left == more + 1 && from <= start < |s| && start == SlashEnd(s, from)
    requires save == if WordEnd(s, start) < |s| then WordEnd(s, start) + 1 else |s|
    requires |c| == |b| && c[|s|] == 0 && (forall k :: 0 <= k < |s| && !(start <= k < save) ==> c[k] == b[k])
    requires WordAt(c, start, Shortened(s[start..WordEnd(s, start)]))
    ensures Split(c, s, argv + [start], all, save, more)
  {
    var parts: seq<seq<byte>> :| Placed(b, s, argv, parts, from) && all == parts + Components(s, from, left);
    var rest := Components(s, from, left);
    NextComponent(s, rest, from, start, save, left, more);
    PlaceOneMore(b, c, s, argv, parts, from, start, save, rest[0]);
    Regroup(parts, rest);
    SplitIs(c, s, argv + [start], all, save, more, parts + [rest[0]], rest[1..]);
  }

  lemma Regroup(parts: seq<seq<byte>>, rest: seq<seq<byte>>)
    requires rest != []
    ensures parts + rest == (parts + [rest[0]]) + rest[1..]
  {
  }

  lemma SplitIs(b: seq<byte>, s: seq<byte>, argv: seq<nat>, all: seq<seq<byte>>, save: nat, left: nat,
          parts: seq<seq<byte>>, rest: seq<seq<byte>>)
    requires Placed(b, s, argv, parts, save) && rest == Components(s, save, left) && all == parts + rest
    ensures Split(b, s, argv, all, save, left)
  {
  }

  lemma SplitDone(b: seq<byte>, s: seq<byte>, argv: seq<nat>, all: seq<seq<byte>>, save: nat, left: nat)
    requires Split(b, s, argv, all, save, left) && save <= |s| && (left == 0 || SlashEnd(s, save) == |s|)
    ensures PointsAt(b, argv, all)
  {
    var parts: seq<seq<byte>> :| Placed(b, s, argv, parts, save) && all == parts + Components(s, save, left);
    assert all == parts;
    PlacedPointsAt(b, s, argv, parts, save);
  }

  lemma SplitStart(b: seq<byte>, s: seq<byte>, left: nat)
    requires b == s + [0]
    ensures Split(b, s, [], Components(s, 0, left), 0, left)
  {
    var parts: seq<seq<byte>> := [];
    assert Placed(b, s, [], parts, 0) && Components(s, 0, left) == parts + Components(s, 0, left);
  }

  /** Splits a C string in place: at most ten components, each at most 27 bytes;
      argv[k] is where component k now stands as a C string of its own. */
  method Parse(path: array<byte>) returns (argv: seq<nat>)
    requires path.Length > 0 && path[path.Length - 1] == 0 && 0 !in path[..path.Length - 1]
    modifies path
    ensures PointsAt(path[..], argv, Components(old(path[..path.Length - 1]), 0, MAX_PATH_LEN))
  {
    var n := path.Length - 1;
    ghost var s := path[..n];
    ghost var all := Components(s, 0, MAX_PATH_LEN);
    var save: nat, left: nat := 0, MAX_PATH_LEN;
    argv := [];
    SplitStart(path[..], s, left);
    while left > 0
      invariant save <= n && path.Length == |s| + 1 && path[n] == 0
      invariant forall k :: save <= k < n ==> path[k] == s[k]
      invariant Split(path[..], s, argv, all, save, left)
      decreases left
    {
      ghost var before := path[..];
      var start, next := NextToken(path, save, n, s);
      if start == n {
        break;
      }
      var more: nat := left - 1;
      SplitOneMore(before, path[..], s, argv, all, save, start, next, left, more);
      argv, save, left := argv + [start], next, more;
    }
    SplitDone(path[..], s, argv, all, save, left);
  }
}
