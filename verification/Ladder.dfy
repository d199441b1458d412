/** The anchor ladder: where a comment's lines are in another version of the files. */
module Ladder {
  import opened Options
  import opened Sorting
  import opened Strings

  datatype File = File(blob: string, lines: seq<string>)

  /** The files of a commit; `paths` lists them in byte order. */
  datatype Tree = Tree(files: map<string, File>, paths: seq<string>)

  /** Line numbers start at one, and the end is included. */
  datatype Range = Range(start: int, end: int)

  datatype Context = Context(lines: seq<string>, before: seq<string>, after: seq<string>, omitted: int)

  datatype SideAnchor = SideAnchor(path: string, blob: string, range: Option<Range>, context: Option<Context>)

  datatype Rung = ExactPathBlob | ExactBlobMoved | ContextExact | ContextFuzzy

  datatype Reason = PathAbsent | NoCandidate | BelowThreshold | Ambiguous | UnsupportedVersion

  datatype SideResult = Resolved(rung: Rung, path: string, range: Option<Range>) | Orphaned(reason: Reason)

  ghost predicate ValidTree(t: Tree) { t.paths == Sorted(t.files.Keys) }

  lemma PathsAreKeys(t: Tree)
    requires ValidTree(t)
    ensures forall p :: p in t.paths <==> p in t.files
    ensures forall i, j :: 0 <= i < j < |t.paths| ==> Less(t.paths[i], t.paths[j]) && t.paths[i] != t.paths[j]
  {
    assert SortedListOf(Less, t.paths, t.files.Keys);
    forall i, j | 0 <= i < j < |t.paths| ensures Less(t.paths[i], t.paths[j]) && t.paths[i] != t.paths[j] {
      LessIrreflexive(t.paths[i]);
    }
  }

  // ---- Rungs one and two: the same blob ----

  predicate HasBlob(t: Tree, path: string, blob: string) { path in t.files && t.files[path].blob == blob }

  /** The first path, in byte order, with the blob elsewhere. */
  predicate FirstMoved(t: Tree, path: string, blob: string, p: string) {
    && p != path && HasBlob(t, p, blob)
    && forall q :: q in t.files && q != path && HasBlob(t, q, blob) ==> LessEq(p, q)
  }

  predicate Moved(t: Tree, path: string, blob: string) {
    exists q :: q in t.files && q != path && HasBlob(t, q, blob)
  }

  function Absent(t: Tree, path: string): Reason { if path in t.files then NoCandidate else PathAbsent }

  method FindMoved(t: Tree, path: string, blob: string) returns (found: Option<string>)
    requires ValidTree(t)
    ensures found.Some? <==> Moved(t, path, blob)
    ensures found.Some? ==> FirstMoved(t, path, blob, found.value)
  {
    PathsAreKeys(t);
    hide Less;
    for i := 0 to |t.paths|
      invariant forall k :: 0 <= k < i ==> t.paths[k] == path || !HasBlob(t, t.paths[k], blob)
    {
      var p := t.paths[i];
      if p != path && t.files[p].blob == blob {
        forall q | q in t.files && q != path && HasBlob(t, q, blob) ensures LessEq(p, q) {
          var k :| 0 <= k < |t.paths| && t.paths[k] == q;
        }
        return Some(p);
      }
    }
    return None;
  }

  /** A whole-file anchor resolves by blob only. */
  ghost predicate WholeFileOutcome(s: SideAnchor, t: Tree, r: SideResult) {
    if HasBlob(t, s.path, s.blob) then r == Resolved(ExactPathBlob, s.path, None)
    else if Moved(t, s.path, s.blob) then
      r.Resolved? && r.rung == ExactBlobMoved && r.range == None && FirstMoved(t, s.path, s.blob, r.path)
    else r == Orphaned(Absent(t, s.path))
  }

  method ResolveWholeFileSide(s: SideAnchor, t: Tree) returns (r: SideResult)
    requires ValidTree(t)
    ensures WholeFileOutcome(s, t, r)
  {
    if s.path in t.files && t.files[s.path].blob == s.blob {
      return Resolved(ExactPathBlob, s.path, None);
    }
    var found := FindMoved(t, s.path, s.blob);
    if found.Some? {
      return Resolved(ExactBlobMoved, found.value, None);
    }
    return Orphaned(Absent(t, s.path));
  }

  // ---- What rungs three and four look for ----

  /** A ranged anchor, with the missing context read as empty. */
  datatype Query = Query(path: string, origin: int, length: int, lines: seq<string>, before: seq<string>, after: seq<string>, elided: bool)

  function QueryOf(s: SideAnchor): Query
    requires s.range.Some?
  {
    var c := if s.context.Some? then s.context.value else Context([], [], [], 0);
    Query(s.path, s.range.value.start, s.range.value.end - s.range.value.start + 1, c.lines, c.before, c.after, c.omitted > 0)
  }

  /** An elided context keeps the first 32 and the last 32 lines; the code compares both ends with windows
    * at least as long as one of them.
    */
  predicate Readable(q: Query) { q.elided && |q.lines| >= 64 ==> q.length >= 32 }

  datatype Window = Window(path: string, start: int)

  /** A window of the anchor's length, in the anchor's file if it still exists and in any file otherwise. */
  predicate InScope(t: Tree, q: Query, w: Window) {
    && w.path in t.files && (q.path in t.files ==> w.path == q.path)
    && 1 <= w.start <= |t.files[w.path].lines| - q.length + 1
  }

  predicate Inside(lines: seq<string>, q: Query, start: int) {
    q.length > 0 && Readable(q) && 1 <= start <= |lines| - q.length + 1
  }

  /** How many context lines a whole match compares. */
  function Full(q: Query): int { if q.elided then 64 else q.length }

  /** How many of them the context has. */
  function Compared(q: Query): nat {
    if q.elided then (if |q.lines| >= 64 then 64 else 0)
    else if q.length < 0 then 0
    else if q.length < |q.lines| then q.length
    else |q.lines|
  }

  /** The place in the file of the window's line that goes with context line `i`. */
  function Place(q: Query, start: int, i: int): int {
    if q.elided && i >= 32 then start + q.length - 64 + i - 1 else start + i - 1
  }

  predicate LineHit(lines: seq<string>, q: Query, start: int, i: int)
    requires Inside(lines, q, start) && 0 <= i < Compared(q)
  {
    lines[Place(q, start, i)] == q.lines[i]
  }

  predicate BeforeHit(lines: seq<string>, q: Query, start: int, k: int)
    requires Inside(lines, q, start) && 1 <= k <= |q.before|
  {
    start - k >= 1 && lines[start - k - 1] == q.before[|q.before| - k]
  }

  predicate AfterHit(lines: seq<string>, q: Query, start: int, k: int)
    requires Inside(lines, q, start) && 0 <= k < |q.after|
  {
    start + q.length + k <= |lines| && lines[start + q.length + k - 1] == q.after[k]
  }

  function LineHits(lines: seq<string>, q: Query, start: int, n: nat): (c: nat)
    requires Inside(lines, q, start) && n <= Compared(q)
    ensures c <= n
  {
    if n == 0 then 0 else LineHits(lines, q, start, n - 1) + (if LineHit(lines, q, start, n - 1) then 1 else 0)
  }

  function BeforeHits(lines: seq<string>, q: Query, start: int, n: nat): (c: nat)
    requires Inside(lines, q, start) && n <= |q.before|
    ensures c <= n
  {
    if n == 0 then 0 else BeforeHits(lines, q, start, n - 1) + (if BeforeHit(lines, q, start, n) then 1 else 0)
  }

  function AfterHits(lines: seq<string>, q: Query, start: int, n: nat): (c: nat)
    requires Inside(lines, q, start) && n <= |q.after|
    ensures c <= n
  {
    if n == 0 then 0 else AfterHits(lines, q, start, n - 1) + (if AfterHit(lines, q, start, n - 1) then 1 else 0)
  }

  /** Collar lines, just outside the window, count one each wherever they are found. */
  function Collar(lines: seq<string>, q: Query, start: int): (c: nat)
    requires Inside(lines, q, start)
    ensures c <= |q.before| + |q.after|
  {
    BeforeHits(lines, q, start, |q.before|) + AfterHits(lines, q, start, |q.after|)
  }

  /** Every context line is there and at its place. */
  predicate Matches(lines: seq<string>, q: Query, start: int)
    requires Inside(lines, q, start)
  {
    Compared(q) == Full(q) && forall i :: 0 <= i < Compared(q) ==> LineHit(lines, q, start, i)
  }

  /** Anchored lines count two each, collar lines one. */
  function Score(lines: seq<string>, q: Query, start: int): (score: nat)
    requires Inside(lines, q, start)
    ensures score <= MaxScore(q)
  {
    2 * LineHits(lines, q, start, Compared(q)) + Collar(lines, q, start)
  }

  function MaxScore(q: Query): int { 2 * Full(q) + |q.before| + |q.after| }

  method IsMatch(lines: seq<string>, q: Query, start: int) returns (matched: bool)
    requires Inside(lines, q, start)
    ensures matched <==> Matches(lines, q, start)
  {
    if !q.elided {
      if |q.lines| < q.length {
        return false;
      }
      for i := 0 to q.length
        invariant forall k :: 0 <= k < i ==> LineHit(lines, q, start, k)
      {
        if lines[start + i - 1] != q.lines[i] {
          assert !LineHit(lines, q, start, i);
          return false;
        }
      }
      return true;
    }
    if |q.lines| < 64 {
      return false;
    }
    for i := 0 to 32
      invariant forall k :: 0 <= k < i ==> LineHit(lines, q, start, k)
    {
      if lines[start + i - 1] != q.lines[i] {
        assert !LineHit(lines, q, start, i);
        return false;
      }
    }
    for j := 0 to 32
      invariant forall k :: 0 <= k < 32 + j ==> LineHit(lines, q, start, k)
    {
      if lines[start + q.length - 32 + j - 1] != q.lines[32 + j] {
        assert !LineHit(lines, q, start, 32 + j);
        return false;
      }
    }
    return true;
  }

  method CollarScore(lines: seq<string>, q: Query, start: int) returns (score: nat)
    requires Inside(lines, q, start)
    ensures score == Collar(lines, q, start)
  {
    score := 0;
    var beforeLen := |q.before|;
    for k := 1 to beforeLen + 1
      invariant score == BeforeHits(lines, q, start, k - 1)
    {
      if start - k >= 1 && lines[start - k - 1] == q.before[beforeLen - k] {
        score := score + 1;
      }
    }
    var afterLen := |q.after|;
    for k := 0 to afterLen
      invariant score == BeforeHits(lines, q, start, |q.before|) + AfterHits(lines, q, start, k)
    {
      if start + q.length + k <= |lines| && lines[start + q.length + k - 1] == q.after[k] {
        score := score + 1;
      }
    }
  }

  method WindowScore(lines: seq<string>, q: Query, start: int) returns (score: nat)
    requires Inside(lines, q, start)
    ensures score == Score(lines, q, start)
  {
    var anchored := 0;
    if !q.elided {
      var i := 0;
      while i < q.length && i < |q.lines|
        invariant 0 <= i <= Compared(q) && anchored == LineHits(lines, q, start, i)
      {
        if lines[start + i - 1] == q.lines[i] { anchored := anchored + 1; }
        i := i + 1;
      }
    } else if |q.lines| >= 64 {
      for i := 0 to 32
        invariant anchored == LineHits(lines, q, start, i)
      {
        if lines[start + i - 1] == q.lines[i] { anchored := anchored + 1; }
      }
      for j := 0 to 32
        invariant anchored == LineHits(lines, q, start, 32 + j)
      {
        if lines[start + q.length - 32 + j - 1] == q.lines[32 + j] { anchored := anchored + 1; }
      }
    }
    var collar := CollarScore(lines, q, start);
    score := 2 * anchored + collar;
  }

  // ---- Rung three: the best of the windows that match ----

  datatype Exact = Exact(path: string, start: int, collar: nat, distance: nat)

  function Abs(x: int): nat { if x < 0 then -x else x }

  /** More collar lines, then nearer to the anchored line, then earlier, then the smaller path. */
  predicate Better(a: Exact, b: Exact) {
    if a.collar != b.collar then a.collar > b.collar
    else if a.distance != b.distance then a.distance < b.distance
    else if a.start != b.start then a.start < b.start
    else Less(a.path, b.path)
  }

  lemma BetterIsTotal(a: Exact, b: Exact)
    ensures !(Better(a, b) && Better(b, a)) && (a != b ==> Better(a, b) || Better(b, a))
  {
    hide Less;
    LessTotal(a.path, b.path);
  }

  lemma BetterWeakOrder()
    ensures WeakOrder(Better)
  {
    forall a, b ensures Better(a, b) ==> !Better(b, a) {
      BetterIsTotal(a, b);
    }
    forall a, b, c | !Better(b, a) && !Better(c, b) ensures !Better(c, a) {
      BetterTransitive(a, b, c);
    }
  }

  lemma BetterTransitive(a: Exact, b: Exact, c: Exact)
    requires !Better(b, a) && !Better(c, b)
    ensures !Better(c, a)
  {
    hide Less;
    LessTotal(a.path, b.path);
    LessTotal(b.path, c.path);
    LessTotal(a.path, c.path);
    if Less(a.path, b.path) && Less(b.path, c.path) { LessTransitive(a.path, b.path, c.path); }
  }

  predicate Searchable(q: Query) { q.length > 0 && Readable(q) }

  /** A window whose context lines all match, with its collar score and its distance. */
  predicate ExactAt(t: Tree, q: Query, c: Exact) {
    && Searchable(q) && InScope(t, q, Window(c.path, c.start))
    && Matches(t.files[c.path].lines, q, c.start)
    && c.collar == Collar(t.files[c.path].lines, q, c.start)
    && c.distance == Abs(c.start - q.origin)
  }

  predicate ScopePath(t: Tree, q: Query, p: string) { p in t.files && (q.path in t.files ==> p == q.path) }

  method CandidatePaths(t: Tree, q: Query) returns (paths: seq<string>)
    requires ValidTree(t)
    ensures forall p :: p in paths <==> ScopePath(t, q, p)
    ensures forall i, j :: 0 <= i < j < |paths| ==> paths[i] != paths[j]
  {
    PathsAreKeys(t);
    paths := if q.path in t.files then [q.path] else t.paths;
  }

  method ScanExact(t: Tree, q: Query, p: string) returns (list: seq<Exact>)
    requires Searchable(q) && ScopePath(t, q, p)
    ensures forall c :: c in list <==> c.path == p && ExactAt(t, q, c)
  {
    list := [];
    var lines := t.files[p].lines;
    if |lines| < q.length {
      return;
    }
    hide Matches, Collar, Readable;
    for start := 1 to |lines| - q.length + 2
      invariant forall c :: c in list <==> c.path == p && c.start < start && ExactAt(t, q, c)
    {
      var matched := IsMatch(lines, q, start);
      if matched {
        var collar := CollarScore(lines, q, start);
        list := list + [Exact(p, start, collar, Abs(start - q.origin))];
      }
    }
  }

  method FindExact(t: Tree, q: Query) returns (list: seq<Exact>)
    requires ValidTree(t) && Searchable(q)
    ensures forall c :: c in list <==> ExactAt(t, q, c)
  {
    var paths := CandidatePaths(t, q);
    list := [];
    hide Matches, Collar, Readable, ValidTree;
    for i := 0 to |paths|
      invariant forall c :: c in list <==> ExactAt(t, q, c) && c.path in paths[..i]
    {
      assert paths[i] in paths;
      var found := ScanExact(t, q, paths[i]);
      list := list + found;
    }
    assert paths[..|paths|] == paths;
  }

  /** The window rung three picks: it matches and beats every other window that does. */
  ghost predicate BestExact(t: Tree, q: Query, best: Exact) {
    ExactAt(t, q, best) && forall c :: ExactAt(t, q, c) && c != best ==> Better(best, c)
  }

  method PickExact(t: Tree, q: Query, list: seq<Exact>) returns (best: Exact)
    requires list != [] && forall c :: c in list <==> ExactAt(t, q, c)
    ensures BestExact(t, q, best)
  {
    hide ExactAt, Better;
    BetterWeakOrder();
    var sorted := SortSlice(Better, list);
    best := sorted[0];
    assert best in multiset(sorted) && best in multiset(list);
    forall c | ExactAt(t, q, c) && c != best ensures Better(best, c) {
      assert c in multiset(list) && c in multiset(sorted);
      var i :| 0 <= i < |sorted| && sorted[i] == c;
      BetterIsTotal(best, c);
    }
  }

  // ---- Rung four: the one best score ----

  datatype Scored = Scored(path: string, start: int, score: nat)

  predicate ScoredAt(t: Tree, q: Query, w: Scored) {
    && Searchable(q) && InScope(t, q, Window(w.path, w.start))
    && w.score == Score(t.files[w.path].lines, q, w.start)
  }

  ghost predicate NoDuplicates<T>(s: seq<T>) { forall i, j :: 0 <= i < j < |s| ==> s[i] != s[j] }

  method ScanScores(t: Tree, q: Query, p: string) returns (list: seq<Scored>)
    requires Searchable(q) && ScopePath(t, q, p)
    ensures (forall w :: w in list <==> w.path == p && ScoredAt(t, q, w)) && NoDuplicates(list)
  {
    list := [];
    var lines := t.files[p].lines;
    if |lines| < q.length {
      return;
    }
    hide Score, Readable;
    for start := 1 to |lines| - q.length + 2
      invariant forall w :: w in list <==> w.path == p && w.start < start && ScoredAt(t, q, w)
      invariant NoDuplicates(list)
    {
      var score := WindowScore(lines, q, start);
      assert forall i :: 0 <= i < |list| ==> list[i] in list;
      list := list + [Scored(p, start, score)];
    }
  }

  method FindScores(t: Tree, q: Query) returns (list: seq<Scored>)
    requires ValidTree(t) && Searchable(q)
    ensures (forall w :: w in list <==> ScoredAt(t, q, w)) && NoDuplicates(list)
  {
    var paths := CandidatePaths(t, q);
    list := [];
    hide Score, Readable, ValidTree;
    for i := 0 to |paths|
      invariant forall w :: w in list <==> ScoredAt(t, q, w) && w.path in paths[..i]
      invariant NoDuplicates(list)
    {
      assert paths[i] in paths;
      var found := ScanScores(t, q, paths[i]);
      Concatenated(list, found, paths, i);
      list := list + found;
    }
    assert paths[..|paths|] == paths;
  }

  lemma Concatenated(list: seq<Scored>, found: seq<Scored>, paths: seq<string>, i: nat)
    requires NoDuplicates(list) && NoDuplicates(found) && NoDuplicates(paths) && i < |paths|
    requires (forall w :: w in list ==> w.path in paths[..i]) && forall w :: w in found ==> w.path == paths[i]
    ensures NoDuplicates(list + found)
  {
    forall j, k | 0 <= j < |list| && 0 <= k < |found| ensures list[j] != found[k] {
      assert list[j] in list && found[k] in found;
    }
  }

  predicate Higher(a: Scored, b: Scored) { a.score > b.score }

  ghost predicate Top(t: Tree, q: Query, w: Scored) {
    ScoredAt(t, q, w) && forall v :: ScoredAt(t, q, v) ==> v.score <= w.score
  }

  ghost predicate AllZero(t: Tree, q: Query) { forall w :: ScoredAt(t, q, w) ==> w.score == 0 }

  /** What rung four answers: the window with the highest score, if the score is positive and at least 60% of
    * the most an identical place would get, and no other window has it.
    */
  ghost predicate FuzzyOutcome(t: Tree, q: Query, r: SideResult) {
    if AllZero(t, q) then r == Orphaned(Absent(t, q.path))
    else exists w :: Top(t, q, w) && Judged(t, q, w, r)
  }

  ghost predicate Judged(t: Tree, q: Query, w: Scored, r: SideResult) {
    if w.score * 100 < 60 * MaxScore(q) then r == Orphaned(BelowThreshold)
    else if exists v :: v != w && Top(t, q, v) then r == Orphaned(Ambiguous)
    else r == Resolved(ContextFuzzy, w.path, Some(Range(w.start, w.start + q.length - 1)))
  }

  lemma {:induction false} CountOnce(s: seq<Scored>, x: Scored)
    requires NoDuplicates(s)
    ensures multiset(s)[x] <= 1
    decreases |s|
  {
    if s == [] {
    } else {
      var init, last := s[..|s| - 1], s[|s| - 1];
      assert s == init + [last];
      CountOnce(init, x);
      forall i | 0 <= i < |init| ensures init[i] != last {
        assert s[i] != s[|s| - 1];
      }
    }
  }

  lemma PermutedNoDuplicates(a: seq<Scored>, b: seq<Scored>)
    requires NoDuplicates(a) && multiset(a) == multiset(b)
    ensures NoDuplicates(b)
  {
    forall i, j | 0 <= i < j < |b| ensures b[i] != b[j] {
      var x := b[j];
      CountOnce(a, x);
      assert b == b[..j] + [x] + b[j + 1..];
      assert b[i] == b[..j][i] && b[i] in b[..j];
    }
  }

  /** What sorting by score leaves to say: who is first, and whether the second is as high. */
  lemma SortedTop(t: Tree, q: Query, list: seq<Scored>, sorted: seq<Scored>)
    requires (forall w :: w in list <==> ScoredAt(t, q, w)) && NoDuplicates(list)
    requires sorted != [] && Ascending(Higher, sorted) && multiset(sorted) == multiset(list)
    ensures Top(t, q, sorted[0])
    ensures (exists v :: v != sorted[0] && Top(t, q, v)) <==> |sorted| > 1 && sorted[1].score == sorted[0].score
  {
    hide ScoredAt;
    PermutedNoDuplicates(list, sorted);
    forall w ensures w in sorted <==> ScoredAt(t, q, w) {
      assert w in multiset(sorted) <==> w in multiset(list);
    }
    forall v | v in sorted ensures v.score <= sorted[0].score && (v != sorted[0] ==> |sorted| > 1 && v.score <= sorted[1].score) {
      var i :| 0 <= i < |sorted| && sorted[i] == v;
    }
    assert sorted[0] in sorted && (|sorted| > 1 ==> sorted[1] in sorted && sorted[1] != sorted[0]);
    assert Top(t, q, sorted[0]);
    if |sorted| > 1 && sorted[1].score == sorted[0].score { assert Top(t, q, sorted[1]); }
  }

  method PickFuzzy(t: Tree, q: Query, list: seq<Scored>) returns (r: SideResult)
    requires Searchable(q) && (forall w :: w in list <==> ScoredAt(t, q, w)) && NoDuplicates(list)
    ensures FuzzyOutcome(t, q, r)
  {
    hide ScoredAt, Searchable;
    if |list| == 0 {
      return Orphaned(Absent(t, q.path));
    }
    assert WeakOrder(Higher);
    var sorted := SortSlice(Higher, list);
    assert sorted != [] by {
      assert list[0] in multiset(list);
    }
    SortedTop(t, q, list, sorted);
    var best := sorted[0];
    if best.score == 0 {
      assert AllZero(t, q);
      return Orphaned(Absent(t, q.path));
    }
    assert !AllZero(t, q);
    if MaxScore(q) > 0 && best.score * 100 < 60 * MaxScore(q) {
      r := Orphaned(BelowThreshold);
    } else if |sorted| > 1 && sorted[1].score == best.score {
      r := Orphaned(Ambiguous);
    } else {
      r := Resolved(ContextFuzzy, best.path, Some(Range(best.start, best.start + q.length - 1)));
    }
    assert MaxScore(q) > 0 || best.score * 100 >= 60 * MaxScore(q);
    assert Judged(t, q, best, r);
  }

  // ---- The whole ladder ----

  ghost predicate HasExact(t: Tree, q: Query) { exists c :: ExactAt(t, q, c) }

  ghost predicate ContextOutcome(t: Tree, q: Query, r: SideResult) {
    if q.length <= 0 then r == Orphaned(Absent(t, q.path))
    else if HasExact(t, q) then
      exists c :: BestExact(t, q, c) && r == Resolved(ContextExact, c.path, Some(Range(c.start, c.start + q.length - 1)))
    else FuzzyOutcome(t, q, r)
  }

  ghost predicate RangedOutcome(s: SideAnchor, t: Tree, r: SideResult)
    requires s.range.Some?
  {
    if HasBlob(t, s.path, s.blob) then r == Resolved(ExactPathBlob, s.path, s.range)
    else if Moved(t, s.path, s.blob) then
      r.Resolved? && r.rung == ExactBlobMoved && r.range == s.range && FirstMoved(t, s.path, s.blob, r.path)
    else ContextOutcome(t, QueryOf(s), r)
  }

  /** Rungs three and four. */
  method ResolveByContext(t: Tree, q: Query) returns (r: SideResult)
    requires ValidTree(t) && Searchable(q)
    ensures ContextOutcome(t, q, r)
  {
    hide ExactAt, ScoredAt, NoDuplicates, BestExact, FuzzyOutcome, ValidTree;
    var exact := FindExact(t, q);
    if |exact| > 0 {
      assert ExactAt(t, q, exact[0]);
      var best := PickExact(t, q, exact);
      return Resolved(ContextExact, best.path, Some(Range(best.start, best.start + q.length - 1)));
    }
    var windows := FindScores(t, q);
    r := PickFuzzy(t, q, windows);
  }

  /** A ranged anchor climbs the rungs in turn: its own file unchanged, the same file elsewhere, the best
    * whole match of its context, the one best partial match.
    */
  method ResolveRangedSide(s: SideAnchor, t: Tree) returns (r: SideResult)
    requires ValidTree(t) && s.range.Some? && Readable(QueryOf(s))
    ensures RangedOutcome(s, t, r)
  {
    if s.path in t.files && t.files[s.path].blob == s.blob {
      return Resolved(ExactPathBlob, s.path, s.range);
    }
    var found := FindMoved(t, s.path, s.blob);
    if found.Some? {
      return Resolved(ExactBlobMoved, found.value, s.range);
    }
    var q := QueryOf(s);
    if q.length <= 0 {
      return Orphaned(Absent(t, q.path));
    }
    r := ResolveByContext(t, q);
  }

  ghost predicate SideOutcome(version: int, s: SideAnchor, t: Tree, r: SideResult) {
    if version != 1 then r == Orphaned(UnsupportedVersion)
    else if s.range.None? then WholeFileOutcome(s, t, r)
    else RangedOutcome(s, t, r)
  }

  method ResolveSide(version: int, s: SideAnchor, t: Tree) returns (r: SideResult)
    requires ValidTree(t) && (s.range.Some? ==> Readable(QueryOf(s)))
    ensures SideOutcome(version, s, t, r)
  {
    if version != 1 {
      return Orphaned(UnsupportedVersion);
    }
    if s.range.None? {
      r := ResolveWholeFileSide(s, t);
    } else {
      r := ResolveRangedSide(s, t);
    }
  }

  // ---- What the outcome says ----

  lemma FirstMovedUnique(t: Tree, path: string, blob: string, a: string, b: string)
    requires FirstMoved(t, path, blob, a) && FirstMoved(t, path, blob, b)
    ensures a == b
  {
    LessTotal(a, b);
  }

  lemma BestUnique(t: Tree, q: Query, a: Exact, b: Exact)
    requires BestExact(t, q, a) && BestExact(t, q, b)
    ensures a == b
  {
    hide ExactAt, Better;
    BetterIsTotal(a, b);
  }

  lemma FuzzyUnique(t: Tree, q: Query, a: SideResult, b: SideResult)
    requires FuzzyOutcome(t, q, a) && FuzzyOutcome(t, q, b)
    ensures a == b
  {
    hide ScoredAt;
    if !AllZero(t, q) {
      var v :| Top(t, q, v) && Judged(t, q, v, a);
      var w :| Top(t, q, w) && Judged(t, q, w, b);
      assert v.score == w.score;
    }
  }

  /** The outcome is a function of the anchor and the tree: how equal windows were sorted cannot show. */
  lemma OneOutcome(version: int, s: SideAnchor, t: Tree, a: SideResult, b: SideResult)
    requires SideOutcome(version, s, t, a) && SideOutcome(version, s, t, b)
    ensures a == b
  {
    hide ExactAt, BestExact, FuzzyOutcome, Less, FirstMoved;
    if version == 1 && !HasBlob(t, s.path, s.blob) {
      if Moved(t, s.path, s.blob) {
        FirstMovedUnique(t, s.path, s.blob, a.path, b.path);
      } else if s.range.Some? {
        var q := QueryOf(s);
        if q.length > 0 && HasExact(t, q) {
          var c :| BestExact(t, q, c) && a == Resolved(ContextExact, c.path, Some(Range(c.start, c.start + q.length - 1)));
          var d :| BestExact(t, q, d) && b == Resolved(ContextExact, d.path, Some(Range(d.start, d.start + q.length - 1)));
          BestUnique(t, q, c, d);
        } else if q.length > 0 {
          FuzzyUnique(t, q, a, b);
        }
      }
    }
  }

  /** A range found by context lies inside the file found and is as long as the anchored one. */
  lemma RangeInsideFile(t: Tree, q: Query, r: SideResult)
    requires ContextOutcome(t, q, r) && r.Resolved?
    ensures r.path in t.files && r.range.Some? && (q.path in t.files ==> r.path == q.path)
    ensures 1 <= r.range.value.start <= r.range.value.end <= |t.files[r.path].lines|
    ensures r.range.value.end - r.range.value.start + 1 == q.length
  {
    hide Matches, Score, Collar, Better;
  }

  /** With no blob match, the context matches exactly when some window in scope does, and fuzzily exactly when
    * none does, one window alone has the highest score, and that score is at least 60% of the most there is.
    */
  lemma WhichRung(t: Tree, q: Query, r: SideResult)
    requires Searchable(q) && ContextOutcome(t, q, r)
    ensures r.Resolved? && r.rung == ContextExact <==> HasExact(t, q)
    ensures r.Resolved? && r.rung == ContextFuzzy <==>
              !HasExact(t, q) && exists w :: Top(t, q, w) && (forall v :: Top(t, q, v) ==> v == w) && w.score * 100 >= 60 * MaxScore(q)
  {
    hide ExactAt, BestExact, ScoredAt;
    assert MaxScore(q) > 0;
    if !HasExact(t, q) && !AllZero(t, q) {
      var w :| Top(t, q, w) && Judged(t, q, w, r);
      forall v | Top(t, q, v) ensures v.score == w.score {}
      if r.Resolved? {
        assert forall v :: Top(t, q, v) ==> v == w;
      }
    }
  }

  /** A matching window is one that gets every anchored point. */
  lemma {:induction false} HitsAll(lines: seq<string>, q: Query, start: int, n: nat)
    requires Inside(lines, q, start) && n <= Compared(q)
    ensures LineHits(lines, q, start, n) == n <==> forall i :: 0 <= i < n ==> LineHit(lines, q, start, i)
    decreases n
  {
    hide LineHit;
    if n == 0 {
    } else {
      HitsAll(lines, q, start, n - 1);
    }
  }

  lemma MatchScoresFull(lines: seq<string>, q: Query, start: int)
    requires Inside(lines, q, start)
    ensures Matches(lines, q, start) <==> LineHits(lines, q, start, Compared(q)) == Full(q)
  {
    HitsAll(lines, q, start, Compared(q));
  }

  /** A place found fuzzily scores at least 60% of the most there is and never all of it: some anchored line is
    * missing there.
    */
  lemma FuzzyMisses(t: Tree, q: Query, r: SideResult)
    requires ContextOutcome(t, q, r) && r.Resolved? && r.rung == ContextFuzzy
    ensures r.path in t.files && r.range.Some? && Inside(t.files[r.path].lines, q, r.range.value.start)
    ensures var lines, start := t.files[r.path].lines, r.range.value.start;
            LineHits(lines, q, start, Compared(q)) < Full(q) && 60 * MaxScore(q) <= 100 * Score(lines, q, start) < 100 * MaxScore(q)
  {
    hide BestExact, Matches, LineHits, Collar;
    var w :| Top(t, q, w) && Judged(t, q, w, r);
    var lines := t.files[w.path].lines;
    assert !ExactAt(t, q, Exact(w.path, w.start, Collar(lines, q, w.start), Abs(w.start - q.origin)));
    MatchScoresFull(lines, q, w.start);
  }

  /** The text stands in the file from line `start` on. */
  predicate TextAt(lines: seq<string>, text: seq<string>, start: int) {
    1 <= start <= |lines| - |text| + 1 && lines[start - 1..start - 1 + |text|] == text
  }

  /** If the anchored text is unchanged and occurs once in its file, the anchor follows it there. */
  lemma FollowsText(t: Tree, q: Query, r: SideResult, start: int)
    requires Searchable(q) && ContextOutcome(t, q, r) && q.path in t.files && !q.elided && |q.lines| == q.length
    requires forall k :: TextAt(t.files[q.path].lines, q.lines, k) <==> k == start
    ensures r == Resolved(ContextExact, q.path, Some(Range(start, start + q.length - 1)))
  {
    var lines := t.files[q.path].lines;
    assert TextAt(lines, q.lines, start);
    forall k | Inside(lines, q, k) ensures Matches(lines, q, k) <==> k == start {
      MatchIsText(lines, q, k);
    }
    hide Matches, Better, TextAt;
    var c := Exact(q.path, start, Collar(lines, q, start), Abs(start - q.origin));
    assert ExactAt(t, q, c);
    assert forall d :: ExactAt(t, q, d) ==> Inside(lines, q, d.start) && d.path == q.path && d.start == start;
  }

  lemma MatchIsText(lines: seq<string>, q: Query, start: int)
    requires Inside(lines, q, start) && !q.elided && |q.lines| == q.length
    ensures Matches(lines, q, start) <==> TextAt(lines, q.lines, start)
  {
    var slice := lines[start - 1..start - 1 + q.length];
    if Matches(lines, q, start) {
      forall i | 0 <= i < q.length ensures slice[i] == q.lines[i] {
        assert LineHit(lines, q, start, i);
      }
    }
    if slice == q.lines {
      forall i | 0 <= i < q.length ensures LineHit(lines, q, start, i) {
        assert slice[i] == q.lines[i];
      }
    }
  }
}
