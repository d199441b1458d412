/** Unicode's canonical ordering and composition, as identifiers of people are normalised. The Unicode tables
  * are parameters: a mark carries its canonical combining class, and starters have class zero.
  */
module CanonicalOrder {

  datatype Mark = Mark(rune: int, ccc: int)

  const CLASSES := 256
  const INSERTION_MAX := 32

  type Marks = seq<Mark>

  predicate Classed(s: Marks) { forall i :: 0 <= i < |s| ==> 0 <= s[i].ccc < CLASSES }

  // ---- Definitions D108 and D109: reorderable pairs, and exchanging them until none is left ----

  /** Two adjacent marks are reorderable when the first has the larger class and the second is no starter. */
  predicate Reorderable(a: Mark, b: Mark) { a.ccc > b.ccc > 0 }

  predicate InOrder(s: Marks) { forall i :: 0 <= i < |s| - 1 ==> !Reorderable(s[i], s[i + 1]) }

  /** One reorderable pair exchanged. */
  predicate ExchangedAt(s: Marks, t: Marks, i: nat) {
    i + 1 < |s| && Reorderable(s[i], s[i + 1]) && t == s[i := s[i + 1]][i + 1 := s[i]]
  }

  ghost predicate Reorders(s: Marks, t: Marks, n: nat)
    decreases n
  {
    if n == 0 then s == t else exists u, i: nat :: ExchangedAt(s, u, i) && Reorders(u, t, n - 1)
  }

  /** The canonical ordering of `s`: what exchanging reorderable pairs leads to when none is left. */
  ghost predicate CanonicalOrdering(s: Marks, t: Marks) { InOrder(t) && exists n: nat :: Reorders(s, t, n) }

  // ---- What an exchange never changes ----

  /** The starters and the marks of one class, in order. */
  function Project(s: Marks, c: int): Marks {
    if s == [] then []
    else (if s[0].ccc == c || s[0].ccc == 0 then [s[0]] else []) + Project(s[1..], c)
  }

  /** Canonical equivalence of decomposed text: the same starters, and between any two the same marks of
    * each class in the same order.
    */
  ghost predicate Equivalent(s: Marks, t: Marks) { forall c :: Project(s, c) == Project(t, c) }

  lemma Associative(a: Marks, b: Marks, c: Marks)
    ensures a + (b + c) == (a + b) + c
  {}

  lemma {:induction false} ProjectConcat(s: Marks, t: Marks, c: int)
    ensures Project(s + t, c) == Project(s, c) + Project(t, c)
  {
    if s == [] {
      assert s + t == t;
    } else {
      var head := if s[0].ccc == c || s[0].ccc == 0 then [s[0]] else [];
      assert (s + t)[0] == s[0] && (s + t)[1..] == s[1..] + t;
      assert Project(s + t, c) == head + Project(s[1..] + t, c) && Project(s, c) == head + Project(s[1..], c);
      hide Project;
      ProjectConcat(s[1..], t, c);
      Associative(head, Project(s[1..], c), Project(t, c));
    }
  }

  lemma ProjectSwap(a: Mark, b: Mark, c: int)
    requires a.ccc > b.ccc > 0
    ensures Project([a, b], c) == Project([b, a], c)
  {
    assert [a, b][1..] == [b] && [b, a][1..] == [a];
  }

  lemma ExchangeEquivalent(s: Marks, t: Marks, i: nat)
    requires ExchangedAt(s, t, i)
    ensures Equivalent(s, t)
  {
    var p, q := s[..i], s[i + 2..];
    assert s == p + [s[i], s[i + 1]] + q && t == p + [s[i + 1], s[i]] + q;
    forall c ensures Project(s, c) == Project(t, c) {
      ProjectConcat(p + [s[i], s[i + 1]], q, c);
      ProjectConcat(p, [s[i], s[i + 1]], c);
      ProjectConcat(p + [s[i + 1], s[i]], q, c);
      ProjectConcat(p, [s[i + 1], s[i]], c);
      ProjectSwap(s[i], s[i + 1], c);
    }
  }

  lemma {:induction false} ReordersEquivalent(s: Marks, t: Marks, n: nat)
    requires Reorders(s, t, n)
    ensures Equivalent(s, t)
    decreases n
  {
    if n == 0 {
    } else {
      var u, i: nat :| ExchangedAt(s, u, i) && Reorders(u, t, n - 1);
      ExchangeEquivalent(s, u, i);
      ReordersEquivalent(u, t, n - 1);
    }
  }

  // ---- One ordering ----

  lemma TailInOrder(s: Marks)
    requires InOrder(s) && s != []
    ensures InOrder(s[1..])
  {
    forall i | 0 <= i < |s| - 2 ensures !Reorderable(s[1..][i], s[1..][i + 1]) {
      assert !Reorderable(s[i + 1], s[i + 2]);
    }
  }

  /** In ordered text, a class that shows before the next starter is no smaller than the first mark's. */
  lemma {:induction false} FirstOfClass(s: Marks, c: int)
    requires InOrder(s) && Classed(s) && s != [] && s[0].ccc > 0 && Project(s, c) != []
    ensures Project(s, c)[0].ccc == 0 || Project(s, c)[0].ccc >= s[0].ccc
  {
    if s[0].ccc == c {
    } else {
      TailInOrder(s);
      assert !Reorderable(s[0], s[1]);
      if s[1].ccc > 0 { FirstOfClass(s[1..], c); }
    }
  }

  lemma HeadsAgree(s: Marks, t: Marks)
    requires InOrder(s) && InOrder(t) && Equivalent(s, t) && s != [] && t != []
    requires Classed(s) && Classed(t)
    ensures s[0] == t[0]
  {
    var c, d := s[0].ccc, t[0].ccc;
    assert Project(s, c)[0] == s[0] && Project(t, d)[0] == t[0];
    assert Project(t, c)[0] == s[0] && Project(s, d)[0] == t[0];
    if c > 0 && d > 0 {
      FirstOfClass(s, d);
      FirstOfClass(t, c);
    }
  }

  /** Equivalent text has one canonical ordering. */
  lemma {:induction false} OrderUnique(s: Marks, t: Marks)
    requires InOrder(s) && InOrder(t) && Equivalent(s, t) && Classed(s) && Classed(t)
    ensures s == t
    decreases |s|
  {
    if s != [] { EmptyTogether(s, t); }
    if t != [] { EmptyTogether(t, s); }
    if s == [] {
    } else {
      HeadsAgree(s, t);
      TailInOrder(s);
      TailInOrder(t);
      forall c ensures Project(s[1..], c) == Project(t[1..], c) {
        var head := if s[0].ccc == c || s[0].ccc == 0 then [s[0]] else [];
        assert Project(s, c) == head + Project(s[1..], c) && Project(t, c) == head + Project(t[1..], c);
        assert Project(s[1..], c) == Project(s, c)[|head|..];
      }
      OrderUnique(s[1..], t[1..]);
    }
  }

  lemma EmptyTogether(s: Marks, t: Marks)
    requires Equivalent(s, t) && s != []
    ensures t != []
  {
    assert Project(s, s[0].ccc)[0] == s[0];
    assert Project(t, s[0].ccc)[0] == s[0];
  }

  lemma {:induction false} ReordersBehind(h: Mark, s: Marks, t: Marks, n: nat)
    requires Reorders(s, t, n)
    ensures Reorders([h] + s, [h] + t, n)
    decreases n
  {
    if n == 0 {
    } else {
      var u, i: nat :| ExchangedAt(s, u, i) && Reorders(u, t, n - 1);
      ReordersBehind(h, u, t, n - 1);
      assert ExchangedAt([h] + s, [h] + u, i + 1);
    }
  }

  lemma {:induction false} ReordersThen(s: Marks, t: Marks, u: Marks, n: nat, m: nat)
    requires Reorders(s, t, n) && Reorders(t, u, m)
    ensures Reorders(s, u, n + m)
    decreases n
  {
    if n == 0 {
    } else {
      var v, i: nat :| ExchangedAt(s, v, i) && Reorders(v, t, n - 1);
      ReordersThen(v, t, u, n - 1, m);
    }
  }

  /** A mark in front of ordered text can be exchanged into its place. */
  lemma {:induction false} InsertOrdered(x: Mark, s: Marks) returns (t: Marks, n: nat)
    requires InOrder(s)
    ensures InOrder(t) && Reorders([x] + s, t, n)
    ensures t != [] && (t[0] == x || (s != [] && t[0] == s[0]))
    decreases |s|
  {
    if s == [] || !Reorderable(x, s[0]) {
      t, n := [x] + s, 0;
    } else {
      TailInOrder(s);
      var u, m := InsertOrdered(x, s[1..]);
      t, n := [s[0]] + u, m + 1;
      assert |s| > 1 ==> !Reorderable(s[0], s[1]);
      ReordersBehind(s[0], [x] + s[1..], u, m);
      assert ExchangedAt([x] + s, [s[0]] + ([x] + s[1..]), 0);
    }
  }

  lemma {:induction false} OrderingExists(s: Marks) returns (t: Marks, n: nat)
    ensures InOrder(t) && Reorders(s, t, n)
    decreases |s|
  {
    if s == [] {
      t, n := [], 0;
    } else {
      var u, m := OrderingExists(s[1..]);
      ReordersBehind(s[0], s[1..], u, m);
      assert [s[0]] + s[1..] == s;
      var k;
      t, k := InsertOrdered(s[0], u);
      ReordersThen(s, [s[0]] + u, t, m, k);
      n := m + k;
    }
  }

  lemma EquivalentClassed(s: Marks, t: Marks)
    requires Classed(s) && Equivalent(s, t)
    ensures Classed(t)
  {
    forall i | 0 <= i < |t| ensures 0 <= t[i].ccc < CLASSES {
      ProjectMembers(t, t[i].ccc, t[i]);
      ProjectMembers(s, t[i].ccc, t[i]);
      assert t[i] in Project(t, t[i].ccc) && Project(s, t[i].ccc) == Project(t, t[i].ccc);
      var k :| 0 <= k < |s| && s[k] == t[i];
    }
  }

  lemma {:induction false} ProjectMembers(s: Marks, c: int, m: Mark)
    ensures m in Project(s, c) <==> m in s && (m.ccc == c || m.ccc == 0)
  {
    if s == [] {
    } else {
      ProjectMembers(s[1..], c, m);
    }
  }

  /** Exchanging reorderable pairs in any order ends with the same text: the one ordered text equivalent to
    * the one at the start.
    */
  lemma OneCanonicalOrdering(s: Marks, t: Marks)
    requires Classed(s)
    ensures CanonicalOrdering(s, t) <==> InOrder(t) && Equivalent(s, t)
  {
    if CanonicalOrdering(s, t) {
      var n: nat :| Reorders(s, t, n);
      ReordersEquivalent(s, t, n);
    }
    if InOrder(t) && Equivalent(s, t) {
      var u, n := OrderingExists(s);
      ReordersEquivalent(s, u, n);
      EquivalentClassed(s, t);
      EquivalentClassed(s, u);
      OrderUnique(t, u);
    }
  }

  // ---- Sorting one run of non-starters ----

  predicate Run(s: Marks, lo: int, hi: int) {
    0 <= lo <= hi <= |s| && forall k :: lo <= k < hi ==> 0 < s[k].ccc < CLASSES
  }

  predicate AscendingRun(s: Marks, lo: int, hi: int) {
    0 <= lo <= hi <= |s| && forall i, j :: lo <= i < j < hi ==> s[i].ccc <= s[j].ccc
  }

  predicate SameOutside(s: Marks, t: Marks, lo: int, hi: int) {
    |s| == |t| && forall k :: 0 <= k < |s| && !(lo <= k < hi) ==> s[k] == t[k]
  }

  /** The run sorted by class, everything else in place, the text equivalent. */
  ghost predicate SortedRun(s: Marks, t: Marks, lo: int, hi: int) {
    SameOutside(s, t, lo, hi) && AscendingRun(t, lo, hi) && Run(t, lo, hi) && Equivalent(s, t)
  }

  /** Midway through a shift: with the moving mark at `j`, the text is equivalent to the one before, and the
    * run is sorted on both sides of the mark.
    */
  ghost predicate Shifting(before: Marks, s: Marks, lo: int, j: int, i: int) {
    && lo <= j <= i < |s|
    && SameOutside(before, s, lo, i + 1) && Run(s, lo, i + 1) && Equivalent(before, s)
    && AscendingRun(s, lo, j) && AscendingRun(s, j, i + 1)
    && (j < i ==> forall k, m :: lo <= k < j < m <= i ==> s[k].ccc <= s[m].ccc)
  }

  lemma ShiftStep(before: Marks, s: Marks, lo: int, j: int, i: int)
    requires Shifting(before, s, lo, j, i) && lo < j && s[j - 1].ccc > s[j].ccc
    ensures Shifting(before, s[j := s[j - 1]][j - 1 := s[j]], lo, j - 1, i)
  {
    var next := s[j := s[j - 1]][j - 1 := s[j]];
    assert ExchangedAt(s, next, j - 1) by { assert next == s[j - 1 := s[j]][j := s[j - 1]]; }
    ShiftEquivalent(before, s, next, j - 1);
    hide Equivalent, ExchangedAt;
  }

  lemma ShiftEquivalent(before: Marks, s: Marks, next: Marks, k: nat)
    requires Equivalent(before, s) && ExchangedAt(s, next, k)
    ensures Equivalent(before, next)
  {
    ExchangeEquivalent(s, next, k);
  }

  lemma ShiftDone(before: Marks, s: Marks, lo: int, j: int, i: int)
    requires Shifting(before, s, lo, j, i) && (j > lo ==> s[j - 1].ccc <= s[j].ccc)
    ensures SortedRun(before, s, lo, i + 1)
  {
    hide Equivalent;
  }

  /** Shifting one mark back past larger classes is a chain of exchanges: `x` goes to `j` at the end. */
  method InsertMark(a: array<Mark>, lo: int, i: int)
    requires Run(a[..], lo, i + 1) && lo <= i < a.Length && AscendingRun(a[..], lo, i)
    modifies a
    ensures SortedRun(old(a[..]), a[..], lo, i + 1)
  {
    var x := a[i];
    var j := i;
    ghost var filled := a[..];
    while j > lo && a[j - 1].ccc > x.ccc
      invariant lo <= j <= i && filled == a[..][j := x]
      invariant Shifting(old(a[..]), filled, lo, j, i)
      decreases j
    {
      hide Shifting;
      ShiftStep(old(a[..]), filled, lo, j, i);
      a[j] := a[j - 1];
      filled := filled[j := filled[j - 1]][j - 1 := x];
      j := j - 1;
    }
    hide Shifting;
    a[j] := x;
    ShiftDone(old(a[..]), filled, lo, j, i);
  }

  method InsertionSort(a: array<Mark>, lo: int, hi: int)
    requires Run(a[..], lo, hi) && hi - lo >= 2
    modifies a
    ensures SortedRun(old(a[..]), a[..], lo, hi)
  {
    for i := lo + 1 to hi
      invariant SortedRun(old(a[..]), a[..], lo, i) && Run(a[..], lo, hi)
    {
      hide Equivalent;
      ghost var s := a[..];
      InsertMark(a, lo, i);
      Sorted(old(a[..]), s, a[..], lo, i, hi);
    }
  }

  lemma Sorted(before: Marks, s: Marks, t: Marks, lo: int, i: int, hi: int)
    requires lo < i < hi && SortedRun(before, s, lo, i) && Run(s, lo, hi) && SortedRun(s, t, lo, i + 1)
    ensures SortedRun(before, t, lo, i + 1) && Run(t, lo, hi)
  {
    assert forall c :: Project(before, c) == Project(s, c) == Project(t, c);
  }

  // ---- Counting sort, for long runs ----

  /** The marks of class `c` among the first `n`, in order. */
  function Of(s: Marks, n: nat, c: int): (r: Marks)
    requires n <= |s|
    ensures |r| <= n
  {
    if n == 0 then [] else Of(s, n - 1, c) + (if s[n - 1].ccc == c then [s[n - 1]] else [])
  }

  /** How many marks have a class below `c`: where the marks of class `c` start once sorted. */
  function Start(s: Marks, c: nat): nat {
    if c == 0 then 0 else Start(s, c - 1) + |Of(s, |s|, c - 1)|
  }

  /** The marks of all classes below `c`, class by class. */
  function Buckets(s: Marks, c: nat): (r: Marks)
    ensures |r| == Start(s, c)
  {
    if c == 0 then [] else Buckets(s, c - 1) + Of(s, |s|, c - 1)
  }

  lemma {:induction false} OfGrows(s: Marks, n: nat, m: nat, c: int)
    requires n <= m <= |s|
    ensures |Of(s, n, c)| <= |Of(s, m, c)| && Of(s, n, c) == Of(s, m, c)[..|Of(s, n, c)|]
    decreases m - n
  {
    if n == m {
    } else {
      OfGrows(s, n, m - 1, c);
    }
  }

  lemma {:induction false} StartGrows(s: Marks, c: nat, d: nat)
    requires c < d
    ensures Start(s, c) + |Of(s, |s|, c)| <= Start(s, d)
    decreases d
  {
    if c < d - 1 { StartGrows(s, c, d - 1); }
  }

  /** How many of the first `n` marks have a class below `c`. */
  function CountBelow(s: Marks, n: nat, c: int): (k: nat)
    requires n <= |s|
    ensures k <= n
    ensures (forall i :: 0 <= i < n ==> s[i].ccc < c) ==> k == n
    ensures (forall i :: 0 <= i < n ==> s[i].ccc >= c) ==> k == 0
  {
    if n == 0 then 0 else CountBelow(s, n - 1, c) + (if s[n - 1].ccc < c then 1 else 0)
  }

  lemma {:induction false} CountNext(s: Marks, n: nat, c: int)
    requires n <= |s|
    ensures CountBelow(s, n, c + 1) == CountBelow(s, n, c) + |Of(s, n, c)|
    decreases n
  {
    if n == 0 {
    } else {
      CountNext(s, n - 1, c);
    }
  }

  lemma {:induction false} StartIsCount(s: Marks, c: nat)
    requires forall i :: 0 <= i < |s| ==> s[i].ccc >= 0
    ensures Start(s, c) == CountBelow(s, |s|, c)
  {
    hide Of, CountBelow;
    if c == 0 {
    } else {
      StartIsCount(s, c - 1);
      CountNext(s, |s|, c - 1);
    }
  }

  /** The first `n` marks are where the sorted text has them. */
  predicate Placed(out: Marks, s: Marks, n: nat, c: nat) {
    && n <= |s| && Start(s, c) + |Of(s, n, c)| <= |out|
    && forall k :: 0 <= k < |Of(s, n, c)| ==> out[Start(s, c) + k] == Of(s, n, c)[k]
  }

  /** Putting one more mark at its class's next place disturbs no other class. */
  lemma PlaceNext(out: Marks, s: Marks, n: nat, at: nat, c: nat)
    requires n < |s| == |out| && 0 <= s[n].ccc < CLASSES && Start(s, CLASSES) == |s| && c < CLASSES
    requires Placed(out, s, n, c) && at == Start(s, s[n].ccc) + |Of(s, n, s[n].ccc)|
    ensures at < |out| && Placed(out[at := s[n]], s, n + 1, c)
  {
    var d := s[n].ccc;
    OfGrows(s, n + 1, |s|, d);
    OfGrows(s, n + 1, |s|, c);
    StartGrows(s, d, CLASSES);
    if c < d {
      StartGrows(s, c, d);
    } else if d < c {
      StartGrows(s, d, c);
      StartGrows(s, c, CLASSES);
    } else {
      assert Of(s, n + 1, d) == Of(s, n, d) + [s[n]];
    }
  }

  lemma BucketStands(out: Marks, from: nat, bucket: Marks)
    requires from + |bucket| <= |out| && forall k :: 0 <= k < |bucket| ==> out[from + k] == bucket[k]
    ensures out[..from + |bucket|] == out[..from] + bucket
  {
    var whole, parts := out[..from + |bucket|], out[..from] + bucket;
    forall i | 0 <= i < |whole| ensures whole[i] == parts[i] {
      if i >= from { assert out[from + (i - from)] == bucket[i - from]; }
    }
  }

  lemma NextBucket(s: Marks, c: nat)
    ensures Start(s, c + 1) == Start(s, c) + |Of(s, |s|, c)| && Buckets(s, c + 1) == Buckets(s, c) + Of(s, |s|, c)
  {}

  /** One more class's bucket stands right behind the others. */
  lemma PlacedBucket(out: Marks, s: Marks, c: nat)
    requires Placed(out, s, |s|, c) && Start(s, c) <= |out| && out[..Start(s, c)] == Buckets(s, c)
    ensures Start(s, c + 1) <= |out| && out[..Start(s, c + 1)] == Buckets(s, c + 1)
  {
    hide Of, Start, Buckets;
    BucketStands(out, Start(s, c), Of(s, |s|, c));
    NextBucket(s, c);
  }

  lemma {:induction false} AllPlaced(out: Marks, s: Marks, c: nat)
    requires c <= CLASSES && forall d: nat :: d < CLASSES ==> Placed(out, s, |s|, d)
    ensures Start(s, c) <= |out| && out[..Start(s, c)] == Buckets(s, c)
  {
    hide Placed, Of;
    if c == 0 {
    } else {
      AllPlaced(out, s, c - 1);
      PlacedBucket(out, s, c - 1);
    }
  }

  // ---- The buckets are the sorted run ----

  lemma {:induction false} OfClass(s: Marks, n: nat, c: int)
    requires n <= |s|
    ensures forall k :: 0 <= k < |Of(s, n, c)| ==> Of(s, n, c)[k].ccc == c
    decreases n
  {
    if n == 0 {
    } else {
      OfClass(s, n - 1, c);
    }
  }

  lemma {:induction false} ProjectIsOf(s: Marks, n: nat, c: int)
    requires n <= |s| && forall i :: 0 <= i < n ==> s[i].ccc > 0
    ensures Project(s[..n], c) == Of(s, n, c)
    decreases n
  {
    if n == 0 {
    } else {
      ProjectIsOf(s, n - 1, c);
      assert s[..n] == s[..n - 1] + [s[n - 1]];
      ProjectConcat(s[..n - 1], [s[n - 1]], c);
    }
  }

  lemma {:induction false} ProjectAll(s: Marks, c: int)
    requires forall i :: 0 <= i < |s| ==> s[i].ccc == c
    ensures Project(s, c) == s
  {
    if s == [] {
    } else {
      ProjectAll(s[1..], c);
    }
  }

  lemma {:induction false} ProjectNone(s: Marks, c: int)
    requires forall i :: 0 <= i < |s| ==> s[i].ccc != c && s[i].ccc != 0
    ensures Project(s, c) == []
  {
    if s == [] {
    } else {
      ProjectNone(s[1..], c);
    }
  }

  /** A bucket shows its own class and no other. */
  lemma ProjectBucket(s: Marks, n: nat, c: int)
    requires forall i :: 0 <= i < |s| ==> s[i].ccc > 0
    ensures Project(Of(s, |s|, n), c) == if c == n then Of(s, |s|, n) else []
  {
    OfClass(s, |s|, n);
    if n == 0 {
      NoStarters(s, |s|);
    } else if c == n {
      ProjectAll(Of(s, |s|, n), c);
    } else {
      ProjectNone(Of(s, |s|, n), c);
    }
  }

  /** What bucket `n` holds of class `c`, and what the buckets below `n` hold of it. */
  function InBucket(s: Marks, n: nat, c: int): Marks { if c == n then Of(s, |s|, n) else [] }

  function InBuckets(s: Marks, n: nat, c: int): Marks { if 0 <= c < n then Of(s, |s|, c) else [] }

  lemma InNextBucket(s: Marks, n: nat, c: int)
    ensures InBuckets(s, n, c) + InBucket(s, n, c) == InBuckets(s, n + 1, c)
  {
    hide Of;
    EmptySides(InBuckets(s, n, c), InBucket(s, n, c));
  }

  lemma ProjectNextBucket(s: Marks, n: nat, c: int)
    requires forall i :: 0 <= i < |s| ==> s[i].ccc > 0
    ensures Project(Buckets(s, n + 1), c) == Project(Buckets(s, n), c) + InBucket(s, n, c)
  {
    NextBucket(s, n);
    hide Buckets, Project, Of;
    ProjectConcat(Buckets(s, n), Of(s, |s|, n), c);
    ProjectBucket(s, n, c);
  }

  lemma NoBuckets(s: Marks, c: int)
    ensures Project(Buckets(s, 0), c) == InBuckets(s, 0, c)
  {}

  lemma {:induction false} ProjectBuckets(s: Marks, n: nat, c: int)
    requires forall i :: 0 <= i < |s| ==> s[i].ccc > 0
    ensures Project(Buckets(s, n), c) == InBuckets(s, n, c)
  {
    NoBuckets(s, c);
    hide *;
    if n == 0 {
    } else {
      ProjectBuckets(s, n - 1, c);
      ProjectNextBucket(s, n - 1, c);
      InNextBucket(s, n - 1, c);
    }
  }

  lemma EmptySides(p: Marks, q: Marks)
    ensures p == [] ==> p + q == q
    ensures q == [] ==> p + q == p
  {}

  lemma {:induction false} NoStarters(s: Marks, n: nat)
    requires n <= |s| && forall i :: 0 <= i < |s| ==> s[i].ccc > 0
    ensures Of(s, n, 0) == []
    decreases n
  {
    if n == 0 {
    } else {
      NoStarters(s, n - 1);
    }
  }

  lemma {:induction false} BucketsAscend(s: Marks, n: nat)
    ensures forall i, j :: 0 <= i < j < |Buckets(s, n)| ==> Buckets(s, n)[i].ccc <= Buckets(s, n)[j].ccc
    ensures forall i :: 0 <= i < |Buckets(s, n)| ==> 0 <= Buckets(s, n)[i].ccc < n
  {
    if n == 0 {
    } else {
      BucketsAscend(s, n - 1);
      OfClass(s, |s|, n - 1);
    }
  }

  lemma BucketsEquivalent(s: Marks)
    requires forall i :: 0 <= i < |s| ==> 0 < s[i].ccc < CLASSES
    ensures Equivalent(s, Buckets(s, CLASSES)) && |Buckets(s, CLASSES)| == |s|
  {
    StartIsCount(s, CLASSES);
    forall c ensures Project(s, c) == Project(Buckets(s, CLASSES), c) {
      assert s[..|s|] == s;
      ProjectIsOf(s, |s|, c);
      ProjectBuckets(s, CLASSES, c);
      if !(0 <= c < CLASSES) { ProjectNone(s, c); }
    }
  }

  lemma ProjectMiddle(a: Marks, b: Marks, c: Marks, k: int)
    ensures Project(a + b + c, k) == Project(a, k) + Project(b, k) + Project(c, k)
  {
    ProjectConcat(a + b, c, k);
    ProjectConcat(a, b, k);
  }

  lemma SplicedEquivalent(before: Marks, lo: int, hi: int, run: Marks)
    requires 0 <= lo <= hi <= |before| && Equivalent(before[lo..hi], run)
    ensures Equivalent(before, before[..lo] + run + before[hi..])
  {
    var pre, mid, post := before[..lo], before[lo..hi], before[hi..];
    assert before == pre + mid + post;
    hide Project;
    forall c ensures Project(before, c) == Project(pre + run + post, c) {
      ProjectMiddle(pre, mid, post, c);
      ProjectMiddle(pre, run, post, c);
    }
  }

  lemma SplicedRun(before: Marks, after: Marks, lo: int, hi: int)
    requires Run(before, lo, hi) && |after| == |before|
    requires after == before[..lo] + Buckets(before[lo..hi], CLASSES) + before[hi..]
    ensures SortedRun(before, after, lo, hi)
  {
    var run := before[lo..hi];
    var bs := Buckets(run, CLASSES);
    BucketsEquivalent(run);
    SplicedEquivalent(before, lo, hi, bs);
    BucketsAscend(run, CLASSES);
    forall k | 0 <= k < |bs| ensures bs[k].ccc > 0 { BucketMember(run, CLASSES, k); }
    hide Equivalent, Buckets, Start;
    forall k | lo <= k < hi ensures after[k] == bs[k - lo] {}
  }

  lemma BucketMember(s: Marks, n: nat, k: nat)
    requires n <= CLASSES && k < |Buckets(s, n)| && forall i :: 0 <= i < |s| ==> s[i].ccc > 0
    ensures Buckets(s, n)[k].ccc > 0
  {
    if k < |Buckets(s, n - 1)| {
      BucketMember(s, n - 1, k);
    } else {
      OfClass(s, |s|, n - 1);
      if n == 1 { NoStarters(s, |s|); }
    }
  }

  predicate Classes(s: Marks) { forall i :: 0 <= i < |s| ==> 0 < s[i].ccc < CLASSES }

  /** The histogram of the first `n` marks. */
  predicate Counted(counts: seq<int>, s: Marks, n: nat) {
    |counts| == CLASSES && n <= |s| && forall c :: 0 <= c < CLASSES ==> counts[c] == |Of(s, n, c)|
  }

  lemma CountStep(counts: seq<int>, s: Marks, n: nat)
    requires Classes(s) && n < |s| && Counted(counts, s, n)
    ensures var c := s[n].ccc; Counted(counts[c := counts[c] + 1], s, n + 1)
  {}

  lemma NothingCounted(counts: seq<int>, s: Marks)
    requires |counts| == CLASSES && forall c :: 0 <= c < CLASSES ==> counts[c] == 0
    ensures Counted(counts, s, 0)
  {}

  method CountMark(run: Marks, counts: array<int>, i: nat)
    requires Classes(run) && i < |run| && Counted(counts[..], run, i)
    modifies counts
    ensures Counted(counts[..], run, i + 1)
  {
    CountStep(counts[..], run, i);
    var c := run[i].ccc;
    assert 0 <= c < counts.Length;
    hide *;
    counts[c] := counts[c] + 1;
  }

  method Histogram(run: Marks) returns (counts: array<int>)
    requires Classes(run)
    ensures fresh(counts) && counts.Length == CLASSES && Counted(counts[..], run, |run|)
  {
    counts := new int[CLASSES](i => 0);
    hide *;
    NothingCounted(counts[..], run);
    for i := 0 to |run|
      invariant Counted(counts[..], run, i)
    {
      CountMark(run, counts, i);
    }
  }

  /** Histogram entries below `i` turned into where their class starts. */
  predicate Offsets(counts: seq<int>, s: Marks, i: nat) {
    && |counts| == CLASSES && i <= CLASSES
    && (forall c: nat :: c < i ==> counts[c] == Start(s, c))
    && forall c :: i <= c < CLASSES ==> counts[c] == |Of(s, |s|, c)|
  }

  lemma OffsetStep(counts: seq<int>, s: Marks, i: nat)
    requires i < CLASSES && Offsets(counts, s, i)
    ensures Offsets(counts[i := Start(s, i)], s, i + 1) && Start(s, i + 1) == Start(s, i) + counts[i]
  {}

  method PrefixSums(counts: array<int>, ghost run: Marks)
    requires counts.Length == CLASSES && Counted(counts[..], run, |run|)
    modifies counts
    ensures Offsets(counts[..], run, CLASSES)
  {
    var sum := 0;
    for i := 0 to CLASSES
      invariant sum == Start(run, i) && Offsets(counts[..], run, i)
    {
      hide Offsets, Of, Start;
      OffsetStep(counts[..], run, i);
      counts[i], sum := sum, sum + counts[i];
    }
  }

  /** The first `n` marks put out, and each class's next place. */
  ghost predicate PutOut(counts: seq<int>, out: Marks, s: Marks, n: nat) {
    && |counts| == CLASSES && n <= |s| == |out|
    && (forall c: nat :: c < CLASSES ==> counts[c] == Start(s, c) + |Of(s, n, c)|)
    && forall c: nat :: c < CLASSES ==> Placed(out, s, n, c)
  }

  lemma PutNext(counts: seq<int>, out: Marks, s: Marks, n: nat)
    requires Classes(s) && n < |s| && Start(s, CLASSES) == |s| && PutOut(counts, out, s, n)
    ensures var c := s[n].ccc;
            0 <= c < |counts| && 0 <= counts[c] < |out| && PutOut(counts[c := counts[c] + 1], out[counts[c] := s[n]], s, n + 1)
  {
    var d := s[n].ccc;
    PlaceNext(out, s, n, counts[d], d);
    var at := counts[d];
    var next, m := out[at := s[n]], n + 1;
    hide Placed;
    forall c: nat | c < CLASSES ensures Placed(next, s, m, c) {
      PlaceNext(out, s, n, at, c);
      assert Placed(next, s, m, c);
    }
    assert forall c: nat :: c < CLASSES && c != d ==> |Of(s, n + 1, c)| == |Of(s, n, c)|;
  }

  lemma StartTotal(s: Marks)
    requires Classes(s)
    ensures Start(s, CLASSES) == |s|
  {
    StartIsCount(s, CLASSES);
  }

  method PutMark(run: Marks, counts: array<int>, out: array<Mark>, m: nat)
    requires Classes(run) && m < |run| && PutOut(counts[..], out[..], run, m)
    modifies counts, out
    ensures PutOut(counts[..], out[..], run, m + 1)
  {
    StartTotal(run);
    hide *;
    PutNext(counts[..], out[..], run, m);
    var x := run[m];
    out[counts[x.ccc]] := x;
    counts[x.ccc] := counts[x.ccc] + 1;
  }

  method Distribute(run: Marks, counts: array<int>) returns (out: array<Mark>)
    requires Classes(run) && counts.Length == CLASSES && Offsets(counts[..], run, CLASSES)
    modifies counts
    ensures fresh(out) && out[..] == Buckets(run, CLASSES) && out.Length == |run|
  {
    hide *;
    StartTotal(run);
    out := new Mark[|run|](_ => Mark(0, 0));
    NothingPut(counts[..], out[..], run);
    for m := 0 to |run|
      invariant PutOut(counts[..], out[..], run, m)
    {
      PutMark(run, counts, out, m);
    }
    AllPut(counts[..], out[..], run);
  }

  lemma AllPut(counts: seq<int>, out: Marks, s: Marks)
    requires Classes(s) && PutOut(counts, out, s, |s|)
    ensures out == Buckets(s, CLASSES)
  {
    StartTotal(s);
    AllPlaced(out, s, CLASSES);
    assert out[..|s|] == out;
  }

  lemma NothingPut(counts: seq<int>, out: Marks, s: Marks)
    requires Classes(s) && Offsets(counts, s, CLASSES) && |out| == |s| == Start(s, CLASSES)
    ensures PutOut(counts, out, s, 0)
  {
    forall c: nat | c < CLASSES ensures Placed(out, s, 0, c) {
      StartGrows(s, c, CLASSES);
    }
  }

  method CountingSort(a: array<Mark>, lo: int, hi: int)
    requires Run(a[..], lo, hi)
    modifies a
    ensures SortedRun(old(a[..]), a[..], lo, hi)
  {
    ghost var before := a[..];
    var run := a[lo..hi];
    assert run == before[lo..hi];
    var counts := Histogram(run);
    PrefixSums(counts, run);
    var out := Distribute(run, counts);
    CopyBack(a, lo, out);
    SplicedRun(before, a[..], lo, hi);
  }

  method CopyBack(a: array<Mark>, lo: nat, out: array<Mark>)
    requires a != out && lo + out.Length <= a.Length
    modifies a
    ensures a[..] == old(a[..lo]) + out[..] + old(a[lo + out.Length..])
  {
    for i := 0 to out.Length
      invariant forall k :: 0 <= k < a.Length ==> a[k] == if lo <= k < lo + i then out[k - lo] else old(a[k])
    {
      a[lo + i] := out[i];
    }
  }

  method SortByCcc(a: array<Mark>, lo: int, hi: int)
    requires Run(a[..], lo, hi)
    modifies a
    ensures SortedRun(old(a[..]), a[..], lo, hi)
  {
    hide AscendingRun;
    if hi - lo < 2 {
      ShortSorted(a[..], lo, hi);
      return;
    }
    if hi - lo <= INSERTION_MAX {
      InsertionSort(a, lo, hi);
    } else {
      CountingSort(a, lo, hi);
    }
  }

  lemma ShortSorted(s: Marks, lo: int, hi: int)
    requires Run(s, lo, hi) && hi - lo < 2
    ensures SortedRun(s, s, lo, hi)
  {}

  lemma RunProjects(s: Marks, t: Marks, lo: int, hi: int, c: int)
    requires 0 <= lo <= hi <= |s| && SameOutside(s, t, lo, hi) && Project(s, c) == Project(t, c)
    ensures Project(s[lo..hi], c) == Project(t[lo..hi], c)
  {
    assert s == s[..lo] + s[lo..hi] + s[hi..] && t == s[..lo] + t[lo..hi] + s[hi..];
    ProjectConcat(s[..lo] + s[lo..hi], s[hi..], c);
    ProjectConcat(s[..lo], s[lo..hi], c);
    ProjectConcat(s[..lo] + t[lo..hi], s[hi..], c);
    ProjectConcat(s[..lo], t[lo..hi], c);
    var x, y, pre, post := Project(s[lo..hi], c), Project(t[lo..hi], c), Project(s[..lo], c), Project(s[hi..], c);
    Cancel(pre, x, y, post);
  }

  lemma Cancel(pre: Marks, x: Marks, y: Marks, post: Marks)
    requires pre + x + post == pre + y + post
    ensures x == y
  {
    assert |x| == |y|;
    assert x == (pre + x + post)[|pre|..|pre| + |x|] && y == (pre + y + post)[|pre|..|pre| + |y|];
  }

  lemma RunInOrder(s: Marks, lo: int, hi: int)
    requires Run(s, lo, hi) && AscendingRun(s, lo, hi)
    ensures InOrder(s[lo..hi]) && Classed(s[lo..hi])
  {}

  /** A run has one stable sort, so the insertion sort and the counting sort agree at every length. */
  lemma SortsAgree(s: Marks, t: Marks, u: Marks, lo: int, hi: int)
    requires Run(s, lo, hi) && SortedRun(s, t, lo, hi) && SortedRun(s, u, lo, hi)
    ensures t == u
  {
    forall c ensures Project(t[lo..hi], c) == Project(u[lo..hi], c) {
      RunProjects(s, t, lo, hi, c);
      RunProjects(s, u, lo, hi, c);
    }
    RunInOrder(t, lo, hi);
    RunInOrder(u, lo, hi);
    OrderUnique(t[lo..hi], u[lo..hi]);
    forall k | 0 <= k < |s| ensures t[k] == u[k] {
      if lo <= k < hi { assert t[lo..hi][k - lo] == u[lo..hi][k - lo]; }
    }
  }

  // ---- Ordering the whole text ----

  predicate StartersFixed(s: Marks, t: Marks) {
    |s| == |t| && forall k :: 0 <= k < |s| ==> (s[k].ccc == 0 <==> t[k].ccc == 0) && (s[k].ccc == 0 ==> t[k] == s[k])
  }

  /** Everything before `i` is ordered, everything from `i` on is as it was, and no run crosses `i`. */
  ghost predicate OrderedTo(before: Marks, s: Marks, i: int) {
    && 0 <= i <= |s| && Classed(s) && StartersFixed(before, s) && Equivalent(before, s)
    && (forall k :: 0 <= k < i - 1 ==> !Reorderable(s[k], s[k + 1]))
    && (0 < i < |s| ==> s[i - 1].ccc == 0 || s[i].ccc == 0)
  }

  lemma OrderedStarter(before: Marks, s: Marks, i: int)
    requires OrderedTo(before, s, i) && i < |s| && s[i].ccc == 0
    ensures OrderedTo(before, s, i + 1)
  {
    hide Equivalent;
  }

  lemma OrderedRun(before: Marks, s: Marks, t: Marks, i: int, j: int)
    requires OrderedTo(before, s, i) && i < j && Run(s, i, j) && SortedRun(s, t, i, j)
    requires j < |s| ==> s[j].ccc == 0
    ensures OrderedTo(before, t, j)
  {
    assert forall c :: Project(before, c) == Project(s, c) == Project(t, c);
    hide Equivalent;
    forall k | 0 <= k < j - 1 ensures !Reorderable(t[k], t[k + 1]) {
      if k < i - 1 { assert !Reorderable(s[k], s[k + 1]); }
    }
  }

  /** The text is put in canonical order in place, with every starter where it was. */
  method Order(a: array<Mark>)
    requires Classed(a[..])
    modifies a
    ensures CanonicalOrdering(old(a[..]), a[..]) && StartersFixed(old(a[..]), a[..])
  {
    ghost var before := a[..];
    var i := 0;
    while i < a.Length
      invariant OrderedTo(before, a[..], i)
    {
      if a[i].ccc == 0 {
        OrderedStarter(before, a[..], i);
        i := i + 1;
        continue;
      }
      assert Classed(a[..]);
      hide OrderedTo;
      var j := i;
      while j < a.Length && a[j].ccc != 0
        invariant i <= j <= a.Length && Run(a[..], i, j)
      {
        j := j + 1;
      }
      ghost var s := a[..];
      SortByCcc(a, i, j);
      OrderedRun(before, s, a[..], i, j);
      i := j;
    }
    OneCanonicalOrdering(before, a[..]);
  }

  // ---- What ordered text looks like ----

  ghost predicate Kept(s: Marks, t: Marks) { |t| == |s| && multiset(t) == multiset(s) && forall i :: 0 <= i < |s| && s[i].ccc <= 0 ==> t[i] == s[i] }

  lemma ExchangeKeeps(s: Marks, u: Marks, i: nat)
    requires ExchangedAt(s, u, i)
    ensures Kept(s, u)
  {
    SameMarks(s, u, i);
    hide Reorderable;
  }

  lemma SameMarks(s: Marks, u: Marks, i: nat)
    requires i + 1 < |s| && u == s[i := s[i + 1]][i + 1 := s[i]]
    ensures multiset(u) == multiset(s)
  {
    var p, a, b, q := s[..i], s[i], s[i + 1], s[i + 2..];
    assert s == p + [a, b] + q && u == p + [b, a] + q;
    PairEitherWay(p, a, b, q);
  }

  lemma PairEitherWay(p: Marks, a: Mark, b: Mark, q: Marks)
    ensures multiset(p + [a, b] + q) == multiset(p + [b, a] + q)
  {}

  lemma {:induction false} ExchangesKeep(s: Marks, t: Marks, n: nat)
    requires Reorders(s, t, n)
    ensures Kept(s, t)
    decreases n
  {
    if n == 0 {
    } else {
      var u, i: nat :| ExchangedAt(s, u, i) && Reorders(u, t, n - 1);
      hide ExchangedAt, Reorders;
      ExchangeKeeps(s, u, i);
      ExchangesKeep(u, t, n - 1);
    }
  }

  /** The marks are those of the text, starters are where they were, and between them classes ascend. */
  lemma OrderShown(s: Marks, t: Marks)
    requires CanonicalOrdering(s, t)
    ensures |t| == |s| && multiset(t) == multiset(s) && forall i :: 0 <= i < |s| && s[i].ccc == 0 ==> t[i] == s[i]
    ensures forall i :: 0 <= i < |t| - 1 && t[i + 1].ccc > 0 ==> t[i].ccc <= t[i + 1].ccc
  {
    var n: nat :| Reorders(s, t, n);
    ExchangesKeep(s, t, n);
  }
}
