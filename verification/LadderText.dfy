/** What the ladder's third and fourth rung answer, read off the lines of the files: how much of the anchored text
  * and of its surroundings stands where.
  */
module LadderText {
  import opened Options
  import opened Strings
  import opened Ladder

  // ---- Lines that agree ----

  /** The places at which two texts laid over each other from the top agree. */
  function Agreeing(a: seq<string>, b: seq<string>): set<nat> { set i: nat | i < |a| && i < |b| && a[i] == b[i] }

  /** The same, laid over each other from the bottom: the last line of each is at one. */
  function AgreeingBack(a: seq<string>, b: seq<string>): set<nat> {
    set i: nat | i < |a| && i < |b| && FromEnd(a, i) == FromEnd(b, i)
  }

  function FromEnd(a: seq<string>, i: nat): string
    requires i < |a|
  {
    a[|a| - 1 - i]
  }

  predicate EndsWith(text: seq<string>, tail: seq<string>) { |tail| <= |text| && text[|text| - |tail|..] == tail }

  lemma {:induction false} AgreeingNext(a: seq<string>, b: seq<string>, n: nat)
    requires n < |b|
    ensures |Agreeing(a, b[..n + 1])| == |Agreeing(a, b[..n])| + if n < |a| && a[n] == b[n] then 1 else 0
  {
    if n < |a| && a[n] == b[n] {
      assert Agreeing(a, b[..n + 1]) == Agreeing(a, b[..n]) + {n};
    } else {
      assert Agreeing(a, b[..n + 1]) == Agreeing(a, b[..n]);
    }
  }

  lemma {:induction false} AgreeingBackNext(a: seq<string>, b: seq<string>, n: nat)
    requires n < |b|
    ensures var longer, shorter := b[|b| - n - 1..], b[|b| - n..];
            |AgreeingBack(a, longer)| == |AgreeingBack(a, shorter)| + if n < |a| && a[|a| - n - 1] == b[|b| - n - 1] then 1 else 0
  {
    var longer, shorter := b[|b| - n - 1..], b[|b| - n..];
    forall i: nat | i < n ensures FromEnd(longer, i) == FromEnd(shorter, i) { SameFromEnd(b, n, i); }
    assert FromEnd(longer, n) == b[|b| - n - 1];
    assert n < |a| ==> FromEnd(a, n) == a[|a| - n - 1];
    hide FromEnd, AgreeingBack;
    OneMoreAgrees(a, shorter, longer);
  }

  lemma {:induction false} OneMoreAgrees(a: seq<string>, shorter: seq<string>, longer: seq<string>)
    requires |longer| == |shorter| + 1 && forall i: nat :: i < |shorter| ==> FromEnd(longer, i) == FromEnd(shorter, i)
    ensures var n := |shorter|;
            |AgreeingBack(a, longer)| == |AgreeingBack(a, shorter)| + if n < |a| && FromEnd(a, n) == FromEnd(longer, n) then 1 else 0
  {
    hide FromEnd;
    var n := |shorter|;
    if n < |a| && FromEnd(a, n) == FromEnd(longer, n) {
      assert AgreeingBack(a, longer) == AgreeingBack(a, shorter) + {n};
    } else {
      assert AgreeingBack(a, longer) == AgreeingBack(a, shorter);
    }
  }

  lemma {:induction false} SameFromEnd(b: seq<string>, n: nat, i: nat)
    requires i < n < |b|
    ensures FromEnd(b[|b| - n - 1..], i) == FromEnd(b[|b| - n..], i)
  {}

  // ---- What the counts count ----

  function Above(lines: seq<string>, start: int): seq<string>
    requires 1 <= start <= |lines| + 1
  {
    lines[..start - 1]
  }

  function Under(lines: seq<string>, start: int, length: int): seq<string>
    requires 1 <= start && 0 <= length <= |lines| - start + 1
  {
    lines[start - 1 + length..]
  }

  function Part(lines: seq<string>, start: int, length: int): seq<string>
    requires 1 <= start && 0 <= length <= |lines| - start + 1
  {
    lines[start - 1..start - 1 + length]
  }

  lemma {:induction false} BeforeCounts(lines: seq<string>, q: Query, start: int, n: nat)
    requires Inside(lines, q, start) && n <= |q.before|
    ensures BeforeHits(lines, q, start, n) == |AgreeingBack(Above(lines, start), q.before[|q.before| - n..])|
    decreases n
  {
    var above := Above(lines, start);
    if n == 0 {
      assert AgreeingBack(above, q.before[|q.before|..]) == {};
    } else {
      BeforeCounts(lines, q, start, n - 1);
      AgreeingBackNext(above, q.before, n - 1);
    }
  }

  lemma {:induction false} AfterCounts(lines: seq<string>, q: Query, start: int, n: nat)
    requires Inside(lines, q, start) && n <= |q.after|
    ensures AfterHits(lines, q, start, n) == |Agreeing(Under(lines, start, q.length), q.after[..n])|
    decreases n
  {
    var under := Under(lines, start, q.length);
    if n == 0 {
      assert Agreeing(under, q.after[..0]) == {};
    } else {
      AfterCounts(lines, q, start, n - 1);
      AgreeingNext(under, q.after, n - 1);
    }
  }

  /** The collar is the number of lines above and below the window that are as they were around the anchor. */
  lemma {:induction false} CollarCounts(lines: seq<string>, q: Query, start: int)
    requires Inside(lines, q, start)
    ensures Collar(lines, q, start) == |AgreeingBack(Above(lines, start), q.before)| + |Agreeing(Under(lines, start, q.length), q.after)|
  {
    BeforeCounts(lines, q, start, |q.before|);
    AfterCounts(lines, q, start, |q.after|);
    assert q.before[|q.before| - |q.before|..] == q.before && q.after[..|q.after|] == q.after;
  }

  lemma {:induction false} LinesCount(lines: seq<string>, q: Query, start: int, n: nat)
    requires Inside(lines, q, start) && n <= Compared(q) && (q.elided ==> n <= 32)
    ensures LineHits(lines, q, start, n) == |Agreeing(Part(lines, start, q.length), q.lines[..n])|
    decreases n
  {
    var part := Part(lines, start, q.length);
    if n == 0 {
      assert Agreeing(part, q.lines[..0]) == {};
    } else {
      LinesCount(lines, q, start, n - 1);
      AgreeingNext(part, q.lines, n - 1);
    }
  }

  lemma {:induction false} LastLinesCount(lines: seq<string>, q: Query, start: int, n: nat)
    requires Inside(lines, q, start) && q.elided && |q.lines| >= 64 && n <= 32
    ensures LineHits(lines, q, start, 32 + n) == LineHits(lines, q, start, 32) + |Agreeing(Part(lines, start + q.length - 32, 32), q.lines[32..64][..n])|
    decreases n
  {
    var part, last := Part(lines, start + q.length - 32, 32), q.lines[32..64];
    if n == 0 {
      assert Agreeing(part, last[..0]) == {};
    } else {
      LastLinesCount(lines, q, start, n - 1);
      AgreeingNext(part, last, n - 1);
    }
  }

  lemma {:induction false} AgreeingStart(a: seq<string>, b: seq<string>)
    requires |b| <= |a|
    ensures Agreeing(a, b) == Agreeing(a[..|b|], b)
  {
    forall i: nat ensures i in Agreeing(a, b) <==> i in Agreeing(a[..|b|], b) {}
  }

  /** The points of a window: two for each anchored line that is at its place, one for each line around them. Of an
    * elided text the first and the last 32 lines are compared.
    */
  lemma {:induction false} ScoreCounts(lines: seq<string>, q: Query, start: int)
    requires Inside(lines, q, start)
    ensures var around := |AgreeingBack(Above(lines, start), q.before)| + |Agreeing(Under(lines, start, q.length), q.after)|;
            Score(lines, q, start) == around + 2 *
              if !q.elided then |Agreeing(Part(lines, start, q.length), q.lines)|
              else if |q.lines| < 64 then 0
              else |Agreeing(Part(lines, start, 32), q.lines[..32])| + |Agreeing(Part(lines, start + q.length - 32, 32), q.lines[32..64])|
  {
    CollarCounts(lines, q, start);
    var part := Part(lines, start, q.length);
    if !q.elided {
      LinesCount(lines, q, start, Compared(q));
      assert Agreeing(part, q.lines[..Compared(q)]) == Agreeing(part, q.lines);
    } else if |q.lines| >= 64 {
      LinesCount(lines, q, start, 32);
      LastLinesCount(lines, q, start, 32);
      assert q.lines[32..64][..32] == q.lines[32..64];
      assert part[..32] == Part(lines, start, 32);
      AgreeingStart(part, q.lines[..32]);
    }
  }

  /** A window matches exactly when the anchored text stands there: all of it, or both its kept ends. */
  lemma {:induction false} MatchesMean(lines: seq<string>, q: Query, start: int)
    requires Inside(lines, q, start)
    ensures Matches(lines, q, start) <==>
              if q.elided then
                |q.lines| >= 64 && Part(lines, start, 32) == q.lines[..32] && Part(lines, start + q.length - 32, 32) == q.lines[32..64]
              else q.length <= |q.lines| && Part(lines, start, q.length) == q.lines[..q.length]
  {
    if q.elided && |q.lines| >= 64 {
      var first, last := Part(lines, start, 32), Part(lines, start + q.length - 32, 32);
      if Matches(lines, q, start) {
        forall i | 0 <= i < 32 ensures first[i] == q.lines[i] && last[i] == q.lines[32..64][i] {
          assert LineHit(lines, q, start, i) && LineHit(lines, q, start, 32 + i);
        }
      }
      if first == q.lines[..32] && last == q.lines[32..64] {
        forall i | 0 <= i < 64 ensures LineHit(lines, q, start, i) {
          if i < 32 { assert first[i] == q.lines[..32][i]; } else { assert last[i - 32] == q.lines[32..64][i - 32]; }
        }
      }
    } else if !q.elided && q.length <= |q.lines| {
      var part := Part(lines, start, q.length);
      if Matches(lines, q, start) {
        forall i | 0 <= i < q.length ensures part[i] == q.lines[i] { assert LineHit(lines, q, start, i); }
      }
      if part == q.lines[..q.length] {
        forall i | 0 <= i < q.length ensures LineHit(lines, q, start, i) { assert part[i] == q.lines[..q.length][i]; }
      }
    }
  }

  lemma {:induction false} AllAgree(a: seq<string>, b: seq<string>)
    ensures |Agreeing(a, b)| <= |b|
    ensures |Agreeing(a, b)| == |b| <==> b <= a
    decreases |b|
  {
    if b == [] {
      assert Agreeing(a, b) == {};
    } else {
      var n := |b| - 1;
      AllAgree(a, b[..n]);
      AgreeingNext(a, b, n);
      assert b[..n + 1] == b;
      if b[..n] <= a && n < |a| && a[n] == b[n] { assert a[..|b|] == b; }
    }
  }

  lemma {:induction false} AllAgreeBack(a: seq<string>, b: seq<string>)
    ensures |AgreeingBack(a, b)| <= |b|
    ensures |AgreeingBack(a, b)| == |b| <==> EndsWith(a, b)
    decreases |b|
  {
    if b == [] {
      assert AgreeingBack(a, b) == {};
    } else {
      var n := |b| - 1;
      AllAgreeBack(a, b[1..]);
      AgreeingBackNext(a, b, n);
      assert b[|b| - n - 1..] == b && b[|b| - n..] == b[1..];
      if EndsWith(a, b) { assert a[|a| - n..] == b[1..]; }
      if EndsWith(a, b[1..]) && n < |a| && a[|a| - n - 1] == b[0] { assert a[|a| - n - 1..] == [b[0]] + a[|a| - n..]; }
    }
  }

  /** The collar is full exactly when the lines above end with those that were above, and the lines below begin
    * with those that were below.
    */
  lemma {:induction false} FullCollar(lines: seq<string>, q: Query, start: int)
    requires Inside(lines, q, start)
    ensures Collar(lines, q, start) == |q.before| + |q.after| <==>
            EndsWith(Above(lines, start), q.before) && q.after <= Under(lines, start, q.length)
  {
    CollarCounts(lines, q, start);
    AllAgreeBack(Above(lines, start), q.before);
    AllAgree(Under(lines, start, q.length), q.after);
  }

  // ---- What a whole anchor resolves to ----

  /** A version-1 anchor on whole text, whose blob is nowhere any more. */
  predicate Edited(s: SideAnchor, t: Tree) {
    && s.range.Some? && s.context.Some? && s.context.value.omitted <= 0
    && s.range.value.start <= s.range.value.end && |s.context.value.lines| == s.range.value.end - s.range.value.start + 1
    && forall p :: p in t.files ==> t.files[p].blob != s.blob
  }

  /** The anchored text stands in the file from line `k` on. */
  predicate StandsAt(s: SideAnchor, t: Tree, p: string, k: int)
    requires Edited(s, t)
  {
    var length := |s.context.value.lines|;
    && p in t.files && 1 <= k && length <= |t.files[p].lines| - k + 1
    && Part(t.files[p].lines, k, length) == s.context.value.lines
  }

  /** And so do all the lines around it. */
  predicate StandsWhole(s: SideAnchor, t: Tree, p: string, k: int)
    requires Edited(s, t)
  {
    && StandsAt(s, t, p, k)
    && EndsWith(Above(t.files[p].lines, k), s.context.value.before)
    && s.context.value.after <= Under(t.files[p].lines, k, |s.context.value.lines|)
  }

  /** How many of the lines around it do. */
  function Around(s: SideAnchor, t: Tree, p: string, k: int): nat
    requires Edited(s, t) && StandsAt(s, t, p, k)
  {
    |AgreeingBack(Above(t.files[p].lines, k), s.context.value.before)|
      + |Agreeing(Under(t.files[p].lines, k, |s.context.value.lines|), s.context.value.after)|
  }

  lemma {:induction false} StandsIsExact(s: SideAnchor, t: Tree, p: string, k: int)
    requires Edited(s, t) && s.path in t.files ==> p == s.path
    requires Edited(s, t)
    ensures StandsAt(s, t, p, k) ==>
              ExactAt(t, QueryOf(s), Exact(p, k, Around(s, t, p, k), Abs(k - s.range.value.start)))
  {
    if StandsAt(s, t, p, k) {
      var q, lines := QueryOf(s), t.files[p].lines;
      MatchesMean(lines, q, k);
      CollarCounts(lines, q, k);
      assert q.lines[..q.length] == q.lines;
    }
  }

  lemma {:induction false} ExactStands(s: SideAnchor, t: Tree, c: Exact)
    requires Edited(s, t) && ExactAt(t, QueryOf(s), c)
    ensures StandsAt(s, t, c.path, c.start) && c.collar == Around(s, t, c.path, c.start)
    ensures s.path in t.files ==> c.path == s.path
  {
    var q, lines := QueryOf(s), t.files[c.path].lines;
    MatchesMean(lines, q, c.start);
    CollarCounts(lines, q, c.start);
    assert q.lines[..q.length] == q.lines;
  }

  function Distance(a: int, b: int): nat { if a < b then b - a else a - b }

  /** Place (p, j) is chosen over place (q, k): it has more lines around it as they were; or as many and is nearer
    * to where the text was; or is as near and comes first in its file; or its path comes first.
    */
  predicate Over(s: SideAnchor, t: Tree, p: string, j: int, q: string, k: int)
    requires Edited(s, t) && StandsAt(s, t, p, j) && StandsAt(s, t, q, k)
  {
    var here, there := Around(s, t, p, j), Around(s, t, q, k);
    var was := s.range.value.start;
    && here >= there
    && (here == there ==> Distance(j, was) <= Distance(k, was))
    && (here == there && Distance(j, was) == Distance(k, was) ==> j <= k)
    && (here == there && j == k ==> p == q || Less(p, q))
  }

  /** The place chosen is chosen over every other one where the anchored text stands. */
  lemma {:induction false} ChosenPlace(s: SideAnchor, t: Tree, r: SideResult, p: string, k: int)
    requires Edited(s, t) && SideOutcome(1, s, t, r) && StandsAt(s, t, p, k) && (s.path in t.files ==> p == s.path)
    ensures r.Resolved? && r.rung == ContextExact && r.range.Some? && StandsAt(s, t, r.path, r.range.value.start)
    ensures r.range.value.end == r.range.value.start + |s.context.value.lines| - 1 && (s.path in t.files ==> r.path == s.path)
    ensures Over(s, t, r.path, r.range.value.start, p, k)
  {
    var q := QueryOf(s);
    StandsIsExact(s, t, p, k);
    var c := Exact(p, k, Around(s, t, p, k), Abs(k - s.range.value.start));
    hide ExactAt, Around, StandsAt, Less;
    var best := BestOver(s, t, r, c);
    ExactStands(s, t, best);
    DistanceIs(t, q, best);
    hide Edited, BestExact;
  }

  lemma {:induction false} BestOver(s: SideAnchor, t: Tree, r: SideResult, c: Exact) returns (best: Exact)
    requires Edited(s, t) && SideOutcome(1, s, t, r) && ExactAt(t, QueryOf(s), c)
    ensures ExactAt(t, QueryOf(s), best) && (c == best || Better(best, c))
    ensures r == Resolved(ContextExact, best.path, Some(Range(best.start, best.start + QueryOf(s).length - 1)))
  {
    assert s.range.Some?;
    hide *;
    ByContext(s, t, r);
    best := PickedOver(t, QueryOf(s), r, c);
  }

  lemma {:induction false} PickedOver(t: Tree, q: Query, r: SideResult, c: Exact) returns (best: Exact)
    requires q.length > 0 && ContextOutcome(t, q, r) && ExactAt(t, q, c)
    ensures ExactAt(t, q, best) && (c == best || Better(best, c))
    ensures r == Resolved(ContextExact, best.path, Some(Range(best.start, best.start + q.length - 1)))
  {
    hide ExactAt, Better, FuzzyOutcome;
    assert HasExact(t, q);
    best :| BestExact(t, q, best) && r == Resolved(ContextExact, best.path, Some(Range(best.start, best.start + q.length - 1)));
  }

  lemma {:induction false} ByContext(s: SideAnchor, t: Tree, r: SideResult)
    requires Edited(s, t) && SideOutcome(1, s, t, r)
    ensures ContextOutcome(t, QueryOf(s), r) && QueryOf(s).length > 0 && Searchable(QueryOf(s))
  {
    hide ContextOutcome;
  }

  lemma {:induction false} DistanceIs(t: Tree, q: Query, c: Exact)
    requires ExactAt(t, q, c)
    ensures c.distance == Abs(c.start - q.origin)
  {}

  /** Text that occurs several times, but only once with all its surroundings, is found there. */
  lemma {:induction false} FollowsSurroundings(s: SideAnchor, t: Tree, r: SideResult, start: int)
    requires Edited(s, t) && SideOutcome(1, s, t, r) && s.path in t.files
    requires forall k :: StandsWhole(s, t, s.path, k) <==> k == start
    ensures r == Resolved(ContextExact, s.path, Some(Range(start, start + |s.context.value.lines| - 1)))
  {
    assert StandsWhole(s, t, s.path, start);
    assert s.context.Some? && StandsAt(s, t, s.path, start);
    hide Edited, SideOutcome, Around, Less, StandsAt, StandsWhole;
    ChosenPlace(s, t, r, s.path, start);
    WholeAround(s, t, s.path, start);
    WholeAround(s, t, s.path, r.range.value.start);
  }

  lemma {:induction false} WholeAround(s: SideAnchor, t: Tree, p: string, k: int)
    requires Edited(s, t) && StandsAt(s, t, p, k)
    ensures Around(s, t, p, k) <= |s.context.value.before| + |s.context.value.after|
    ensures Around(s, t, p, k) == |s.context.value.before| + |s.context.value.after| <==> StandsWhole(s, t, p, k)
  {
    AllAgreeBack(Above(t.files[p].lines, k), s.context.value.before);
    AllAgree(Under(t.files[p].lines, k, |s.context.value.lines|), s.context.value.after);
  }

  // ---- Where only some of the text stands ----

  /** A window of the anchored length: in the anchor's file while it exists, else in any. */
  predicate IsWindow(s: SideAnchor, t: Tree, p: string, k: int)
    requires Edited(s, t)
  {
    && p in t.files && (s.path in t.files ==> p == s.path)
    && 1 <= k && |s.context.value.lines| <= |t.files[p].lines| - k + 1
  }

  /** Two points for each anchored line at its place, one for each line around them. */
  function Points(s: SideAnchor, t: Tree, p: string, k: int): nat
    requires Edited(s, t) && IsWindow(s, t, p, k)
  {
    var lines, c := t.files[p].lines, s.context.value;
    2 * |Agreeing(Part(lines, k, |c.lines|), c.lines)| + |AgreeingBack(Above(lines, k), c.before)| + |Agreeing(Under(lines, k, |c.lines|), c.after)|
  }

  lemma {:induction false} PointsAreScore(s: SideAnchor, t: Tree, p: string, k: int)
    requires Edited(s, t) && IsWindow(s, t, p, k)
    ensures ScoredAt(t, QueryOf(s), Scored(p, k, Points(s, t, p, k)))
  {
    ScoreCounts(t.files[p].lines, QueryOf(s), k);
    hide Score, Agreeing, AgreeingBack;
  }

  lemma {:induction false} ScoreIsPoints(s: SideAnchor, t: Tree, w: Scored)
    requires Edited(s, t) && ScoredAt(t, QueryOf(s), w)
    ensures IsWindow(s, t, w.path, w.start) && w.score == Points(s, t, w.path, w.start)
  {
    ScoreCounts(t.files[w.path].lines, QueryOf(s), w.start);
    hide Score, Agreeing, AgreeingBack;
  }

  /** No other window has as many points. */
  ghost predicate LoneBest(s: SideAnchor, t: Tree, p: string, k: int)
    requires Edited(s, t) && IsWindow(s, t, p, k)
  {
    forall q, m :: IsWindow(s, t, q, m) && (q != p || m != k) ==> Points(s, t, q, m) < Points(s, t, p, k)
  }

  /** A window has at least 60% of the points there are. */
  predicate EnoughPoints(s: SideAnchor, t: Tree, p: string, k: int)
    requires Edited(s, t) && IsWindow(s, t, p, k)
  {
    var c := s.context.value;
    100 * Points(s, t, p, k) >= 60 * (2 * |c.lines| + |c.before| + |c.after|)
  }

  lemma {:induction false} EnoughMeans(s: SideAnchor, t: Tree, p: string, k: int)
    requires Edited(s, t) && IsWindow(s, t, p, k)
    ensures var q := QueryOf(s);
            EnoughPoints(s, t, p, k) <==> 100 * Points(s, t, p, k) >= 60 * (2 * q.length + |q.before| + |q.after|)
  {
    QueryIs(s, t);
    hide Points;
  }

  ghost predicate NowhereWhole(s: SideAnchor, t: Tree)
    requires Edited(s, t)
  {
    forall p, k :: IsWindow(s, t, p, k) ==> !StandsAt(s, t, p, k)
  }

  /** Where the text stands nowhere as a whole, a window is chosen exactly when it has more points than every other
    * and at least 60% of the most there are.
    */
  lemma {:induction false} FuzzyPlace(s: SideAnchor, t: Tree, r: SideResult, p: string, k: int)
    requires Edited(s, t) && SideOutcome(1, s, t, r) && IsWindow(s, t, p, k) && NowhereWhole(s, t)
    ensures var c := s.context.value;
            r == Resolved(ContextFuzzy, p, Some(Range(k, k + |c.lines| - 1))) <==>
              LoneBest(s, t, p, k) && EnoughPoints(s, t, p, k)
  {
    hide *;
    IsRanged(s, t);
    var q := QueryOf(s);
    QueryIs(s, t);
    NoExact(s, t);
    ByContext(s, t, r);
    PointsAreScore(s, t, p, k);
    AloneMeans(s, t, p, k);
    EnoughMeans(s, t, p, k);
    var w := Scored(p, k, Points(s, t, p, k));
    AloneOnTop(t, q, r, w);
  }

  lemma {:induction false} IsRanged(s: SideAnchor, t: Tree)
    requires Edited(s, t)
    ensures s.range.Some? && s.context.Some?
  {}

  lemma {:induction false} QueryIs(s: SideAnchor, t: Tree)
    requires Edited(s, t)
    ensures var q, c := QueryOf(s), s.context.value;
            !q.elided && q.length == |c.lines| && q.before == c.before && q.after == c.after
  {}

  ghost predicate Outscores(t: Tree, q: Query, w: Scored) { forall v :: ScoredAt(t, q, v) && v != w ==> v.score < w.score }

  lemma {:induction false} AloneMeans(s: SideAnchor, t: Tree, p: string, k: int)
    requires Edited(s, t) && IsWindow(s, t, p, k)
    ensures Outscores(t, QueryOf(s), Scored(p, k, Points(s, t, p, k))) <==> LoneBest(s, t, p, k)
  {
    var w := Scored(p, k, Points(s, t, p, k));
    hide Points, IsWindow, ScoredAt, Edited, QueryOf;
    if forall q, m :: IsWindow(s, t, q, m) && (q != p || m != k) ==> Points(s, t, q, m) < Points(s, t, p, k) {
      forall v | ScoredAt(t, QueryOf(s), v) && v != w ensures v.score < w.score { ScoreIsPoints(s, t, v); }
    }
    if forall v :: ScoredAt(t, QueryOf(s), v) && v != w ==> v.score < w.score {
      forall q, m | IsWindow(s, t, q, m) && (q != p || m != k) ensures Points(s, t, q, m) < Points(s, t, p, k) {
        PointsAreScore(s, t, q, m);
      }
    }
  }

  lemma {:induction false} NoExact(s: SideAnchor, t: Tree)
    requires Edited(s, t) && NowhereWhole(s, t)
    ensures !HasExact(t, QueryOf(s))
  {
    hide ExactAt;
    if c :| ExactAt(t, QueryOf(s), c) { ExactStands(s, t, c); }
  }

  lemma {:induction false} AloneOnTop(t: Tree, q: Query, r: SideResult, w: Scored)
    requires Searchable(q) && ContextOutcome(t, q, r) && !HasExact(t, q) && ScoredAt(t, q, w)
    ensures r == Resolved(ContextFuzzy, w.path, Some(Range(w.start, w.start + q.length - 1))) <==>
              Outscores(t, q, w) && 100 * w.score >= 60 * (2 * (if q.elided then 64 else q.length) + |q.before| + |q.after|)
  {
    assert MaxScore(q) == 2 * (if q.elided then 64 else q.length) + |q.before| + |q.after| > 0;
    assert FuzzyOutcome(t, q, r);
    hide *;
    FuzzyWinner(t, q, r, w);
  }

  lemma {:induction false} FuzzyWinner(t: Tree, q: Query, r: SideResult, w: Scored)
    requires FuzzyOutcome(t, q, r) && ScoredAt(t, q, w) && MaxScore(q) > 0
    ensures r == Resolved(ContextFuzzy, w.path, Some(Range(w.start, w.start + q.length - 1))) <==>
              Outscores(t, q, w) && 100 * w.score >= 60 * MaxScore(q)
  {
    AloneIffTop(t, q, w);
    hide ScoredAt, MaxScore, Outscores, Top, Judged;
    if AllZero(t, q) {
      assert w.score == 0;
    } else {
      var top :| Top(t, q, top) && Judged(t, q, top, r);
      if top == w { TopWins(t, q, r, w); } else { OtherWins(t, q, r, w, top); }
    }
  }

  lemma {:induction false} TopWins(t: Tree, q: Query, r: SideResult, w: Scored)
    requires Top(t, q, w) && Judged(t, q, w, r)
    ensures r == Resolved(ContextFuzzy, w.path, Some(Range(w.start, w.start + q.length - 1))) <==>
              !(exists v :: v != w && Top(t, q, v)) && 100 * w.score >= 60 * MaxScore(q)
  {
    hide Top, MaxScore;
  }

  lemma {:induction false} OtherWins(t: Tree, q: Query, r: SideResult, w: Scored, top: Scored)
    requires ScoredAt(t, q, w) && Top(t, q, top) && Judged(t, q, top, r) && top != w
    ensures r != Resolved(ContextFuzzy, w.path, Some(Range(w.start, w.start + q.length - 1)))
    ensures !Outscores(t, q, w)
  {
    OneScore(t, q);
    hide ScoredAt, MaxScore;
    assert top.score >= w.score;
  }

  lemma {:induction false} AloneIffTop(t: Tree, q: Query, w: Scored)
    requires ScoredAt(t, q, w)
    ensures Outscores(t, q, w) <==> Top(t, q, w) && !(exists v :: v != w && Top(t, q, v))
  {
    hide ScoredAt;
    if Top(t, q, w) && !(exists v :: v != w && Top(t, q, v)) {
      forall v | ScoredAt(t, q, v) && v != w ensures v.score < w.score { assert !Top(t, q, v); }
    }
  }

  lemma {:induction false} OneScore(t: Tree, q: Query)
    ensures forall v, w :: ScoredAt(t, q, v) && ScoredAt(t, q, w) && v.path == w.path && v.start == w.start ==> v == w
  {
    hide Score;
  }

  // ---- The same blob, and what is orphaned ----

  /** While the path holds the anchored blob the anchor stays; otherwise it goes to the first other path that holds it, with
    * the range it had.
    */
  lemma {:induction false} FollowsBlob(s: SideAnchor, t: Tree, r: SideResult)
    requires SideOutcome(1, s, t, r)
    ensures s.path in t.files && t.files[s.path].blob == s.blob ==> r == Resolved(ExactPathBlob, s.path, s.range)
    ensures (s.path in t.files ==> t.files[s.path].blob != s.blob) && (exists p :: p in t.files && t.files[p].blob == s.blob) ==>
              && r.Resolved? && r.rung == ExactBlobMoved && r.range == s.range && r.path in t.files && t.files[r.path].blob == s.blob
              && forall p :: p in t.files && t.files[p].blob == s.blob ==> p == r.path || Less(r.path, p)
  {
    hide Less, ContextOutcome;
    if (s.path in t.files ==> t.files[s.path].blob != s.blob) && exists p :: p in t.files && t.files[p].blob == s.blob {
      var p :| p in t.files && t.files[p].blob == s.blob;
      assert p != s.path && HasBlob(t, p, s.blob);
      assert Moved(t, s.path, s.blob);
    }
  }

  /** A whole file whose blob is nowhere is an orphan, and so is everything of a version not known. */
  lemma {:induction false} OrphanReasons(version: int, s: SideAnchor, t: Tree, r: SideResult)
    requires SideOutcome(version, s, t, r)
    ensures version != 1 ==> r == Orphaned(UnsupportedVersion)
    ensures version == 1 && s.range == None && (forall p :: p in t.files ==> t.files[p].blob != s.blob) ==>
              r == Orphaned(if s.path in t.files then NoCandidate else PathAbsent)
  {
    hide Less, ContextOutcome;
  }
}
