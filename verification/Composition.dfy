/** Canonical composition of an ordered decomposition, and the normal form the two steps give. The Unicode
  * tables are the parameters `nfd`, the full decomposition of a rune, and `combine`, the composite of two.
  */
module Composition {
  import opened CanonicalOrder

  datatype Composite = Composite(rune: int) | NoComposite

  type Combine = (int, int) -> Composite

  type Nfd = int -> Marks

  /** Definition D115: something between the base and the mark keeps the mark from composing with it. */
  predicate Blocked(between: Marks, mark: Mark) {
    exists k :: 0 <= k < |between| && (between[k].ccc == 0 || between[k].ccc >= mark.ccc)
  }

  /** The base and the marks kept after it, composing each mark of `rest` that is not blocked. */
  function Composed(base: int, composable: bool, kept: Marks, rest: Marks, combine: Combine): (int, Marks)
    decreases |rest|
  {
    if rest == [] then (base, kept)
    else if composable && !Blocked(kept, rest[0]) && combine(base, rest[0].rune).Composite? then
      Composed(combine(base, rest[0].rune).rune, composable, kept, rest[1..], combine)
    else Composed(base, composable, kept + [rest[0]], rest[1..], combine)
  }

  function Runes(marks: Marks): (runes: seq<int>)
    ensures |runes| == |marks| && forall i :: 0 <= i < |marks| ==> runes[i] == marks[i].rune
  {
    if marks == [] then [] else [marks[0].rune] + Runes(marks[1..])
  }

  function ComposedText(marks: Marks, combine: Combine): seq<int> {
    if marks == [] then []
    else
      var (base, kept) := Composed(marks[0].rune, marks[0].ccc == 0, [], marks[1..], combine);
      [base] + Runes(kept)
  }

  /** What the two flags remember of the marks kept: whether a starter is among them, and the largest class. */
  predicate Remembered(blockedAll: bool, maxRetained: int, kept: Marks) {
    && (blockedAll <==> exists k :: 0 <= k < |kept| && kept[k].ccc == 0)
    && (forall k :: 0 <= k < |kept| && kept[k].ccc > 0 ==> kept[k].ccc <= maxRetained)
    && (maxRetained == -1 || exists k :: 0 <= k < |kept| && kept[k].ccc == maxRetained)
  }

  /** The flags decide D115: they need not be looked for again among all the marks kept. */
  lemma FlagsDecide(blockedAll: bool, maxRetained: int, kept: Marks, mark: Mark)
    requires Remembered(blockedAll, maxRetained, kept) && Classed(kept) && mark.ccc >= 0
    ensures blockedAll || maxRetained >= mark.ccc <==> Blocked(kept, mark)
  {
    if k :| 0 <= k < |kept| && (kept[k].ccc == 0 || kept[k].ccc >= mark.ccc) {
      assert kept[k].ccc == 0 || kept[k].ccc <= maxRetained;
    }
    if maxRetained >= mark.ccc {
      var k :| 0 <= k < |kept| && kept[k].ccc == maxRetained;
    }
  }

  lemma RememberNext(blockedAll: bool, maxRetained: int, kept: Marks, mark: Mark)
    requires Remembered(blockedAll, maxRetained, kept) && mark.ccc >= 0 && maxRetained >= -1
    ensures Remembered(blockedAll || mark.ccc == 0, if mark.ccc > maxRetained && mark.ccc > 0 then mark.ccc else maxRetained, kept + [mark])
  {
    var longer := kept + [mark];
    assert longer[|kept|] == mark;
    forall k | 0 <= k < |kept| ensures longer[k] == kept[k] {}
  }

  /** Where the loop stands: what is left to do with it gives the composition of the whole. */
  ghost predicate Composing(marks: Marks, combine: Combine, base: int, composable: bool, kept: Marks, i: nat) {
    && 0 < i <= |marks| && Classed(kept)
    && Composed(marks[0].rune, composable, [], marks[1..], combine) == Composed(base, composable, kept, marks[i..], combine)
  }

  lemma ComposingNext(marks: Marks, combine: Combine, base: int, composable: bool, kept: Marks, i: nat)
    requires Composing(marks, combine, base, composable, kept, i) && i < |marks| && Classed(marks)
    ensures if composable && !Blocked(kept, marks[i]) && combine(base, marks[i].rune).Composite? then
              Composing(marks, combine, combine(base, marks[i].rune).rune, composable, kept, i + 1)
            else Composing(marks, combine, base, composable, kept + [marks[i]], i + 1)
  {
    assert marks[i..][0] == marks[i] && marks[i..][1..] == marks[i + 1..];
    hide Blocked;
  }

  lemma ComposingDone(marks: Marks, combine: Combine, base: int, composable: bool, kept: Marks)
    requires Composing(marks, combine, base, composable, kept, |marks|) && composable == (marks[0].ccc == 0)
    ensures ComposedText(marks, combine) == [base] + Runes(kept)
  {
    assert marks[|marks|..] == [];
  }

  lemma RunesNext(marks: Marks, mark: Mark)
    ensures Runes(marks + [mark]) == Runes(marks) + [mark.rune]
  {}

  method Compose(marks: Marks, combine: Combine) returns (out: seq<int>)
    requires Classed(marks)
    ensures out == ComposedText(marks, combine)
  {
    if |marks| == 0 {
      return [];
    }
    var base, composable := marks[0].rune, marks[0].ccc == 0;
    var tail: seq<int> := [];
    var blockedAll, maxRetained := false, -1;
    ghost var kept: Marks := [];
    for i := 1 to |marks|
      invariant Remembered(blockedAll, maxRetained, kept) && maxRetained >= -1
      invariant tail == Runes(kept) && Composing(marks, combine, base, composable, kept, i)
    {
      var n := marks[i].ccc;
      var blocked := blockedAll || maxRetained >= n;
      FlagsDecide(blockedAll, maxRetained, kept, marks[i]);
      ComposingNext(marks, combine, base, composable, kept, i);
      hide *;
      if composable && !blocked {
        var p := combine(base, marks[i].rune);
        if p.Composite? {
          base := p.rune;
          continue;
        }
      }
      RememberNext(blockedAll, maxRetained, kept, marks[i]);
      RunesNext(kept, marks[i]);
      tail := tail + [marks[i].rune];
      kept := kept + [marks[i]];
      if n == 0 {
        blockedAll := true;
      } else if n > maxRetained {
        maxRetained := n;
      }
    }
    ComposingDone(marks, combine, base, composable, kept);
    return [base] + tail;
  }

  // ---- Composition preserves canonical equivalence ----

  function Decomposed(runes: seq<int>, nfd: Nfd): Marks {
    if runes == [] then [] else nfd(runes[0]) + Decomposed(runes[1..], nfd)
  }

  /** Decompositions are full: every mark of one is its own decomposition. */
  ghost predicate FullyDecomposed(marks: Marks, nfd: Nfd) { forall m :: m in marks ==> nfd(m.rune) == [m] }

  /** The guard on composites: one is accepted only if it decomposes to the pair it stands for. */
  ghost predicate Guarded(combine: Combine, nfd: Nfd) {
    forall a, b :: combine(a, b).Composite? ==> Equivalent(nfd(combine(a, b).rune), nfd(a) + nfd(b))
  }

  lemma EquivalentAround(p: Marks, s: Marks, t: Marks, q: Marks)
    requires Equivalent(s, t)
    ensures Equivalent(p + s + q, p + t + q)
  {
    forall c ensures Project(p + s + q, c) == Project(p + t + q, c) {
      ProjectConcat(p + s, q, c);
      ProjectConcat(p, s, c);
      ProjectConcat(p + t, q, c);
      ProjectConcat(p, t, c);
    }
  }

  /** A mark that is not blocked may stand right behind the base. */
  lemma UnblockedMoves(kept: Marks, mark: Mark)
    requires !Blocked(kept, mark) && Classed(kept) && mark.ccc >= 0
    ensures Equivalent([mark] + kept, kept + [mark])
  {
    forall c ensures Project([mark] + kept, c) == Project(kept + [mark], c) {
      ProjectConcat([mark], kept, c);
      ProjectConcat(kept, [mark], c);
      if c == mark.ccc {
        ProjectNone(kept, c);
      } else if kept != [] {
        assert mark.ccc > kept[0].ccc;
        ProjectNone([mark], c);
      } else {
        assert Project(kept, c) == [];
      }
    }
  }

  /** Composing one unblocked mark onto the base decomposes to the same text. */
  lemma ComposeStep(base: int, kept: Marks, mark: Mark, rest: Marks, p: int, nfd: Nfd)
    requires !Blocked(kept, mark) && Classed(kept) && mark.ccc >= 0 && nfd(mark.rune) == [mark]
    requires Equivalent(nfd(p), nfd(base) + nfd(mark.rune))
    ensures Equivalent(nfd(p) + kept + rest, nfd(base) + kept + ([mark] + rest))
  {
    var moved := nfd(base) + [mark] + kept + rest;
    EquivalentAround([], nfd(p), nfd(base) + [mark], kept + rest);
    assert [] + nfd(p) + (kept + rest) == nfd(p) + kept + rest;
    assert [] + (nfd(base) + [mark]) + (kept + rest) == moved;
    UnblockedMoves(kept, mark);
    EquivalentAround(nfd(base), [mark] + kept, kept + [mark], rest);
    assert nfd(base) + ([mark] + kept) + rest == moved;
    assert nfd(base) + (kept + [mark]) + rest == nfd(base) + kept + ([mark] + rest);
    EquivalentChain(nfd(p) + kept + rest, moved, nfd(base) + kept + ([mark] + rest));
  }

  lemma EquivalentChain(s: Marks, t: Marks, u: Marks)
    requires Equivalent(s, t) && Equivalent(t, u)
    ensures Equivalent(s, u)
  {
    forall c ensures Project(s, c) == Project(u, c) {
      assert Project(s, c) == Project(t, c);
    }
  }

  lemma {:induction false} ComposedEquivalent(base: int, composable: bool, kept: Marks, rest: Marks, combine: Combine, nfd: Nfd)
    requires Guarded(combine, nfd) && Classed(kept) && Classed(rest) && FullyDecomposed(rest, nfd) && FullyDecomposed(kept, nfd)
    ensures var r := Composed(base, composable, kept, rest, combine);
            Equivalent(nfd(r.0) + r.1, nfd(base) + kept + rest) && FullyDecomposed(r.1, nfd)
    decreases |rest|
  {
    if rest == [] {
      assert nfd(base) + kept + rest == nfd(base) + kept;
    } else {
      var mark, tail := rest[0], rest[1..];
      assert rest == [mark] + tail;
      if composable && !Blocked(kept, mark) && combine(base, mark.rune).Composite? {
        var p := combine(base, mark.rune).rune;
        ComposedEquivalent(p, composable, kept, tail, combine, nfd);
        ComposeStep(base, kept, mark, tail, p, nfd);
        var r := Composed(p, composable, kept, tail, combine);
        EquivalentChain(nfd(r.0) + r.1, nfd(p) + kept + tail, nfd(base) + kept + rest);
      } else {
        ComposedEquivalent(base, composable, kept + [mark], tail, combine, nfd);
        assert nfd(base) + (kept + [mark]) + tail == nfd(base) + kept + rest;
      }
    }
  }

  lemma {:induction false} RunesDecompose(marks: Marks, nfd: Nfd)
    requires FullyDecomposed(marks, nfd)
    ensures Decomposed(Runes(marks), nfd) == marks
  {
    if marks == [] {
    } else {
      assert Runes(marks)[1..] == Runes(marks[1..]);
      RunesDecompose(marks[1..], nfd);
    }
  }

  /** What is composed decomposes to text canonically equivalent to what was given. */
  lemma CompositionKeepsMeaning(marks: Marks, combine: Combine, nfd: Nfd)
    requires Guarded(combine, nfd) && Classed(marks) && FullyDecomposed(marks, nfd)
    ensures Equivalent(Decomposed(ComposedText(marks, combine), nfd), marks)
  {
    if marks != [] {
      var first, rest := marks[0], marks[1..];
      SplitMarks(marks, nfd);
      hide Guarded, Equivalent, Classed, FullyDecomposed, Composed;
      ComposedEquivalent(first.rune, first.ccc == 0, [], rest, combine, nfd);
      var r := Composed(first.rune, first.ccc == 0, [], rest, combine);
      RunesDecompose(r.1, nfd);
      assert ComposedText(marks, combine)[1..] == Runes(r.1);
    }
  }

  lemma SplitMarks(marks: Marks, nfd: Nfd)
    requires marks != [] && Classed(marks) && FullyDecomposed(marks, nfd)
    ensures nfd(marks[0].rune) + [] + marks[1..] == marks
    ensures Classed(marks[1..]) && FullyDecomposed(marks[1..], nfd) && Classed([]) && FullyDecomposed([], nfd)
  {
    assert marks[0] in marks;
  }

  // ---- The normal form of a segment ----

  ghost predicate Tabled(rune: int, nfd: Nfd) { Classed(nfd(rune)) && FullyDecomposed(nfd(rune), nfd) }

  ghost predicate Tables(combine: Combine, nfd: Nfd) {
    Guarded(combine, nfd) && forall r: int :: Tabled(r, nfd)
  }

  lemma {:induction false} DecomposedFully(runes: seq<int>, combine: Combine, nfd: Nfd)
    requires Tables(combine, nfd)
    ensures Classed(Decomposed(runes, nfd)) && FullyDecomposed(Decomposed(runes, nfd), nfd)
  {
    if runes == [] {
    } else {
      DecomposedFully(runes[1..], combine, nfd);
      assert Tabled(runes[0], nfd);
    }
  }

  /** A segment is text, or bytes that are no valid encoding of any. */
  datatype Segment = Text(runes: seq<int>) | Malformed(bytes: seq<int>)

  /** The normal form of text: what composes from the canonical ordering of the decomposition. */
  ghost predicate TextForm(runes: seq<int>, combine: Combine, nfd: Nfd, form: seq<int>) {
    exists t :: CanonicalOrdering(Decomposed(runes, nfd), t) && form == ComposedText(t, combine)
  }

  /** Malformed bytes are their own normal form. */
  ghost predicate NormalForm(seg: Segment, combine: Combine, nfd: Nfd, form: Segment) {
    match seg
    case Malformed(_) => form == seg
    case Text(runes) => form.Text? && TextForm(runes, combine, nfd, form.runes)
  }

  method Decompose(runes: seq<int>, nfd: Nfd) returns (marks: Marks)
    ensures marks == Decomposed(runes, nfd)
  {
    marks := [];
    for i := 0 to |runes|
      invariant marks + Decomposed(runes[i..], nfd) == Decomposed(runes, nfd)
    {
      assert runes[i..][1..] == runes[i + 1..];
      marks := marks + nfd(runes[i]);
    }
  }

  method NormalizeSegment(seg: Segment, combine: Combine, nfd: Nfd) returns (form: Segment)
    requires Tables(combine, nfd)
    ensures NormalForm(seg, combine, nfd, form)
  {
    if seg.Malformed? {
      return seg;
    }
    hide *;
    var marks := Decompose(seg.runes, nfd);
    DecomposedFully(seg.runes, combine, nfd);
    var a := new Mark[|marks|](i requires 0 <= i < |marks| => marks[i]);
    assert a[..] == marks;
    Order(a);
    OrderedText(marks, a[..]);
    var text := Compose(a[..], combine);
    FormFound(seg, combine, nfd, a[..], text);
    return Text(text);
  }

  lemma OrderedText(marks: Marks, t: Marks)
    requires Classed(marks) && CanonicalOrdering(marks, t)
    ensures Classed(t) && Equivalent(marks, t)
  {
    OneCanonicalOrdering(marks, t);
    EquivalentClassed(marks, t);
  }

  lemma FormFound(seg: Segment, combine: Combine, nfd: Nfd, t: Marks, form: seq<int>)
    requires seg.Text? && CanonicalOrdering(Decomposed(seg.runes, nfd), t) && form == ComposedText(t, combine)
    ensures NormalForm(seg, combine, nfd, Text(form))
  {}

  /** The normal form is canonically equivalent to the text it was made from. */
  lemma NormalFormKeepsMeaning(runes: seq<int>, combine: Combine, nfd: Nfd, form: seq<int>)
    requires Tables(combine, nfd) && TextForm(runes, combine, nfd, form)
    ensures Equivalent(Decomposed(form, nfd), Decomposed(runes, nfd))
  {
    var marks := Decomposed(runes, nfd);
    var t :| CanonicalOrdering(marks, t) && form == ComposedText(t, combine);
    DecomposedFully(runes, combine, nfd);
    OrderedText(marks, t);
    forall m: Mark | m in t ensures nfd(m.rune) == [m] {
      ProjectMembers(t, m.ccc, m);
      ProjectMembers(marks, m.ccc, m);
      assert Project(marks, m.ccc) == Project(t, m.ccc);
    }
    CompositionKeepsMeaning(t, combine, nfd);
    EquivalentChain(Decomposed(form, nfd), t, marks);
  }

  /** Canonically equivalent text, or the same malformed bytes. */
  ghost predicate SameSegment(a: Segment, b: Segment, nfd: Nfd) {
    if a.Text? && b.Text? then Equivalent(Decomposed(a.runes, nfd), Decomposed(b.runes, nfd)) else a == b
  }

  /** Two spellings of a segment have the same normal form exactly when they are canonically equivalent; malformed
    * bytes share theirs with nothing.
    */
  lemma SameFormIffEquivalent(a: Segment, b: Segment, combine: Combine, nfd: Nfd, formA: Segment, formB: Segment)
    requires Tables(combine, nfd) && NormalForm(a, combine, nfd, formA) && NormalForm(b, combine, nfd, formB)
    ensures formA == formB <==> SameSegment(a, b, nfd)
  {
    hide TextForm, Equivalent, Tables;
    if a.Text? && b.Text? { SameTextIffEquivalent(a.runes, b.runes, combine, nfd, formA.runes, formB.runes); }
  }

  lemma SameTextIffEquivalent(a: seq<int>, b: seq<int>, combine: Combine, nfd: Nfd, formA: seq<int>, formB: seq<int>)
    requires Tables(combine, nfd) && TextForm(a, combine, nfd, formA) && TextForm(b, combine, nfd, formB)
    ensures formA == formB <==> Equivalent(Decomposed(a, nfd), Decomposed(b, nfd))
  {
    var x, y := Decomposed(a, nfd), Decomposed(b, nfd);
    DecomposedFully(a, combine, nfd);
    DecomposedFully(b, combine, nfd);
    if Equivalent(x, y) {
      var s :| CanonicalOrdering(x, s) && formA == ComposedText(s, combine);
      var t :| CanonicalOrdering(y, t) && formB == ComposedText(t, combine);
      OrderedText(x, s);
      OrderedText(y, t);
      EquivalentChain(x, y, t);
      EquivalentChain(s, x, t);
      OrderUnique(s, t);
    }
    if formA == formB {
      NormalFormKeepsMeaning(a, combine, nfd, formA);
      NormalFormKeepsMeaning(b, combine, nfd, formB);
      EquivalentChain(x, Decomposed(formA, nfd), y);
    }
  }

  /** There are tables to normalize by: those under which nothing decomposes and nothing composes, for one. */
  lemma SomeTables(combine: Combine, nfd: Nfd)
    requires (forall a, b :: combine(a, b) == NoComposite) && forall r :: nfd(r) == [Mark(r, 0)]
    ensures Tables(combine, nfd)
  {
    forall r: int ensures Tabled(r, nfd) {}
  }

  // ---- Composing, mark by mark ----

  lemma NextMark(base: int, composable: bool, kept: Marks, m: Mark, rest: Marks, combine: Combine)
    ensures Composed(base, composable, kept, [m] + rest, combine) ==
            if composable && !Blocked(kept, m) && combine(base, m.rune).Composite?
            then Composed(combine(base, m.rune).rune, composable, kept, rest, combine)
            else Composed(base, composable, kept + [m], rest, combine)
  {
    assert ([m] + rest)[1..] == rest;
  }

  /** A mark composes onto the starter before it when the tables have the composite, and onto nothing else. */
  lemma TwoMarks(a: Mark, b: Mark, combine: Combine)
    ensures ComposedText([a, b], combine) ==
            if a.ccc == 0 && combine(a.rune, b.rune).Composite? then [combine(a.rune, b.rune).rune] else [a.rune, b.rune]
  {
    assert [a, b][1..] == [b] && [b] + [] == [b] && [] + [b] == [b];
    NextMark(a.rune, a.ccc == 0, [], b, [], combine);
    assert !Blocked([], b);
    assert Runes([b]) == [b.rune] && Runes([]) == [];
  }

  /** Past a mark that stays, another one composes exactly when the first is no starter and has the smaller class. */
  lemma ThreeMarks(a: Mark, x: Mark, b: Mark, combine: Combine)
    requires a.ccc == 0 && combine(a.rune, x.rune).NoComposite? && combine(a.rune, b.rune).Composite?
    ensures ComposedText([a, x, b], combine) ==
            if x.ccc != 0 && x.ccc < b.ccc then [combine(a.rune, b.rune).rune, x.rune] else [a.rune, x.rune, b.rune]
  {
    var between := [x];
    assert [a, x, b][1..] == [x] + [b] && [b] + [] == [b] && [] + [x] == between && between + [b] == [x, b];
    NextMark(a.rune, true, [], x, [b], combine);
    NextMark(a.rune, true, between, b, [], combine);
    assert Blocked(between, b) <==> x.ccc == 0 || x.ccc >= b.ccc by { assert between[0] == x; }
    assert Runes(between) == [x.rune] && Runes([x, b]) == [x.rune, b.rune];
    assert Composed(a.rune, true, [x, b], [], combine) == (a.rune, [x, b]);
  }

  // ---- Decomposing ----

  /** A text decomposes rune by rune. */
  lemma {:induction false} DecomposedMeans(a: seq<int>, b: seq<int>, r: int, nfd: Nfd)
    ensures Decomposed([r], nfd) == nfd(r) && Decomposed(a + b, nfd) == Decomposed(a, nfd) + Decomposed(b, nfd)
  {
    assert [r][1..] == [] && nfd(r) + [] == nfd(r);
    if a == [] {
      assert a + b == b;
    } else {
      assert (a + b)[1..] == a[1..] + b;
      DecomposedMeans(a[1..], b, r, nfd);
    }
  }
}
