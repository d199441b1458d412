/** The observed frontier of an object, and what an op appended on top of it is worth: it comes last,
  * whatever its clock says, and its writes win.
  */
module Frontier {
  import opened CausalGraph
  import opened EffectiveTimes
  import opened TotalOrder
  import opened Options
  import opened FoldRules
  import opened Strategies
  import opened Fold
  import Sorting
  import Strings

  /** A stored op as the frontier query reads it. */
  datatype Row = Row(opID: Id, parents: seq<Id>)

  /** An op no stored op names as a parent. */
  ghost predicate Childless(rows: seq<Row>, id: Id) {
    && (exists r :: r in rows && r.opID == id)
    && forall r :: r in rows ==> id !in r.parents
  }

  /** Exactly the childless ops, in id order. */
  method FrontierOf(rows: seq<Row>) returns (frontier: seq<Id>)
    ensures forall i, j :: 0 <= i < j < |frontier| ==> frontier[i] < frontier[j]
    ensures forall id :: id in frontier <==> Childless(rows, id)
  {
    var allOps: set<Id>, hasChildren: set<Id> := {}, {};
    for i := 0 to |rows|
      invariant forall id :: id in allOps <==> exists k :: 0 <= k < i && rows[k].opID == id
      invariant forall id :: id in hasChildren <==> exists k :: 0 <= k < i && id in rows[k].parents
    {
      allOps := allOps + {rows[i].opID};
      hasChildren := hasChildren + set p | p in rows[i].parents;
    }
    Sorting.IdsStrictTotal(allOps - hasChildren);
    frontier := Sorting.SortedKeys(Sorting.IdLess, allOps - hasChildren);
    forall i, j | 0 <= i < j < |frontier| ensures frontier[i] < frontier[j] {
      assert Sorting.IdLess(frontier[i], frontier[j]);
    }
  }

  // ---- The frontier in the op set ----

  ghost predicate RowsOf(rows: seq<Row>, s: OpSet, objectID: string) {
    && (forall r :: r in rows ==> r.opID in Members(s, objectID) && r.parents == s[r.opID].parents)
    && forall id :: id in Members(s, objectID) ==> exists r :: r in rows && r.opID == id
  }

  ghost predicate Maximal(s: OpSet, objectID: string, id: Id) {
    id in Members(s, objectID) && forall c :: c in Members(s, objectID) ==> id !in s[c].parents
  }

  lemma FrontierIsMaximal(rows: seq<Row>, s: OpSet, objectID: string, id: Id)
    requires RowsOf(rows, s, objectID)
    ensures Childless(rows, id) <==> Maximal(s, objectID, id)
  {
    if Maximal(s, objectID, id) {
      forall r | r in rows ensures id !in r.parents {}
    }
    if Childless(rows, id) {
      forall c | c in Members(s, objectID) ensures id !in s[c].parents {
        var r :| r in rows && r.opID == c;
      }
    }
  }

  /** Every op of the object happened before some frontier op, or is one. */
  lemma {:induction false} ReachesFrontier(s: OpSet, objectID: string, order: seq<Id>, i: nat) returns (f: Id)
    requires LinearExtension(DagOf(s, objectID), order) && i < |order|
    ensures Maximal(s, objectID, f) && PrecedesOrIs(DagOf(s, objectID), order[i], f)
    decreases |order| - i
  {
    var g, u := DagOf(s, objectID), order[i];
    if Maximal(s, objectID, u) {
      f := u;
    } else {
      var c :| c in Members(s, objectID) && u in s[c].parents;
      assert u in g[c].parents;
      var j :| 0 <= j < |order| && order[j] == c;
      var k := ParentEarlier(g, order, j, u);
      assert i == k < j;
      f := ReachesFrontier(s, objectID, order, j);
      hide LinearExtension, Maximal, DagOf, Precedes;
      ParentPrecedes(g, u, c);
      if c != f { PrecedesTrans(g, u, c, f); }
    }
  }

  /** `op` is a new commit on top of the frontier. Commit ids are content addresses, so no stored op
    * can already name it as a parent. Other parents, such as the writer's chain tip, are free.
    */
  ghost predicate OnFrontier(s: OpSet, objectID: string, op: MergeOp) {
    && op.id !in s && op.objectID == objectID
    && (forall c :: c in s ==> op.id !in s[c].parents) && op.id !in op.parents
    && forall f :: Maximal(s, objectID, f) ==> f in op.parents
  }

  function Appended(s: OpSet, op: MergeOp): OpSet { s[op.id := op] }

  /** An op appended on the frontier is the whole new frontier, so a second op that names only the first as
    * its causal parent is on the frontier too.
    */
  lemma AppendedIsFrontier(s: OpSet, objectID: string, op: MergeOp, next: MergeOp)
    requires OnFrontier(s, objectID, op)
    requires next.id !in Appended(s, op) && next.objectID == objectID && op.id in next.parents && next.id !in next.parents
    requires forall c :: c in Appended(s, op) ==> next.id !in Appended(s, op)[c].parents
    ensures forall f :: Maximal(Appended(s, op), objectID, f) <==> f == op.id
    ensures OnFrontier(Appended(s, op), objectID, next)
  {
    var s' := Appended(s, op);
    assert Members(s', objectID) == Members(s, objectID) + {op.id};
    forall f | f in Members(s, objectID) ensures !Maximal(s', objectID, f) {
      if !Maximal(s, objectID, f) {
        var c :| c in Members(s, objectID) && f in s[c].parents;
        assert c in Members(s', objectID) && f in s'[c].parents;
      } else {
        assert op.id in Members(s', objectID) && f in s'[op.id].parents;
      }
    }
    assert Maximal(s', objectID, op.id);
  }

  lemma {:induction false} RestrictSame(parents: seq<Id>, a: set<Id>, b: set<Id>)
    requires forall p :: p in parents ==> (p in a <==> p in b)
    ensures Restrict(parents, a) == Restrict(parents, b)
  {
    if parents == [] {
    } else {
      RestrictSame(parents[..|parents| - 1], a, b);
    }
  }

  lemma AppendedDag(s: OpSet, objectID: string, op: MergeOp)
    requires OnFrontier(s, objectID, op)
    ensures var g, g' := DagOf(s, objectID), DagOf(Appended(s, op), objectID);
            && op.id !in g && g'.Keys == g.Keys + {op.id}
            && (forall u :: u in g ==> g'[u] == g[u])
            && forall f :: Maximal(s, objectID, f) ==> f in g'[op.id].parents
  {
    var s' := Appended(s, op);
    assert Members(s', objectID) == Members(s, objectID) + {op.id};
    forall u | u in Members(s, objectID) ensures DagOf(s', objectID)[u] == DagOf(s, objectID)[u] {
      RestrictSame(s[u].parents, Members(s, objectID), Members(s', objectID));
    }
  }

  // ---- Adding one node on top of a graph ----

  ghost predicate OnTop(g: Graph, g': Graph, u: Id) {
    && Closed(g) && Closed(g') && u !in g && g'.Keys == g.Keys + {u}
    && (forall v :: v in g ==> g'[v] == g[v])
    && u !in g'[u].parents
  }

  lemma {:induction false} ReachesBelow(g: Graph, g': Graph, u: Id, a: Id, b: Id, n: nat)
    requires OnTop(g, g', u) && b in g
    ensures Reaches(g', a, b, n) <==> Reaches(g, a, b, n)
    decreases n
  {
    if n == 0 {
    } else {
      forall p | p in g[b].parents ensures Reaches(g', a, p, n - 1) <==> Reaches(g, a, p, n - 1) {
        ReachesBelow(g, g', u, a, p, n - 1);
      }
    }
  }

  lemma PrecedesBelow(g: Graph, g': Graph, u: Id, a: Id, b: Id)
    requires OnTop(g, g', u) && b in g
    ensures Precedes(g', a, b) <==> Precedes(g, a, b)
  {
    forall n: nat ensures Reaches(g', a, b, n) <==> Reaches(g, a, b, n) { ReachesBelow(g, g', u, a, b, n); }
  }

  lemma LatestBelow(g: Graph, g': Graph, u: Id, v: Id, t: int)
    requires OnTop(g, g', u) && v in g && LatestOver(g, v, t)
    ensures LatestOver(g', v, t)
  {
    forall a ensures PrecedesOrIs(g', a, v) <==> PrecedesOrIs(g, a, v) { PrecedesBelow(g, g', u, a, v); }
    hide PrecedesOrIs;
    forall a | a in g' && PrecedesOrIs(g', a, v) ensures a in g && g'[a].time <= t {
      InsideBelow(g, a, v);
    }
  }

  lemma InsideBelow(g: Graph, a: Id, v: Id)
    requires Closed(g) && v in g && PrecedesOrIs(g, a, v)
    ensures a in g
  {
    hide Precedes;
    if a != v { PrecedesInside(g, a, v); }
  }

  lemma {:induction false} LatestParent(parents: seq<Id>, tStar: map<Id, int>, own: int) returns (t: int)
    requires forall p :: p in parents ==> p in tStar
    ensures own <= t && forall p :: p in parents ==> tStar[p] <= t
    ensures t == own || exists p :: p in parents && tStar[p] == t
  {
    t := own;
    for i := 0 to |parents|
      invariant own <= t && forall k :: 0 <= k < i ==> tStar[parents[k]] <= t
      invariant t == own || exists p :: p in parents && tStar[p] == t
    {
      assert parents[i] in parents;
      if tStar[parents[i]] > t { t := tStar[parents[i]]; }
    }
  }

  lemma TimesOnTop(g: Graph, g': Graph, u: Id, tStar: map<Id, int>) returns (t: int)
    requires OnTop(g, g', u) && EffectiveTime(g, tStar)
    ensures EffectiveTime(g', tStar[u := t])
  {
    hide LatestOver, Precedes;
    assert forall p :: p in g'[u].parents ==> p in tStar;
    t := LatestParent(g'[u].parents, tStar, g'[u].time);
    forall v | v in g ensures LatestOver(g', v, tStar[v]) { LatestBelow(g, g', u, v, tStar[v]); }
    LatestFromParents(g', u, tStar, t);
  }

  // ---- The appended op comes last ----

  lemma DescendantMissing(g: Graph, order: seq<Id>, i: nat, f: Id)
    requires LinearExtension(g, order) && i < |order| && PrecedesOrIs(g, order[i], f)
    ensures f !in order[..i]
  {
    hide Precedes;
    if f in order[..i] {
      var j :| 0 <= j < i && order[j] == f;
      if f != order[i] {
        var k := PrecedesEarlier(g, order, order[i], j);
      }
    }
  }

  /** Until every older op is out, the new one is not ready: some frontier op is still missing. */
  lemma NotReadyEarly(s: OpSet, objectID: string, op: MergeOp, order: seq<Id>, i: nat)
    requires OnFrontier(s, objectID, op) && LinearExtension(DagOf(s, objectID), order) && i < |order|
    ensures !Ready(DagOf(Appended(s, op), objectID), order[..i], op.id)
  {
    AppendedDag(s, objectID, op);
    hide LinearExtension, Maximal, DagOf, PrecedesOrIs;
    var f := ReachesFrontier(s, objectID, order, i);
    DescendantMissing(DagOf(s, objectID), order, i, f);
    assert f in DagOf(Appended(s, op), objectID)[op.id].parents;
  }

  lemma ChosenBelow(g: Graph, g': Graph, u: Id, t: map<Id, int>, tu: int, prefix: seq<Id>, v: Id)
    requires OnTop(g, g', u) && Chosen(g, t, prefix, v) && u !in prefix && !Ready(g', prefix, u)
    requires t.Keys == g.Keys
    ensures Chosen(g', t[u := tu], prefix, v)
  {
    forall w | Ready(g', prefix, w) ensures w == v || KeyLess(t[u := tu], v, w) {
      assert Ready(g, prefix, w);
    }
  }

  lemma ChosenLast(g: Graph, g': Graph, u: Id, t': map<Id, int>, order: seq<Id>)
    requires OnTop(g, g', u) && LinearExtension(g, order)
    ensures Chosen(g', t', order, u) && LinearExtension(g', order + [u])
  {
    hide Reaches, Distinct;
    assert forall p :: p in g'[u].parents ==> p in order;
    assert ParentsFirst(g', order) by { hide LinearExtension; }
    ParentsFirstExtend(g', order, u);
  }

  /** Appending on the frontier extends the total order at its end and moves nothing else, whatever
    * the new op's clock reads.
    */
  lemma AppendedComesLast(s: OpSet, objectID: string, op: MergeOp, order: seq<Id>)
    requires OnFrontier(s, objectID, op) && OrderOf(s, objectID, order)
    ensures OrderOf(Appended(s, op), objectID, order + [op.id])
  {
    var g, g' := DagOf(s, objectID), DagOf(Appended(s, op), objectID);
    AppendedDag(s, objectID, op);
    var t :| EffectiveTime(g, t) && Greedy(g, t, order) && LinearExtension(g, order);
    assert OnTop(g, g', op.id) by { NotOwnParent(s, objectID, op); }
    var tu := TimesOnTop(g, g', op.id, t);
    assert t.Keys == g.Keys;
    hide EffectiveTime;
    GreedyOnTop(s, objectID, op, order, t, tu);
  }

  lemma NotOwnParent(s: OpSet, objectID: string, op: MergeOp)
    requires OnFrontier(s, objectID, op)
    ensures op.id in DagOf(Appended(s, op), objectID) && op.id !in DagOf(Appended(s, op), objectID)[op.id].parents
  {
    AppendedDag(s, objectID, op);
  }

  lemma GreedyOnTop(s: OpSet, objectID: string, op: MergeOp, order: seq<Id>, t: map<Id, int>, tu: int)
    requires OnFrontier(s, objectID, op) && Greedy(DagOf(s, objectID), t, order) && LinearExtension(DagOf(s, objectID), order)
    requires OnTop(DagOf(s, objectID), DagOf(Appended(s, op), objectID), op.id) && t.Keys == DagOf(s, objectID).Keys
    ensures Greedy(DagOf(Appended(s, op), objectID), t[op.id := tu], order + [op.id])
    ensures LinearExtension(DagOf(Appended(s, op), objectID), order + [op.id])
  {
    var g, g', u := DagOf(s, objectID), DagOf(Appended(s, op), objectID), op.id;
    ChosenLast(g, g', u, t[u := tu], order);
    assert u !in order by { LinearInside(g, order, u); }
    forall i | 0 <= i < |order| ensures Chosen(g', t[u := tu], order[..i], order[i]) {
      hide DagOf, OnFrontier, LinearExtension, OnTop, Ready;
      NotReadyEarly(s, objectID, op, order, i);
      assert Chosen(g, t, order[..i], order[i]);
      hide Chosen;
      ChosenBelow(g, g', u, t, tu, order[..i], order[i]);
    }
    hide DagOf, OnFrontier, LinearExtension, OnTop, Chosen;
    GreedyAppend(g', t[u := tu], order, u);
  }

  lemma GreedyAppend(g: Graph, t: map<Id, int>, order: seq<Id>, u: Id)
    requires Greedy(g, t, order) && Chosen(g, t, order, u)
    ensures Greedy(g, t, order + [u])
  {
    hide Chosen;
    var longer := order + [u];
    forall i | 0 <= i < |longer| ensures Chosen(g, t, longer[..i], longer[i]) {
      if i < |order| {
        assert longer[..i] == order[..i] && Chosen(g, t, order[..i], order[i]);
      } else {
        assert longer[..i] == order;
      }
    }
  }

  lemma LinearInside(g: Graph, order: seq<Id>, u: Id)
    requires LinearExtension(g, order) && u !in g
    ensures u !in order
  {}

  // ---- Its writes win ----

  lemma {:induction false} ReducedSame(s: OpSet, op: MergeOp, rules: seq<FieldRule>, order: seq<Id>)
    requires op.id !in s && forall id :: id in order ==> id in s
    ensures Reduced(Appended(s, op), rules, order) == Reduced(s, rules, order)
  {
    hide Reducible;
    if order == [] {
    } else {
      ReducedSame(s, op, rules, order[..|order| - 1]);
    }
  }

  /** The writes under the longer order are older writes followed by those of the appended op. */
  lemma AppendedWrites(s: OpSet, op: MergeOp, rules: seq<FieldRule>, order: seq<Id>, frs: seq<FieldRule>)
    requires op.id !in s && (forall id :: id in order ==> id in s) && Reducible(op, rules) && WellKeyed(s)
    ensures var s' := Appended(s, op); var kept := Reduced(s, rules, order);
            && Reduced(s', rules, order + [op.id]) == kept + [op.id]
            && Writes(kept + [op.id], s', frs) == Writes(kept, s', frs) + OpWrites(op, frs)
            && forall w :: w in Writes(kept, s', frs) ==> w.op.id in order
  {
    hide Reducible;
    var s', kept := Appended(s, op), Reduced(s, rules, order);
    ReducedSame(s, op, rules, order);
    assert (order + [op.id])[..|order|] == order;
    assert (kept + [op.id])[..|kept|] == kept;
  }

  /** The rules that feed state key `t` once the op is appended. */
  function KeyRules(s: OpSet, objectID: string, op: MergeOp, rules: seq<FieldRule>, t: string): seq<FieldRule> {
    RulesFor(Appended(s, op), Members(Appended(s, op), objectID), rules, rules, t)
  }

  /** What the appended op writes to state key `t`, rule by rule. */
  function NewWrites(s: OpSet, objectID: string, op: MergeOp, rules: seq<FieldRule>, t: string): seq<Write> {
    OpWrites(op, KeyRules(s, objectID, op, rules, t))
  }

  predicate KeyUses(s: OpSet, objectID: string, op: MergeOp, rules: seq<FieldRule>, t: string, strategy: Strategy) {
    var frs := KeyRules(s, objectID, op, rules, t);
    frs != [] && frs[0].strategy == strategy
  }

  /** The writes the key's arm consumes: older ones, then the appended op's. */
  lemma KeyAfterAppend(s: OpSet, objectID: string, op: MergeOp, order: seq<Id>, rules: seq<FieldRule>, norm: Normalizer,
                       t: string, strategy: Strategy, state: State) returns (primary: FieldRule, older: seq<Write>)
    requires op.id !in s && Reducible(op, rules) && WellKeyed(s) && KeyUses(s, objectID, op, rules, t, strategy)
    requires (forall id :: id in order ==> id in s) && (forall id :: id in order + [op.id] ==> id in Appended(s, op))
    requires IsState(Appended(s, op), objectID, rules, norm, order + [op.id], state)
    ensures primary.strategy == strategy
    ensures ArmSpec(DagOf(Appended(s, op), objectID), primary, older + NewWrites(s, objectID, op, rules, t), norm, At(state, t))
    ensures forall v :: v in older ==> v.op.id in order
  {
    var s' := Appended(s, op);
    var frs := KeyRules(s, objectID, op, rules, t);
    AppendedWrites(s, op, rules, order, frs);
    primary, older := frs[0], Writes(Reduced(s, rules, order), s', frs);
    hide Writes, Reduced, RulesFor, DagOf, ArmSpec, OpWrites;
    assert KeySpec(s', objectID, rules, norm, order + [op.id], t, At(state, t));
  }

  /** The folds before and after the append, under one order extended at its end. */
  lemma AppendedState(s: OpSet, objectID: string, op: MergeOp, rules: seq<FieldRule>, norm: Normalizer, before: FoldResult, after: FoldResult)
    returns (order: seq<Id>)
    requires OnFrontier(s, objectID, op)
    requires IsFold(s, objectID, rules, norm, before) && IsFold(Appended(s, op), objectID, rules, norm, after)
    ensures OrderOf(s, objectID, order)
    ensures (forall id :: id in order ==> id in s) && (forall id :: id in order + [op.id] ==> id in Appended(s, op))
    ensures IsState(Appended(s, op), objectID, rules, norm, order + [op.id], after.state)
  {
    hide OrderOf, OnFrontier, IsState, Quarantined;
    order :| OrderOf(s, objectID, order) && (forall id :: id in order ==> id in s)
          && before.unknownOps == Quarantined(s, rules, order) && IsState(s, objectID, rules, norm, order, before.state);
    var s' := Appended(s, op);
    var y :| OrderOf(s', objectID, y) && (forall id :: id in y ==> id in s')
          && after.unknownOps == Quarantined(s', rules, y) && IsState(s', objectID, rules, norm, y, after.state);
    AppendedComesLast(s, objectID, op, order);
    OrderUnique(s', objectID, order + [op.id], y);
  }

  /** Every lww key the appended op carries a value for takes the last value it carries. */
  lemma LwwDominates(s: OpSet, objectID: string, op: MergeOp, rules: seq<FieldRule>, norm: Normalizer,
                     before: FoldResult, after: FoldResult, t: string, k: nat)
    requires OnFrontier(s, objectID, op) && Reducible(op, rules) && WellKeyed(s)
    requires IsFold(s, objectID, rules, norm, before) && IsFold(Appended(s, op), objectID, rules, norm, after)
    requires KeyUses(s, objectID, op, rules, t, Lww)
    requires LastCarried(NewWrites(s, objectID, op, rules, t), k)
    ensures At(after.state, t) == Some(LwwValue(NewWrites(s, objectID, op, rules, t)[k], norm))
  {
    hide IsFold, OnFrontier, Reducible, WellKeyed, KeyUses, NewWrites, OrderOf, IsState, LwwSpec, LwwValue, Carries, NothingCarried;
    NotStored(s, objectID, op);
    var order := AppendedState(s, objectID, op, rules, norm, before, after);
    var primary, older := KeyAfterAppend(s, objectID, op, order, rules, norm, t, Lww, after.state);
    LastWriteWins(older, NewWrites(s, objectID, op, rules, t), norm, At(after.state, t), k);
  }

  ghost predicate LastCarried(ws: seq<Write>, k: nat) { k < |ws| && Carries(ws[k]) && NothingCarried(ws, k + 1, |ws|) }

  lemma LastWriteWins(older: seq<Write>, mine: seq<Write>, norm: Normalizer, r: Option<Value>, k: nat)
    requires LwwSpec(older + mine, norm, r) && LastCarried(mine, k)
    ensures r == Some(LwwValue(mine[k], norm))
  {
    hide Carries, LwwValue;
    var ws, n := older + mine, |older| + k;
    forall j | n < j < |ws| ensures !Carries(ws[j]) { assert ws[j] == mine[j - |older|]; }
    assert ws[n] == mine[k];
  }

  function TextsOf(ws: seq<Write>): set<string> { set w | w in ws && Versions(w) :: w.Raw().s }

  /** A conflicted register collapses to exactly the texts the appended op carries: to its text, when it
    * carries one.
    */
  lemma MultiValueCollapses(s: OpSet, objectID: string, op: MergeOp, rules: seq<FieldRule>, norm: Normalizer,
                            before: FoldResult, after: FoldResult, t: string)
    requires OnFrontier(s, objectID, op) && Reducible(op, rules) && WellKeyed(s)
    requires IsFold(s, objectID, rules, norm, before) && IsFold(Appended(s, op), objectID, rules, norm, after)
    requires KeyUses(s, objectID, op, rules, t, MultiValue)
    requires TextsOf(NewWrites(s, objectID, op, rules, t)) != {}
    ensures At(after.state, t) == Some(Register(Strings.Sorted(TextsOf(NewWrites(s, objectID, op, rules, t)))))
    ensures forall text :: TextsOf(NewWrites(s, objectID, op, rules, t)) == {text} ==> At(after.state, t) == Some(Str(text))
  {
    hide IsFold, OnFrontier, Reducible, WellKeyed, KeyUses, OrderOf, IsState, MultiValueSpec, DagOf, Precedes, KeyRules, TextsOf;
    NotStored(s, objectID, op);
    var order := AppendedState(s, objectID, op, rules, norm, before, after);
    var primary, older := KeyAfterAppend(s, objectID, op, order, rules, norm, t, MultiValue, after.state);
    AllBelow(s, objectID, op, order);
    assert op.id in order + [op.id];
    LatestTextsWin(DagOf(Appended(s, op), objectID), older, NewWrites(s, objectID, op, rules, t), op.id, At(after.state, t));
    forall text | TextsOf(NewWrites(s, objectID, op, rules, t)) == {text} ensures At(after.state, t) == Some(Str(text)) { Singleton(text); }
  }

  /** Every older op happened before the appended one; it happened before none of them. */
  lemma AllBelow(s: OpSet, objectID: string, op: MergeOp, order: seq<Id>)
    requires OnFrontier(s, objectID, op) && OrderOf(s, objectID, order)
    ensures forall v :: v in order ==> Precedes(DagOf(Appended(s, op), objectID), v, op.id)
    ensures forall v :: v in order + [op.id] ==> !Precedes(DagOf(Appended(s, op), objectID), op.id, v)
  {
    hide OnFrontier, DagOf, OrderOf, LinearExtension, Precedes;
    OrderLinear(s, objectID, order);
    forall v | v in order ensures Precedes(DagOf(Appended(s, op), objectID), v, op.id) {
      var i :| 0 <= i < |order| && order[i] == v;
      BelowAppended(s, objectID, op, order, i);
    }
    AppendedComesLast(s, objectID, op, order);
    OrderLinear(Appended(s, op), objectID, order + [op.id]);
    forall v | v in order + [op.id] ensures !Precedes(DagOf(Appended(s, op), objectID), op.id, v) {
      NothingAbove(DagOf(Appended(s, op), objectID), order, op.id, v);
    }
  }

  lemma BelowAppended(s: OpSet, objectID: string, op: MergeOp, order: seq<Id>, i: nat)
    requires OnFrontier(s, objectID, op) && LinearExtension(DagOf(s, objectID), order) && i < |order|
    ensures Precedes(DagOf(Appended(s, op), objectID), order[i], op.id)
  {
    AppendedDag(s, objectID, op);
    NotOwnParent(s, objectID, op);
    assert OnTop(DagOf(s, objectID), DagOf(Appended(s, op), objectID), op.id);
    hide DagOf, LinearExtension, PrecedesOrIs, Precedes, OnTop, OnFrontier;
    var f := ReachesFrontier(s, objectID, order, i);
    assert f in DagOf(s, objectID);
    BelowFrontier(DagOf(s, objectID), DagOf(Appended(s, op), objectID), op.id, order[i], f);
  }

  lemma NotStored(s: OpSet, objectID: string, op: MergeOp)
    requires OnFrontier(s, objectID, op)
    ensures op.id !in s
  {}

  lemma OrderLinear(s: OpSet, objectID: string, order: seq<Id>)
    requires OrderOf(s, objectID, order)
    ensures LinearExtension(DagOf(s, objectID), order)
  {}

  lemma BelowFrontier(g: Graph, g': Graph, u: Id, v: Id, f: Id)
    requires OnTop(g, g', u) && f in g && f in g'[u].parents && PrecedesOrIs(g, v, f)
    ensures Precedes(g', v, u)
  {
    PrecedesBelow(g, g', u, v, f);
    hide Precedes;
    ParentPrecedes(g', f, u);
    if v != f { PrecedesTrans(g', v, f, u); }
  }

  lemma NothingAbove(g': Graph, order: seq<Id>, u: Id, v: Id)
    requires LinearExtension(g', order + [u]) && v in order + [u]
    ensures !Precedes(g', u, v)
  {
    var longer := order + [u];
    assert longer[|order|] == u;
    if Precedes(g', u, v) {
      var j :| 0 <= j < |longer| && longer[j] == v;
      var i := PrecedesEarlier(g', longer, u, j);
    }
  }

  lemma LatestTextsWin(g: Graph, older: seq<Write>, mine: seq<Write>, id: Id, r: Option<Value>)
    requires MultiValueSpec(g, older + mine, r) && TextsOf(mine) != {}
    requires forall w :: w in mine ==> w.op.id == id
    requires forall v :: v in older ==> Precedes(g, v.op.id, id) && !Precedes(g, id, v.op.id)
    requires !Precedes(g, id, id)
    ensures r == Some(Register(Strings.Sorted(TextsOf(mine))))
  {
    hide Precedes, Versions, Register;
    var ws := older + mine;
    var w :| w in mine && Versions(w);
    assert w in ws;
    assert !Superseded(g, ws, id);
    forall v | v in older ensures Superseded(g, ws, v.op.id) {}
    forall x ensures IsMaximalText(g, ws, x) <==> x in TextsOf(mine) { MaximalText(g, older, mine, id, x); }
    hide IsMaximalText;
    var texts :| AreMaximalTexts(g, ws, texts) && r.value == Register(Strings.Sorted(texts));
    assert texts == TextsOf(mine);
  }

  lemma MaximalText(g: Graph, older: seq<Write>, mine: seq<Write>, id: Id, x: string)
    requires forall w :: w in mine ==> w.op.id == id
    requires !Superseded(g, older + mine, id) && forall v :: v in older ==> Superseded(g, older + mine, v.op.id)
    ensures IsMaximalText(g, older + mine, x) <==> x in TextsOf(mine)
  {
    hide Superseded;
    var ws := older + mine;
    if IsMaximalText(g, ws, x) {
      var v :| v in ws && Versions(v) && v.Raw() == Str(x) && !Superseded(g, ws, v.op.id);
      assert v !in older;
    }
    if x in TextsOf(mine) {
      var w :| w in mine && Versions(w) && w.Raw().s == x;
      assert w in ws;
    }
  }

  lemma Singleton(text: string)
    ensures Strings.Sorted({text}) == [text]
  {
    Strings.LessStrictTotal({text});
    assert Sorting.SortedListOf(Strings.Less, [text], {text});
    Sorting.SortedListUnique(Strings.Less, [text], Strings.Sorted({text}), {text});
  }
}
