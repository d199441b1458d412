/** What follows from the fold's specification across functions: convergence, and the non-interference of
  * quarantined ops.
  */
module FoldLaws {
  import opened CausalGraph
  import opened EffectiveTimes
  import TotalOrder
  import opened Options
  import opened FoldRules
  import opened Strategies
  import opened Fold

  /** Two replicas that hold the same ops, listed in any two orders, agree on whether the fold fails
    * and on everything it returns.
    */
  lemma PermutationInvariant(a: seq<MergeOp>, b: seq<MergeOp>, rules: seq<FieldRule>, norm: Normalizer,
                             ra: Result<FoldResult>, rb: Result<FoldResult>)
    requires DistinctOps(a) && DistinctOps(b) && multiset(a) == multiset(b)
    requires a != [] && b != [] && a[0].objectID == b[0].objectID && KeysCompare(OpSetOf(a), a[0].objectID, rules, norm)
    requires ra.CycleError? <==> Cyclic(DagOf(OpSetOf(a), a[0].objectID))
    requires rb.CycleError? <==> Cyclic(DagOf(OpSetOf(b), b[0].objectID))
    requires ra.Ok? ==> IsFold(OpSetOf(a), a[0].objectID, rules, norm, ra.value)
    requires rb.Ok? ==> IsFold(OpSetOf(b), b[0].objectID, rules, norm, rb.value)
    ensures ra.Ok? == rb.Ok?
    ensures ra.Ok? ==> ra == rb
  {
    PermutationSameSet(a, b);
    hide IsFold, OpSetOf, DagOf, Cyclic, KeysCompare, DistinctOps;
    if ra.Ok? {
      FoldUnique(OpSetOf(a), a[0].objectID, rules, norm, ra.value, rb.value);
    }
  }

  // ---- Quarantine ----

  /** `part` is `whole` with some entries left out. */
  ghost predicate Subsequence<T>(part: seq<T>, whole: seq<T>) {
    if part == [] then true
    else if whole == [] then false
    else
      || (part[|part| - 1] == whole[|whole| - 1] && Subsequence(part[..|part| - 1], whole[..|whole| - 1]))
      || Subsequence(part, whole[..|whole| - 1])
  }

  lemma SubsequenceExtend<T>(part: seq<T>, whole: seq<T>, x: T)
    requires Subsequence(part, whole)
    ensures Subsequence(part, whole + [x]) && Subsequence(part + [x], whole + [x])
  {
    assert (whole + [x])[..|whole|] == whole && (part + [x])[..|part|] == part;
  }

  function Commits(records: seq<UnknownOp>): seq<Id> {
    if records == [] then [] else Commits(records[..|records| - 1]) + [records[|records| - 1].commit]
  }

  /** Reduced and unknown ops part the total order between them, each keeping its order. */
  lemma QuarantineParts(s: OpSet, rules: seq<FieldRule>, order: seq<Id>)
    requires WellKeyed(s) && forall id :: id in order ==> id in s
    ensures Subsequence(Reduced(s, rules, order), order)
    ensures Subsequence(Commits(Quarantined(s, rules, order)), order)
    ensures multiset(order) == multiset(Reduced(s, rules, order)) + multiset(Commits(Quarantined(s, rules, order)))
  {
    AreParts(s, rules, order);
  }

  /** Both parts keep the order, and together they are all of it. */
  ghost predicate Parts(r: seq<Id>, q: seq<Id>, order: seq<Id>) {
    Subsequence(r, order) && Subsequence(q, order) && multiset(order) == multiset(r) + multiset(q)
  }

  lemma PartsExtend(r: seq<Id>, q: seq<Id>, order: seq<Id>, x: Id)
    requires Parts(r, q, order)
    ensures Parts(r + [x], q, order + [x]) && Parts(r, q + [x], order + [x])
  {
    SubsequenceExtend(r, order, x);
    SubsequenceExtend(q, order, x);
    hide Subsequence;
  }

  lemma {:induction false} AreParts(s: OpSet, rules: seq<FieldRule>, order: seq<Id>)
    requires WellKeyed(s) && forall id :: id in order ==> id in s
    ensures Parts(Reduced(s, rules, order), Commits(Quarantined(s, rules, order)), order)
  {
    if order == [] {
      assert Parts([], [], []);
    } else {
      var n := |order| - 1;
      assert order == order[..n] + [order[n]];
      AreParts(s, rules, order[..n]);
      LastParted(s, rules, order);
      assert Record(s[order[n]]).commit == order[n];
      hide Reducible, Commits, Quarantined, Reduced, Parts, Record;
      var r, q := Reduced(s, rules, order[..n]), Quarantined(s, rules, order[..n]);
      PartsExtend(r, Commits(q), order[..n], order[n]);
      CommitsExtend(q, Record(s[order[n]]));
    }
  }

  lemma CommitsExtend(q: seq<UnknownOp>, u: UnknownOp)
    ensures Commits(q + [u]) == Commits(q) + [u.commit]
  {
    assert (q + [u])[..|q|] == q;
  }

  lemma LastParted(s: OpSet, rules: seq<FieldRule>, order: seq<Id>)
    requires order != [] && forall id :: id in order ==> id in s
    ensures var n := |order| - 1; var r, q := Reduced(s, rules, order[..n]), Quarantined(s, rules, order[..n]);
            if Reducible(s[order[n]], rules) then Reduced(s, rules, order) == r + [order[n]] && Quarantined(s, rules, order) == q
            else Reduced(s, rules, order) == r && Quarantined(s, rules, order) == q + [Record(s[order[n]])]
  {
    hide Reducible;
  }

  /** Replacing the body of a quarantined op by any other body that is quarantined too changes nothing
    * in the result: the op still orders and still counts as an ancestor, and still writes nothing.
    */
  lemma QuarantineNonInterfering(s: OpSet, s': OpSet, q: Id, objectID: string, rules: seq<FieldRule>, norm: Normalizer,
                                 a: FoldResult, b: FoldResult)
    requires DiffersInBody(s, s', q) && !Reducible(s[q], rules) && !Reducible(s'[q], rules)
    requires KeysCompare(s, objectID, rules, norm)
    requires IsFold(s, objectID, rules, norm, a) && IsFold(s', objectID, rules, norm, b)
    ensures a == b
  {
    hide KeysCompare, Reducible, IsFold, DiffersInBody;
    SameCompare(s, s', q, objectID, rules, norm);
    SameFold(s, s', q, objectID, rules, norm, a);
    FoldUnique(s', objectID, rules, norm, a, b);
  }

  lemma SameCompare(s: OpSet, s': OpSet, q: Id, objectID: string, rules: seq<FieldRule>, norm: Normalizer)
    requires DiffersInBody(s, s', q) && !Reducible(s[q], rules) && !Reducible(s'[q], rules)
    requires KeysCompare(s, objectID, rules, norm)
    ensures KeysCompare(s', objectID, rules, norm)
  {
    SameShape(s, s', q, objectID);
    var members := Members(s, objectID);
    hide Reducible, Members, WritesRegister, RegisterKey, DagOf;
    forall t ensures KeyCompares(s', objectID, rules, norm, RulesFor(s', members, rules, rules, t)) {
      SameRules(s, s', q, members, rules, rules, t);
      var frs := RulesFor(s, members, rules, rules, t);
      assert KeyCompares(s, objectID, rules, norm, frs);
      hide RulesFor;
      forall w | WriteOf(s', objectID, rules, frs, w) ensures WriteOf(s, objectID, rules, frs, w) {}
      hide WriteOf;
    }
  }

  lemma SameFold(s: OpSet, s': OpSet, q: Id, objectID: string, rules: seq<FieldRule>, norm: Normalizer, a: FoldResult)
    requires DiffersInBody(s, s', q) && !Reducible(s[q], rules) && !Reducible(s'[q], rules)
    requires IsFold(s, objectID, rules, norm, a)
    ensures IsFold(s', objectID, rules, norm, a)
  {
    hide *;
    var x := FoldOrder(s, objectID, rules, norm, a);
    SameOrder(s, s', q, objectID, x);
    SameParts(s, s', q, rules, x);
    SameState(s, s', q, objectID, rules, norm, x, a.state);
    FoldFrom(s', objectID, rules, norm, a, x);
  }

  lemma FoldOrder(s: OpSet, objectID: string, rules: seq<FieldRule>, norm: Normalizer, a: FoldResult) returns (x: seq<Id>)
    requires IsFold(s, objectID, rules, norm, a)
    ensures OrderOf(s, objectID, x) && (forall id :: id in x ==> id in s)
    ensures a.unknownOps == Quarantined(s, rules, x) && IsState(s, objectID, rules, norm, x, a.state)
  {
    hide OrderOf, Quarantined, IsState;
    x :| OrderOf(s, objectID, x) && (forall id :: id in x ==> id in s)
      && a.unknownOps == Quarantined(s, rules, x) && IsState(s, objectID, rules, norm, x, a.state);
  }

  lemma FoldFrom(s: OpSet, objectID: string, rules: seq<FieldRule>, norm: Normalizer, a: FoldResult, x: seq<Id>)
    requires OrderOf(s, objectID, x) && (forall id :: id in x ==> id in s)
    requires a.unknownOps == Quarantined(s, rules, x) && IsState(s, objectID, rules, norm, x, a.state)
    ensures IsFold(s, objectID, rules, norm, a)
  {
    hide OrderOf, Quarantined, IsState;
  }

  lemma SameOrder(s: OpSet, s': OpSet, q: Id, objectID: string, x: seq<Id>)
    requires DiffersInBody(s, s', q) && OrderOf(s, objectID, x) && forall id :: id in x ==> id in s
    ensures OrderOf(s', objectID, x) && forall id :: id in x ==> id in s'
  {
    assert s'.Keys == s.Keys;
    SameShape(s, s', q, objectID);
    hide DagOf, TotalOrder.CanonicalOrder;
  }

  lemma SameState(s: OpSet, s': OpSet, q: Id, objectID: string, rules: seq<FieldRule>, norm: Normalizer, order: seq<Id>, state: State)
    requires DiffersInBody(s, s', q) && !Reducible(s[q], rules) && !Reducible(s'[q], rules)
    requires (forall id :: id in order ==> id in s) && IsState(s, objectID, rules, norm, order, state)
    ensures (forall id :: id in order ==> id in s') && IsState(s', objectID, rules, norm, order, state)
  {
    assert s'.Keys == s.Keys;
    hide Reducible, KeySpec, DiffersInBody;
    forall t ensures KeySpec(s', objectID, rules, norm, order, t, At(state, t)) {
      SameKey(s, s', q, objectID, rules, norm, order, t, At(state, t));
    }
  }

  ghost predicate DiffersInBody(s: OpSet, s': OpSet, q: Id) {
    q in s && exists body :: s' == s[q := s[q].(body := body)]
  }

  lemma SameShape(s: OpSet, s': OpSet, q: Id, objectID: string)
    requires DiffersInBody(s, s', q)
    ensures Members(s', objectID) == Members(s, objectID) && DagOf(s', objectID) == DagOf(s, objectID)
  {
    var body :| s' == s[q := s[q].(body := body)];
    assert Members(s', objectID) == Members(s, objectID);
  }

  lemma {:induction false} SameParts(s: OpSet, s': OpSet, q: Id, rules: seq<FieldRule>, order: seq<Id>)
    requires DiffersInBody(s, s', q) && !Reducible(s[q], rules) && !Reducible(s'[q], rules)
    requires forall id :: id in order ==> id in s
    ensures Reduced(s', rules, order) == Reduced(s, rules, order)
    ensures Quarantined(s', rules, order) == Quarantined(s, rules, order)
  {
    hide Reducible;
    if order == [] {
    } else {
      SameParts(s, s', q, rules, order[..|order| - 1]);
    }
  }

  lemma {:induction false} SameRules(s: OpSet, s': OpSet, q: Id, members: set<Id>, rules: seq<FieldRule>, all: seq<FieldRule>, t: string)
    requires DiffersInBody(s, s', q) && !Reducible(s[q], all) && !Reducible(s'[q], all)
    ensures RulesFor(s', members, rules, all, t) == RulesFor(s, members, rules, all, t)
  {
    hide Reducible, HasWrite, OpMatchesRule;
    if rules == [] {
    } else {
      SameRules(s, s', q, members, rules[..|rules| - 1], all, t);
    }
  }

  lemma {:induction false} SameWritten(s: OpSet, s': OpSet, q: Id, ids: seq<Id>, frs: seq<FieldRule>)
    requires DiffersInBody(s, s', q) && q !in ids && forall id :: id in ids ==> id in s
    ensures Writes(ids, s', frs) == Writes(ids, s, frs)
  {
    if ids == [] {
    } else {
      SameWritten(s, s', q, ids[..|ids| - 1], frs);
    }
  }

  lemma SameKey(s: OpSet, s': OpSet, q: Id, objectID: string, rules: seq<FieldRule>, norm: Normalizer, order: seq<Id>, t: string, r: Option<Value>)
    requires DiffersInBody(s, s', q) && !Reducible(s[q], rules) && !Reducible(s'[q], rules)
    requires (forall id :: id in order ==> id in s) && KeySpec(s, objectID, rules, norm, order, t, r)
    ensures KeySpec(s', objectID, rules, norm, order, t, r)
  {
    SameShape(s, s', q, objectID);
    SameParts(s, s', q, rules, order);
    SameRules(s, s', q, Members(s, objectID), rules, rules, t);
    var frs := RulesFor(s, Members(s, objectID), rules, rules, t);
    SameWritten(s, s', q, Reduced(s, rules, order), frs);
    hide ArmSpec, DagOf, RulesFor, Writes, Reduced, Members, Reducible;
  }
}
