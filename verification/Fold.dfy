/** The reference fold: order, quarantine, and one merge arm per state key. */
module Fold {
  import opened CausalGraph
  import opened EffectiveTimes
  import TotalOrder
  import opened Reachability
  import opened Options
  import opened FoldRules
  import opened Strategies

  type State = map<string, Value>

  datatype FoldResult = FoldResult(state: State, unknownOps: seq<UnknownOp>)

  type OpSet = map<Id, MergeOp>

  // ---- The specification, over an unordered set of ops ----

  function Members(s: OpSet, objectID: string): set<Id> {
    set id | id in s && s[id].objectID == objectID
  }

  function DagOf(s: OpSet, objectID: string): (g: Graph)
    ensures Closed(g) && g.Keys == Members(s, objectID)
  {
    map id | id in Members(s, objectID) :: Node(Restrict(s[id].parents, Members(s, objectID)), s[id].time)
  }

  /** The ops of `order` that reduce, in that order. */
  function Reduced(s: OpSet, rules: seq<FieldRule>, order: seq<Id>): (kept: seq<Id>)
    requires forall id :: id in order ==> id in s
    ensures forall id :: id in kept <==> id in order && Reducible(s[id], rules)
  {
    if order == [] then []
    else
      var n := |order| - 1;
      assert order == order[..n] + [order[n]];
      Reduced(s, rules, order[..n]) + if Reducible(s[order[n]], rules) then [order[n]] else []
  }

  /** The records of the ops of `order` that contribute nothing, in that order. */
  function Quarantined(s: OpSet, rules: seq<FieldRule>, order: seq<Id>): seq<UnknownOp>
    requires forall id :: id in order ==> id in s
  {
    if order == [] then []
    else
      var n := |order| - 1;
      Quarantined(s, rules, order[..n]) + if Reducible(s[order[n]], rules) then [] else [Record(s[order[n]])]
  }

  predicate Relevant(s: OpSet, members: set<Id>, rules: seq<FieldRule>, r: FieldRule) {
    exists id :: id in members && id in s && Reducible(s[id], rules) && OpMatchesRule(s[id], r) && HasWrite(s[id], r)
  }

  /** The rules, in declaration order, that feed state key `t`. */
  function RulesFor(s: OpSet, members: set<Id>, rules: seq<FieldRule>, all: seq<FieldRule>, t: string): (frs: seq<FieldRule>)
    ensures forall r :: r in frs ==> r in rules && r.TargetKey() == t
  {
    if rules == [] then []
    else
      var n := |rules| - 1;
      RulesFor(s, members, rules[..n], all, t)
        + if rules[n].TargetKey() == t && Relevant(s, members, all, rules[n]) then [rules[n]] else []
  }

  ghost predicate ArmSpec(g: Graph, primary: FieldRule, ws: seq<Write>, norm: Normalizer, r: Option<Value>) {
    match primary.strategy
    case Lww => LwwSpec(ws, norm, r)
    case CreateOnce => CreateOnceSpec(ws, r)
    case SetUnion => SetUnionSpec(ws, norm, r)
    case ObservedRemove => ObservedRemoveSpec(g, ws, norm, r)
    case Append => AppendSpec(ws, r)
    case Tombstone => TombstoneSpec(g, ws, r)
    case Lattice => LatticeSpec(ws, primary.lattice, r)
    case KeyedLww => KeyedLwwSpec(ws, norm, r)
    case MultiValue => MultiValueSpec(g, ws, r)
  }

  /** State key `t` holds what its rules' first strategy makes of the reduced writes, in total order. */
  ghost predicate KeySpec(s: OpSet, objectID: string, rules: seq<FieldRule>, norm: Normalizer, order: seq<Id>, t: string, r: Option<Value>)
    requires forall id :: id in order ==> id in s
  {
    var frs := RulesFor(s, Members(s, objectID), rules, rules, t);
    if frs == [] then r == None
    else ArmSpec(DagOf(s, objectID), frs[0], Writes(Reduced(s, rules, order), s, frs), norm, r)
  }

  function At(state: State, t: string): Option<Value> { if t in state then Some(state[t]) else None }

  ghost predicate IsState(s: OpSet, objectID: string, rules: seq<FieldRule>, norm: Normalizer, order: seq<Id>, state: State)
    requires forall id :: id in order ==> id in s
  {
    forall t :: KeySpec(s, objectID, rules, norm, order, t, At(state, t))
  }

  ghost predicate OrderOf(s: OpSet, objectID: string, order: seq<Id>) {
    TotalOrder.CanonicalOrder(DagOf(s, objectID), order)
  }

  lemma OrderInside(s: OpSet, objectID: string, order: seq<Id>)
    requires OrderOf(s, objectID, order)
    ensures forall id :: id in order <==> id in Members(s, objectID)
    ensures forall id :: id in order ==> id in s
  {
    hide EffectiveTime, TotalOrder.Greedy;
  }

  /** What the fold of a set of ops is. The set is unordered: how the ops were listed cannot matter. */
  ghost predicate IsFold(s: OpSet, objectID: string, rules: seq<FieldRule>, norm: Normalizer, res: FoldResult) {
    exists order ::
      && OrderOf(s, objectID, order)
      && (forall id :: id in order ==> id in s)
      && res.unknownOps == Quarantined(s, rules, order)
      && IsState(s, objectID, rules, norm, order, res.state)
  }

  // ---- When the code can compare register keys ----

  /** `w` is a write a fold of `objectID` may hand to an arm. */
  predicate WriteOf(s: OpSet, objectID: string, rules: seq<FieldRule>, frs: seq<FieldRule>, w: Write) {
    && w.rule in frs && OpMatchesRule(w.op, w.rule)
    && exists id :: id in Members(s, objectID) && Reducible(s[id], rules) && w.op == s[id]
  }

  /** Under no keyed-lww state key does one register's key begin with another's: only then does the code compare
    * keys without running past the end of one.
    */
  ghost predicate KeysCompare(s: OpSet, objectID: string, rules: seq<FieldRule>, norm: Normalizer) {
    forall t :: KeyCompares(s, objectID, rules, norm, RulesFor(s, Members(s, objectID), rules, rules, t))
  }

  ghost predicate KeyCompares(s: OpSet, objectID: string, rules: seq<FieldRule>, norm: Normalizer, frs: seq<FieldRule>) {
    frs != [] && frs[0].strategy.KeyedLww? ==>
      forall a, b :: WriteOf(s, objectID, rules, frs, a) && WriteOf(s, objectID, rules, frs, b) ==> !Begins(a, b, norm)
  }

  predicate Begins(a: Write, b: Write, norm: Normalizer) {
    WritesRegister(a) && WritesRegister(b) && RegisterKey(a, norm) < RegisterKey(b, norm)
  }

  /** The rules alone ensure it when those that feed one keyed-lww state key declare keys of one length. */
  ghost predicate UniformKeys(rules: seq<FieldRule>) {
    forall r, q :: r in rules && q in rules && r.TargetKey() == q.TargetKey() && r.strategy.KeyedLww? ==> |r.key| == |q.key|
  }

  lemma UniformCompare(s: OpSet, objectID: string, rules: seq<FieldRule>, norm: Normalizer)
    requires UniformKeys(rules)
    ensures KeysCompare(s, objectID, rules, norm)
  {
    hide Reducible, WritesRegister, OpMatchesRule, KeyComponent, HasWrite;
    forall t ensures KeyCompares(s, objectID, rules, norm, RulesFor(s, Members(s, objectID), rules, rules, t)) {
      var frs := RulesFor(s, Members(s, objectID), rules, rules, t);
      hide RulesFor;
      if frs != [] && frs[0].strategy.KeyedLww? {
        forall a | WriteOf(s, objectID, rules, frs, a) ensures |RegisterKey(a, norm)| == |frs[0].key| {
          assert frs[0] in frs;
        }
      }
    }
  }

  // ---- Determinism ----

  lemma ArmUnique(g: Graph, primary: FieldRule, ws: seq<Write>, norm: Normalizer, a: Option<Value>, b: Option<Value>)
    requires ArmSpec(g, primary, ws, norm, a) && ArmSpec(g, primary, ws, norm, b)
    requires primary.strategy.KeyedLww? ==> Comparable(ws, norm)
    ensures a == b
  {
    hide LwwSpec, CreateOnceSpec, SetUnionSpec, ObservedRemoveSpec, TombstoneSpec, LatticeSpec, KeyedLwwSpec, MultiValueSpec, Comparable;
    match primary.strategy
    case Lww => LwwUnique(ws, norm, a, b);
    case CreateOnce => CreateOnceUnique(ws, a, b);
    case SetUnion => SetUnionUnique(ws, norm, a, b);
    case ObservedRemove => ObservedRemoveUnique(g, ws, norm, a, b);
    case Append =>
    case Tombstone => TombstoneUnique(g, ws, a, b);
    case Lattice => LatticeUnique(ws, primary.lattice, a, b);
    case KeyedLww => KeyedLwwUnique(ws, norm, a, b);
    case MultiValue => MultiValueUnique(g, ws, a, b);
  }

  lemma WritesCompare(s: OpSet, objectID: string, rules: seq<FieldRule>, norm: Normalizer, order: seq<Id>, frs: seq<FieldRule>)
    requires KeyCompares(s, objectID, rules, norm, frs) && frs != [] && frs[0].strategy.KeyedLww?
    requires (forall id :: id in order ==> id in s && id in Members(s, objectID) && Reducible(s[id], rules))
    ensures Comparable(Writes(order, s, frs), norm)
  {
    WritesAreOf(s, objectID, rules, order, frs);
    var ws := Writes(order, s, frs);
    hide Writes, WriteOf, WritesRegister, RegisterKey, Reducible, Members, OpMatchesRule, KeyCompares, Begins;
    forall a, b | a in ws && b in ws ensures !Begins(a, b, norm) {
      PairCompares(s, objectID, rules, norm, frs, a, b);
    }
    NoneBegins(ws, norm);
  }

  lemma PairCompares(s: OpSet, objectID: string, rules: seq<FieldRule>, norm: Normalizer, frs: seq<FieldRule>, a: Write, b: Write)
    requires KeyCompares(s, objectID, rules, norm, frs) && frs != [] && frs[0].strategy.KeyedLww?
    requires WriteOf(s, objectID, rules, frs, a) && WriteOf(s, objectID, rules, frs, b)
    ensures !Begins(a, b, norm)
  {
    hide WriteOf, Begins;
  }

  lemma NoneBegins(ws: seq<Write>, norm: Normalizer)
    requires forall a, b :: a in ws && b in ws ==> !Begins(a, b, norm)
    ensures Comparable(ws, norm)
  {
    hide WritesRegister, RegisterKey;
  }

  lemma WritesAreOf(s: OpSet, objectID: string, rules: seq<FieldRule>, order: seq<Id>, frs: seq<FieldRule>)
    requires (forall id :: id in order ==> id in s && id in Members(s, objectID) && Reducible(s[id], rules))
    ensures forall w :: w in Writes(order, s, frs) ==> WriteOf(s, objectID, rules, frs, w)
  {
    hide Reducible, OpMatchesRule, Members;
    forall w | w in Writes(order, s, frs) ensures WriteOf(s, objectID, rules, frs, w) {}
  }

  lemma KeyUnique(s: OpSet, objectID: string, rules: seq<FieldRule>, norm: Normalizer, order: seq<Id>, t: string, a: Option<Value>, b: Option<Value>)
    requires KeysCompare(s, objectID, rules, norm) && forall id :: id in order ==> id in s && id in Members(s, objectID)
    requires KeySpec(s, objectID, rules, norm, order, t, a) && KeySpec(s, objectID, rules, norm, order, t, b)
    ensures a == b
  {
    hide ArmSpec, Comparable, KeyCompares, RulesFor, Writes, Reduced, DagOf, Members, Reducible;
    var frs := RulesFor(s, Members(s, objectID), rules, rules, t);
    if frs != [] {
      assert KeyCompares(s, objectID, rules, norm, frs);
      if frs[0].strategy.KeyedLww? { WritesCompare(s, objectID, rules, norm, Reduced(s, rules, order), frs); }
      ArmUnique(DagOf(s, objectID), frs[0], Writes(Reduced(s, rules, order), s, frs), norm, a, b);
    }
  }

  lemma StateUnique(s: OpSet, objectID: string, rules: seq<FieldRule>, norm: Normalizer, order: seq<Id>, a: State, b: State)
    requires KeysCompare(s, objectID, rules, norm) && (forall id :: id in order ==> id in s && id in Members(s, objectID))
    requires IsState(s, objectID, rules, norm, order, a) && IsState(s, objectID, rules, norm, order, b)
    ensures a == b
  {
    hide KeySpec, KeysCompare, Members;
    forall t ensures At(a, t) == At(b, t) {
      KeyUnique(s, objectID, rules, norm, order, t, At(a, t), At(b, t));
    }
    forall t ensures t in a <==> t in b { assert At(a, t) == At(b, t); }
    forall t | t in a ensures a[t] == b[t] { assert At(a, t) == At(b, t); }
  }

  /** Strong convergence: one set of ops has one fold. */
  lemma FoldUnique(s: OpSet, objectID: string, rules: seq<FieldRule>, norm: Normalizer, a: FoldResult, b: FoldResult)
    requires KeysCompare(s, objectID, rules, norm)
    requires IsFold(s, objectID, rules, norm, a) && IsFold(s, objectID, rules, norm, b)
    ensures a == b
  {
    hide OrderOf, IsState, Quarantined, KeysCompare, Members;
    var x :| OrderOf(s, objectID, x) && (forall id :: id in x ==> id in s)
          && a.unknownOps == Quarantined(s, rules, x) && IsState(s, objectID, rules, norm, x, a.state);
    var y :| OrderOf(s, objectID, y) && (forall id :: id in y ==> id in s)
          && b.unknownOps == Quarantined(s, rules, y) && IsState(s, objectID, rules, norm, y, b.state);
    OrderUnique(s, objectID, x, y);
    OrderInside(s, objectID, x);
    StateUnique(s, objectID, rules, norm, x, a.state, b.state);
  }

  lemma OrderUnique(s: OpSet, objectID: string, x: seq<Id>, y: seq<Id>)
    requires OrderOf(s, objectID, x) && OrderOf(s, objectID, y)
    ensures x == y
  {
    TotalOrder.CanonicalOrderUnique(DagOf(s, objectID), x, y);
  }

  // ---- From a list of ops to the set ----

  ghost predicate DistinctOps(ops: seq<MergeOp>) {
    forall i, j :: 0 <= i < j < |ops| ==> ops[i].id != ops[j].id
  }

  function OpSetOf(ops: seq<MergeOp>): OpSet {
    if ops == [] then map[] else OpSetOf(ops[..|ops| - 1])[ops[|ops| - 1].id := ops[|ops| - 1]]
  }

  lemma {:induction false} OpSetMeans(ops: seq<MergeOp>)
    requires DistinctOps(ops)
    ensures forall i :: 0 <= i < |ops| ==> ops[i].id in OpSetOf(ops) && OpSetOf(ops)[ops[i].id] == ops[i]
    ensures forall id :: id in OpSetOf(ops) ==> exists i :: 0 <= i < |ops| && ops[i].id == id
  {
    if ops == [] {
    } else {
      OpSetMeans(ops[..|ops| - 1]);
    }
  }

  /** The listing order of the ops is forgotten: permutations make the same set. */
  lemma PermutationSameSet(a: seq<MergeOp>, b: seq<MergeOp>)
    requires DistinctOps(a) && DistinctOps(b) && multiset(a) == multiset(b)
    ensures OpSetOf(a) == OpSetOf(b)
  {
    forall op ensures op in a <==> op in b {
      assert op in multiset(a) <==> op in multiset(b);
    }
    forall id ensures (id in OpSetOf(a) ==> id in OpSetOf(b) && OpSetOf(b)[id] == OpSetOf(a)[id]) && (id in OpSetOf(b) ==> id in OpSetOf(a)) {
      SetInside(a, b, id);
      SetInside(b, a, id);
    }
  }

  lemma SetInside(a: seq<MergeOp>, b: seq<MergeOp>, id: Id)
    requires DistinctOps(a) && DistinctOps(b) && forall op :: op in a ==> op in b
    ensures id in OpSetOf(a) ==> id in OpSetOf(b) && OpSetOf(b)[id] == OpSetOf(a)[id]
  {
    OpSetMeans(a);
    OpSetMeans(b);
    hide OpSetOf, DistinctOps;
    if id in OpSetOf(a) {
      var i :| 0 <= i < |a| && a[i].id == id;
      assert a[i] in b;
      var j :| 0 <= j < |b| && b[j] == a[i];
    }
  }

  function ToOrderOp(op: MergeOp): OrderOp { OrderOp(op.id, op.parents, op.time, op.objectID) }

  function OrderOps(ops: seq<MergeOp>): seq<OrderOp> {
    if ops == [] then [] else OrderOps(ops[..|ops| - 1]) + [ToOrderOp(ops[|ops| - 1])]
  }

  lemma SameDag(ops: seq<MergeOp>, objectID: string)
    requires DistinctOps(ops)
    ensures TotalOrder.DistinctIds(OrderOps(ops))
    ensures TotalOrder.InSet(OrderOps(ops), objectID) == Members(OpSetOf(ops), objectID)
    ensures TotalOrder.ObjectGraph(OrderOps(ops), objectID) == DagOf(OpSetOf(ops), objectID)
  {
    OrderOpsMean(ops);
    hide Restrict, OpSetOf, OrderOps;
    SameMembers(ops, objectID);
    var g, d := TotalOrder.ObjectGraph(OrderOps(ops), objectID), DagOf(OpSetOf(ops), objectID);
    assert g.Keys == d.Keys;
    forall id | id in d ensures g[id] == d[id] {
      OpSetMeans(ops);
      var i :| 0 <= i < |ops| && ops[i].id == id;
      SameNode(ops, objectID, i);
    }
  }

  lemma SameNode(ops: seq<MergeOp>, objectID: string, i: nat)
    requires DistinctOps(ops) && i < |ops| && ops[i].objectID == objectID
    ensures ops[i].id in TotalOrder.ObjectGraph(OrderOps(ops), objectID) && ops[i].id in DagOf(OpSetOf(ops), objectID)
    ensures TotalOrder.ObjectGraph(OrderOps(ops), objectID)[ops[i].id] == DagOf(OpSetOf(ops), objectID)[ops[i].id]
  {
    OrderOpsMean(ops);
    SameMembers(ops, objectID);
    OpSetMeans(ops);
    hide OpSetOf, OrderOps;
    TotalOrder.NodeOf(OrderOps(ops), objectID, i);
  }

  lemma {:induction false} OrderOpsMean(ops: seq<MergeOp>)
    ensures |OrderOps(ops)| == |ops| && forall i :: 0 <= i < |ops| ==> OrderOps(ops)[i] == ToOrderOp(ops[i])
  {
    if ops == [] {
    } else {
      OrderOpsMean(ops[..|ops| - 1]);
    }
  }

  lemma SameMembers(ops: seq<MergeOp>, objectID: string)
    requires DistinctOps(ops)
    ensures TotalOrder.InSet(OrderOps(ops), objectID) == Members(OpSetOf(ops), objectID)
  {
    OpSetMeans(ops);
    OrderOpsMean(ops);
    hide OpSetOf, OrderOps;
    var a, b := TotalOrder.InSet(OrderOps(ops), objectID), Members(OpSetOf(ops), objectID);
    forall id ensures id in a <==> id in b {
      if id in a {
        var i :| 0 <= i < |ops| && OrderOps(ops)[i].objectID == objectID && OrderOps(ops)[i].id == id;
        assert ops[i].id == id;
      }
      if id in b {
        var i :| 0 <= i < |ops| && ops[i].id == id;
        assert OrderOps(ops)[i] in OrderOps(ops);
      }
    }
  }

  // ---- The fold itself ----

  /** Walks the total order once, parting the ops that reduce from those that are set aside. */
  method Quarantine(opMap: OpSet, rules: seq<FieldRule>, order: seq<Id>)
    returns (reduceOrder: seq<Id>, unknownOps: seq<UnknownOp>, rejected: set<Id>)
    requires forall id :: id in order ==> id in opMap
    ensures reduceOrder == Reduced(opMap, rules, order)
    ensures unknownOps == Quarantined(opMap, rules, order)
    ensures forall id :: id in rejected <==> id in order && Known(opMap[id], rules) && Uninterpretable(opMap[id], rules)
  {
    hide Known, Uninterpretable;
    reduceOrder, unknownOps, rejected := [], [], {};
    for i := 0 to |order|
      invariant reduceOrder == Reduced(opMap, rules, order[..i])
      invariant unknownOps == Quarantined(opMap, rules, order[..i])
      invariant forall id :: id in rejected <==> exists k :: 0 <= k < i && order[k] == id && Known(opMap[id], rules) && Uninterpretable(opMap[id], rules)
    {
      assert order[..i + 1][..i] == order[..i];
      var op := opMap[order[i]];
      var known := Known(op, rules);
      if known && Uninterpretable(op, rules) {
        rejected := rejected + {order[i]};
        known := false;
      }
      if known {
        reduceOrder := reduceOrder + [order[i]];
      } else {
        unknownOps := unknownOps + [Record(op)];
      }
    }
    assert order[..|order|] == order;
  }

  function Matched(m: map<string, seq<FieldRule>>, t: string): seq<FieldRule> { if t in m then m[t] else [] }

  /** The ops in the order they were given, minus those outside the object and those rejected. */
  method Unrejected(ops: seq<MergeOp>, inSet: set<Id>, rejected: set<Id>) returns (kept: seq<Id>)
    ensures forall id :: id in kept <==> id in inSet && id !in rejected && exists i :: 0 <= i < |ops| && ops[i].id == id
  {
    kept := [];
    for i := 0 to |ops|
      invariant forall id :: id in kept <==> id in inSet && id !in rejected && exists k :: 0 <= k < i && ops[k].id == id
    {
      if ops[i].id in inSet && ops[i].id !in rejected {
        kept := kept + [ops[i].id];
      }
    }
  }

  /** The first `n` rules are filed under their state keys, in declaration order. */
  ghost predicate RulesFiled(matched: map<string, seq<FieldRule>>, opMap: OpSet, members: set<Id>, rules: seq<FieldRule>, n: nat) {
    && n <= |rules|
    && (forall t :: Matched(matched, t) == RulesFor(opMap, members, rules[..n], rules, t))
    && forall t :: t in matched ==> matched[t] != []
  }

  lemma RulesForNext(opMap: OpSet, members: set<Id>, rules: seq<FieldRule>, n: nat, t: string)
    requires n < |rules|
    ensures var r, before := rules[n], RulesFor(opMap, members, rules[..n], rules, t);
            RulesFor(opMap, members, rules[..n + 1], rules, t)
              == if r.TargetKey() == t && Relevant(opMap, members, rules, r) then before + [r] else before
  {
    hide Relevant;
    assert rules[..n + 1][..n] == rules[..n];
  }

  lemma FileRule(matched: map<string, seq<FieldRule>>, opMap: OpSet, members: set<Id>, rules: seq<FieldRule>, n: nat)
    requires n < |rules| && RulesFiled(matched, opMap, members, rules, n)
    ensures var key := rules[n].TargetKey();
            RulesFiled(if Relevant(opMap, members, rules, rules[n]) then matched[key := Matched(matched, key) + [rules[n]]] else matched,
                       opMap, members, rules, n + 1)
  {
    hide Relevant, RulesFor;
    var key := rules[n].TargetKey();
    var next := if Relevant(opMap, members, rules, rules[n]) then matched[key := Matched(matched, key) + [rules[n]]] else matched;
    forall t ensures Matched(next, t) == RulesFor(opMap, members, rules[..n + 1], rules, t) {
      RulesForNext(opMap, members, rules, n, t);
      assert Matched(matched, t) == RulesFor(opMap, members, rules[..n], rules, t);
    }
  }

  /** Files each rule some kept op makes relevant under its state key. */
  method MatchRules(opMap: OpSet, ghost members: set<Id>, rules: seq<FieldRule>, kept: seq<Id>) returns (matched: map<string, seq<FieldRule>>)
    requires forall id :: id in kept ==> id in opMap
    requires forall id :: id in kept <==> id in members && id in opMap && !(Known(opMap[id], rules) && Uninterpretable(opMap[id], rules))
    ensures forall t :: Matched(matched, t) == RulesFor(opMap, members, rules, rules, t)
    ensures forall t :: t in matched ==> matched[t] != []
  {
    matched := map[];
    for j := 0 to |rules|
      invariant RulesFiled(matched, opMap, members, rules, j)
    {
      hide Known, Uninterpretable, Relevant, OpMatchesRule, HasWrite, RulesFiled, RulesFor, Matched;
      var r := rules[j];
      RelevantMeans(opMap, members, rules, kept, j);
      FileRule(matched, opMap, members, rules, j);
      if exists i :: 0 <= i < |kept| && OpMatchesRule(opMap[kept[i]], r) && HasWrite(opMap[kept[i]], r) {
        matched := matched[r.TargetKey() := Matched(matched, r.TargetKey()) + [r]];
      }
    }
    assert rules[..|rules|] == rules;
  }

  lemma RelevantMeans(s: OpSet, members: set<Id>, rules: seq<FieldRule>, kept: seq<Id>, j: nat)
    requires j < |rules| && forall id :: id in kept ==> id in s
    requires forall id :: id in kept <==> id in members && id in s && !(Known(s[id], rules) && Uninterpretable(s[id], rules))
    ensures Relevant(s, members, rules, rules[j]) <==>
            exists i :: 0 <= i < |kept| && OpMatchesRule(s[kept[i]], rules[j]) && HasWrite(s[kept[i]], rules[j])
  {
    hide HasWrite, Uninterpretable, OpMatchesRule;
    forall id | id in members && id in s && OpMatchesRule(s[id], rules[j]) ensures Known(s[id], rules) {}
    hide Known;
    if Relevant(s, members, rules, rules[j]) {
      var id :| id in members && id in s && Reducible(s[id], rules) && OpMatchesRule(s[id], rules[j]) && HasWrite(s[id], rules[j]);
      assert id in kept;
    }
    if i :| 0 <= i < |kept| && OpMatchesRule(s[kept[i]], rules[j]) && HasWrite(s[kept[i]], rules[j]) {
      assert kept[i] in kept && Known(s[kept[i]], rules);
    }
  }

  /** What an arm is entitled to: the two listings carry the same writes, and the ancestor table
    * answers for every op among them.
    */
  ghost predicate KeyReady(g: Graph, ancestors: Ancestors, opMap: OpSet, norm: Normalizer, reduceOrder: seq<Id>, kept: seq<Id>, frs: seq<FieldRule>) {
    && frs != [] && (forall id :: id in reduceOrder ==> id in opMap) && (forall id :: id in kept ==> id in opMap)
    && SameWrites(Writes(kept, opMap, frs), Writes(reduceOrder, opMap, frs))
    && Answers(g, ancestors, Writes(reduceOrder, opMap, frs))
    && (frs[0].strategy.KeyedLww? ==> Comparable(Writes(reduceOrder, opMap, frs), norm))
  }

  /** One state key: the arm its first rule names. Two arms read the ops as they came instead of in
    * total order; the other seven walk the reduce order.
    */
  method FoldKey(ghost g: Graph, ancestors: Ancestors, opMap: OpSet, reduceOrder: seq<Id>, kept: seq<Id>, frs: seq<FieldRule>, norm: Normalizer)
    returns (r: Option<Value>)
    requires KeyReady(g, ancestors, opMap, norm, reduceOrder, kept, frs)
    ensures KeyFolded(g, opMap, norm, reduceOrder, frs, r)
  {
    hide LwwSpec, CreateOnceSpec, SetUnionSpec, ObservedRemoveSpec, AppendSpec, TombstoneSpec, LatticeSpec, KeyedLwwSpec, MultiValueSpec;
    hide Comparable, Writes, IsAncestor, Precedes;
    var ws := CollectWrites(reduceOrder, opMap, frs);
    match frs[0].strategy {
      case Lww => r := ReduceLww(ws, norm);
      case CreateOnce => r := ReduceCreateOnce(ws);
      case SetUnion => r := ReduceSetUnion(ws, norm);
      case ObservedRemove =>
        var unordered := CollectWrites(kept, opMap, frs);
        r := ReduceObservedRemove(g, ancestors, unordered, norm);
        ObservedRemoveUnordered(g, unordered, ws, norm, r);
      case Append => r := ReduceAppend(ws);
      case Tombstone =>
        var unordered := CollectWrites(kept, opMap, frs);
        r := ReduceTombstone(g, ancestors, unordered);
        TombstoneUnordered(g, unordered, ws, r);
      case Lattice => r := ReduceLattice(ws, frs[0].lattice);
      case KeyedLww => r := ReduceKeyedLww(ws, norm);
      case MultiValue => r := ReduceMultiValue(g, ancestors, ws);
    }
  }

  method IndexOps(ops: seq<MergeOp>) returns (opMap: OpSet)
    ensures opMap == OpSetOf(ops)
  {
    opMap := map[];
    for i := 0 to |ops|
      invariant opMap == OpSetOf(ops[..i])
    {
      assert ops[..i + 1][..i] == ops[..i];
      opMap := opMap[ops[i].id := ops[i]];
    }
    assert ops[..|ops|] == ops;
  }

  /** Every key whose arm produces a value gets it. The code takes the keys in sorted order; any order
    * leaves the same map.
    */
  method FoldKeys(ghost g: Graph, ancestors: Ancestors, opMap: OpSet, norm: Normalizer, reduceOrder: seq<Id>, kept: seq<Id>,
                  matched: map<string, seq<FieldRule>>) returns (state: State)
    requires forall t :: t in matched ==> KeyReady(g, ancestors, opMap, norm, reduceOrder, kept, matched[t])
    ensures state.Keys <= matched.Keys
    ensures forall t :: t in matched ==> KeyFolded(g, opMap, norm, reduceOrder, matched[t], At(state, t))
  {
    hide KeyReady, KeyFolded;
    state := map[];
    var todo := matched.Keys;
    while todo != {}
      invariant todo <= matched.Keys && state.Keys <= matched.Keys - todo
      invariant forall t :: t in matched && t !in todo ==> KeyFolded(g, opMap, norm, reduceOrder, matched[t], At(state, t))
      decreases todo
    {
      var t :| t in todo;
      todo := todo - {t};
      var r := FoldKey(g, ancestors, opMap, reduceOrder, kept, matched[t], norm);
      if r.Some? {
        state := state[t := r.value];
      }
    }
  }

  ghost predicate KeyFolded(g: Graph, opMap: OpSet, norm: Normalizer, reduceOrder: seq<Id>, frs: seq<FieldRule>, r: Option<Value>) {
    && frs != [] && (forall id :: id in reduceOrder ==> id in opMap)
    && ArmSpec(g, frs[0], Writes(reduceOrder, opMap, frs), norm, r)
  }

  /** The state the arms leave, key by key. */
  method FoldState(ancestors: Ancestors, opMap: OpSet, ghost objectID: string, rules: seq<FieldRule>, norm: Normalizer,
                   ghost order: seq<Id>, reduceOrder: seq<Id>, kept: seq<Id>) returns (state: State)
    requires KeysCompare(opMap, objectID, rules, norm) && WellKeyed(opMap) && TellsAll(DagOf(opMap, objectID), ancestors)
    requires (forall id :: id in order <==> id in Members(opMap, objectID)) && forall id :: id in order ==> id in opMap
    requires reduceOrder == Reduced(opMap, rules, order) && KeepsAll(opMap, rules, order, kept)
    ensures IsState(opMap, objectID, rules, norm, order, state)
  {
    hide RulesFor, Reduced, DagOf, IsState, KeyReady, KeyFolded, KeysCompare, WellKeyed, TellsAll, Reducible, Known, Uninterpretable;
    var matched := MatchRules(opMap, Members(opMap, objectID), rules, kept);
    KeysReady(DagOf(opMap, objectID), ancestors, opMap, objectID, rules, norm, order, kept, matched);
    hide *;
    state := FoldKeys(DagOf(opMap, objectID), ancestors, opMap, norm, reduceOrder, kept, matched);
    KeysGiveState(opMap, objectID, rules, norm, order, matched, state);
  }

  ghost predicate TellsAll(g: Graph, ancestors: Ancestors)
    requires Closed(g)
  {
    ancestors.Keys == g.Keys && forall u :: u in g ==> ancestors[u] == Past(g, u)
  }

  /** `kept` lists the ops of `order` that no rule rejects. */
  ghost predicate KeepsAll(s: OpSet, rules: seq<FieldRule>, order: seq<Id>, kept: seq<Id>)
    requires forall id :: id in order ==> id in s
  {
    forall id :: id in kept <==> id in order && !(Known(s[id], rules) && Uninterpretable(s[id], rules))
  }

  /** Folds one object's ops. It fails exactly when they form a causal cycle; otherwise the result is
    * the fold of the set of ops.
    */
  method Fold(ops: seq<MergeOp>, rules: seq<FieldRule>, norm: Normalizer) returns (r: Result<FoldResult>)
    requires DistinctOps(ops) && (ops != [] ==> KeysCompare(OpSetOf(ops), ops[0].objectID, rules, norm))
    ensures ops == [] ==> r == Ok(FoldResult(map[], []))
    ensures ops != [] ==> (r.CycleError? <==> Cyclic(DagOf(OpSetOf(ops), ops[0].objectID)))
    ensures ops != [] && r.Ok? ==> IsFold(OpSetOf(ops), ops[0].objectID, rules, norm, r.value)
  {
    if |ops| == 0 {
      return Ok(FoldResult(map[], []));
    }
    hide *;
    var objectID := ops[0].objectID;
    var opMap, ancestors, totalOrder := Prepare(ops, objectID);
    if totalOrder.CycleError? {
      return CycleError(totalOrder.op);
    }
    var order := totalOrder.value;
    OrderInside(opMap, objectID, order);
    var reduceOrder, unknownOps, kept := Sift(ops, opMap, objectID, rules, order);
    var state := FoldState(ancestors, opMap, objectID, rules, norm, order, reduceOrder, kept);
    FoldHolds(opMap, objectID, rules, norm, order, FoldResult(state, unknownOps));
    return Ok(FoldResult(state, unknownOps));
  }

  /** The ops by id, their total order and their ancestor table. */
  method Prepare(ops: seq<MergeOp>, objectID: string) returns (opMap: OpSet, ancestors: Ancestors, totalOrder: Result<seq<Id>>)
    requires DistinctOps(ops)
    ensures opMap == OpSetOf(ops) && WellKeyed(opMap)
    ensures totalOrder.CycleError? <==> Cyclic(DagOf(opMap, objectID))
    ensures totalOrder.Ok? ==> OrderOf(opMap, objectID, totalOrder.value) && TellsAll(DagOf(opMap, objectID), ancestors)
  {
    SameDag(ops, objectID);
    assert WellKeyed(OpSetOf(ops)) by { OpSetMeans(ops); }
    hide OpSetOf, OrderOps, WellKeyed, Past, DagOf, Cyclic, RestrictedGraph;
    opMap := IndexOps(ops);
    var orderOps := OrderOps(ops);
    var inSet := TotalOrder.InSet(orderOps, objectID);
    ancestors := map[];
    totalOrder := TotalOrder.Order(orderOps, objectID);
    if totalOrder.Ok? {
      ancestors := BuildReachabilityMap(orderOps, inSet);
    }
  }

  /** What the arms read: the ops that reduce, in total order, and those not rejected, as they came. */
  method Sift(ops: seq<MergeOp>, opMap: OpSet, objectID: string, rules: seq<FieldRule>, order: seq<Id>)
    returns (reduceOrder: seq<Id>, unknownOps: seq<UnknownOp>, kept: seq<Id>)
    requires DistinctOps(ops) && opMap == OpSetOf(ops)
    requires (forall id :: id in order <==> id in Members(opMap, objectID)) && forall id :: id in order ==> id in opMap
    ensures reduceOrder == Reduced(opMap, rules, order) && unknownOps == Quarantined(opMap, rules, order)
    ensures KeepsAll(opMap, rules, order, kept)
  {
    hide *;
    var rejected;
    reduceOrder, unknownOps, rejected := Quarantine(opMap, rules, order);
    kept := Unrejected(ops, Members(opMap, objectID), rejected);
    KeptIs(ops, opMap, objectID, rules, order, rejected, kept);
  }

  lemma KeptIs(ops: seq<MergeOp>, s: OpSet, objectID: string, rules: seq<FieldRule>, order: seq<Id>, rejected: set<Id>, kept: seq<Id>)
    requires DistinctOps(ops) && s == OpSetOf(ops)
    requires (forall id :: id in order <==> id in Members(s, objectID)) && forall id :: id in order ==> id in s
    requires forall id :: id in rejected <==> id in order && Known(s[id], rules) && Uninterpretable(s[id], rules)
    requires forall id :: id in kept <==> id in Members(s, objectID) && id !in rejected && exists i :: 0 <= i < |ops| && ops[i].id == id
    ensures KeepsAll(s, rules, order, kept)
  {
    OpSetMeans(ops);
    hide Known, Uninterpretable, OpSetOf, DistinctOps, Members;
  }

  lemma FoldHolds(s: OpSet, objectID: string, rules: seq<FieldRule>, norm: Normalizer, order: seq<Id>, res: FoldResult)
    requires OrderOf(s, objectID, order) && (forall id :: id in order ==> id in s)
    requires res.unknownOps == Quarantined(s, rules, order) && IsState(s, objectID, rules, norm, order, res.state)
    ensures IsFold(s, objectID, rules, norm, res)
  {
    hide OrderOf, Quarantined, IsState;
  }

  ghost predicate WellKeyed(s: OpSet) { forall id :: id in s ==> s[id].id == id }

  lemma KeysGiveState(s: OpSet, objectID: string, rules: seq<FieldRule>, norm: Normalizer, order: seq<Id>,
                      matched: map<string, seq<FieldRule>>, state: State)
    requires forall id :: id in order ==> id in s
    requires forall t :: Matched(matched, t) == RulesFor(s, Members(s, objectID), rules, rules, t)
    requires state.Keys <= matched.Keys
    requires forall t :: t in matched ==> KeyFolded(DagOf(s, objectID), s, norm, Reduced(s, rules, order), matched[t], At(state, t))
    ensures IsState(s, objectID, rules, norm, order, state)
  {
    hide ArmSpec, RulesFor, DagOf, Members, Writes;
    forall t ensures KeySpec(s, objectID, rules, norm, order, t, At(state, t)) {
      assert Matched(matched, t) == RulesFor(s, Members(s, objectID), rules, rules, t);
      if t in matched {
        assert KeyFolded(DagOf(s, objectID), s, norm, Reduced(s, rules, order), matched[t], At(state, t));
      }
    }
  }

  lemma KeysReady(g: Graph, ancestors: Ancestors, s: OpSet, objectID: string, rules: seq<FieldRule>, norm: Normalizer, order: seq<Id>,
                  kept: seq<Id>, matched: map<string, seq<FieldRule>>)
    requires g == DagOf(s, objectID) && KeysCompare(s, objectID, rules, norm) && WellKeyed(s) && TellsAll(g, ancestors)
    requires forall id :: id in order <==> id in Members(s, objectID)
    requires forall id :: id in order ==> id in s
    requires KeepsAll(s, rules, order, kept)
    requires forall t :: Matched(matched, t) == RulesFor(s, Members(s, objectID), rules, rules, t)
    requires forall t :: t in matched ==> matched[t] != []
    ensures forall t :: t in matched ==> KeyReady(g, ancestors, s, norm, Reduced(s, rules, order), kept, matched[t])
  {
    hide Comparable, SameWrites, Answers, Writes, RulesFor, KeyCompares, Known, Uninterpretable, Past, DagOf, Members;
    forall t | t in matched ensures KeyReady(g, ancestors, s, norm, Reduced(s, rules, order), kept, matched[t]) {
      var frs := matched[t];
      assert Matched(matched, t) == frs;
      assert KeyCompares(s, objectID, rules, norm, frs);
      if frs[0].strategy.KeyedLww? { WritesCompare(s, objectID, rules, norm, Reduced(s, rules, order), frs); }
      KeptWrites(s, rules, order, kept, frs);
      TableAnswers(g, ancestors, s, Reduced(s, rules, order), frs);
    }
  }

  /** Ops no rule knows write nothing, so leaving them in or out makes no difference. */
  lemma KeptWrites(s: OpSet, rules: seq<FieldRule>, order: seq<Id>, kept: seq<Id>, frs: seq<FieldRule>)
    requires forall id :: id in order ==> id in s
    requires forall id :: id in kept <==> id in order && !(Known(s[id], rules) && Uninterpretable(s[id], rules))
    requires forall r :: r in frs ==> r in rules
    ensures SameWrites(Writes(kept, s, frs), Writes(Reduced(s, rules, order), s, frs))
  {
    var a, b := Writes(kept, s, frs), Writes(Reduced(s, rules, order), s, frs);
    hide Uninterpretable, OpMatchesRule, Writes;
    forall w ensures w in a <==> w in b {
      if w in a {
        var id :| id in kept && w.op == s[id];
        var i :| 0 <= i < |rules| && rules[i] == w.rule;
        assert Known(s[id], rules);
      }
    }
  }

  lemma TableAnswers(g: Graph, ancestors: Ancestors, s: OpSet, ids: seq<Id>, frs: seq<FieldRule>)
    requires Closed(g) && ancestors.Keys == g.Keys && forall u :: u in g ==> ancestors[u] == Past(g, u)
    requires WellKeyed(s) && forall id :: id in ids ==> id in s && id in g
    ensures Answers(g, ancestors, Writes(ids, s, frs))
  {
    hide Precedes, OpMatchesRule;
  }
}
