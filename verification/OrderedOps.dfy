/** What the typed folds share: reading an object's ops in total order, and what changes when one more op is
  * appended on the object's frontier.
  */
module OrderedOps {
  import opened CausalGraph
  import opened EffectiveTimes
  import EngineOrder
  import EngineReach
  import opened Options
  import opened FoldRules
  import opened Fold
  import opened Frontier

  function Rule(opType: string, field: string, strategy: Strategy): FieldRule {
    FieldRule(opType, 1, field, "", strategy, [], [], false, false, [])
  }

  type Reading = MergeOp -> Option<string>

  predicate SilentAfter(ops: seq<MergeOp>, f: Reading, i: int) {
    forall j :: 0 <= j < |ops| && i < j ==> f(ops[j]).None?
  }

  /** The last thing said; nothing said reads as empty. */
  predicate Latest(ops: seq<MergeOp>, f: Reading, r: string) {
    if forall i :: 0 <= i < |ops| ==> f(ops[i]).None? then r == ""
    else exists i :: 0 <= i < |ops| && f(ops[i]) == Some(r) && SilentAfter(ops, f, i)
  }

  lemma {:induction false} LatestStep(ops: seq<MergeOp>, n: nat, f: Reading, r: string)
    requires n < |ops| && Latest(ops[..n], f, r)
    ensures Latest(ops[..n + 1], f, if f(ops[n]).Some? then f(ops[n]).value else r)
  {
    var init, longer := ops[..n], ops[..n + 1];
    assert forall i :: 0 <= i < n ==> longer[i] == init[i];
    assert longer[n] == ops[n];
    if f(ops[n]).Some? {
      assert SilentAfter(longer, f, n);
    } else if i :| 0 <= i < |init| && f(init[i]) == Some(r) && SilentAfter(init, f, i) {
      assert f(longer[i]) == Some(r) && SilentAfter(longer, f, i);
    }
  }

  lemma {:induction false} OneLatest(ops: seq<MergeOp>, f: Reading, a: string, b: string)
    requires Latest(ops, f, a) && Latest(ops, f, b)
    ensures a == b
  {}

  lemma {:induction false} LatestExists(ops: seq<MergeOp>, f: Reading) returns (r: string)
    ensures Latest(ops, f, r)
  {
    r := "";
    for n := 0 to |ops|
      invariant Latest(ops[..n], f, r)
    {
      LatestStep(ops, n, f, r);
      hide Latest;
      if f(ops[n]).Some? { r := f(ops[n]).value; }
    }
    assert ops[..|ops|] == ops;
  }

  lemma {:induction false} LatestAppend(ops: seq<MergeOp>, op: MergeOp, f: Reading, r: string)
    requires Latest(ops, f, r)
    ensures Latest(ops + [op], f, if f(op).Some? then f(op).value else r)
  {
    var longer := ops + [op];
    assert longer[..|ops|] == ops && longer[..|ops| + 1] == longer;
    LatestStep(longer, |ops|, f, r);
  }

  /** The records of the ops a reducer does not accept, in order. */
  function SetAside(ops: seq<MergeOp>, accepts: MergeOp -> bool): seq<UnknownOp> {
    if ops == [] then []
    else
      var n := |ops| - 1;
      SetAside(ops[..n], accepts) + if accepts(ops[n]) then [] else [Record(ops[n])]
  }

  lemma SetAsideStep(ops: seq<MergeOp>, n: nat, accepts: MergeOp -> bool)
    requires n < |ops|
    ensures SetAside(ops[..n + 1], accepts) == SetAside(ops[..n], accepts) + (if accepts(ops[n]) then [] else [Record(ops[n])])
  {
    var init, longer := ops[..n], ops[..n + 1];
    assert longer[..n] == init && longer[n] == ops[n];
  }

  lemma {:induction false} SetAsideMembers(ops: seq<MergeOp>, accepts: MergeOp -> bool, u: UnknownOp)
    ensures u in SetAside(ops, accepts) <==> exists i :: 0 <= i < |ops| && !accepts(ops[i]) && u == Record(ops[i])
  {
    if ops == [] {
    } else {
      var n := |ops| - 1;
      SetAsideMembers(ops[..n], accepts, u);
      hide Record;
      if i :| 0 <= i < |ops| && !accepts(ops[i]) && u == Record(ops[i]) {
        if i < n { assert ops[..n][i] == ops[i]; }
      }
    }
  }

  // ---- Causality among the ops ----

  /** The precomputed reachability tells the causal past. */
  ghost predicate Tells(g: Graph, reach: EngineReach.Reach, ops: seq<MergeOp>) {
    && (forall i, j :: 0 <= i < |ops| && 0 <= j < |ops| ==>
          (EngineReach.IsAncestor(reach, ops[i].id, ops[j].id) <==> Precedes(g, ops[i].id, ops[j].id)))
    && forall i :: 0 <= i < |ops| ==> !Precedes(g, ops[i].id, ops[i].id)
  }

  function OpsOf(s: OpSet, order: seq<Id>): (ops: seq<MergeOp>)
    requires forall id :: id in order ==> id in s
    ensures |ops| == |order| && forall i :: 0 <= i < |ops| ==> ops[i] == s[order[i]]
  {
    if order == [] then [] else [s[order[0]]] + OpsOf(s, order[1..])
  }

  lemma {:induction false} LaterNotBefore(g: Graph, order: seq<Id>, i: nat, j: nat)
    requires LinearExtension(g, order) && j <= i < |order|
    ensures !Precedes(g, order[i], order[j])
  {
    if Precedes(g, order[i], order[j]) {
      var k := PrecedesEarlier(g, order, order[i], j);
    }
  }

  // ---- From a list of ops to the order and the oracle ----

  datatype Prepared = Ready(ops: seq<MergeOp>, reach: EngineReach.Reach) | Unordered(failure: EngineOrder.Failure)

  /** The ops belong to one object, repeat no id and form no cycle. */
  ghost predicate Orderable(ops: seq<MergeOp>) {
    ops != [] && EngineOrder.NoFault(OrderOps(ops), |ops|) && !Cyclic(DagOf(OpSetOf(ops), ops[0].objectID))
  }

  /** The ops in total order, under ids of their own. */
  ghost predicate InTotalOrder(s: OpSet, objectID: string, order: seq<Id>) {
    OrderOf(s, objectID, order) && forall id :: id in order ==> id in s && s[id].id == id
  }

  /** The op at a place of the order, and the place of an op. */
  lemma {:induction false} OpAt(s: OpSet, objectID: string, order: seq<Id>, i: nat)
    requires InTotalOrder(s, objectID, order) && i < |order|
    ensures forall id :: id in order ==> id in s
    ensures OpsOf(s, order)[i] == s[order[i]] && s[order[i]].id == order[i] && s[order[i]].objectID == objectID
  {
    OrderInside(s, objectID, order);
    assert order[i] in order;
  }

  lemma {:induction false} PlaceFor(s: OpSet, objectID: string, order: seq<Id>, id: Id) returns (i: nat)
    requires InTotalOrder(s, objectID, order) && id in s && s[id].objectID == objectID
    ensures forall id :: id in order ==> id in s
    ensures i < |order| && order[i] == id && OpsOf(s, order)[i] == s[id]
  {
    OrderInside(s, objectID, order);
    i :| i < |order| && order[i] == id;
  }

  ghost predicate ReadyAs(ops: seq<MergeOp>, order: seq<Id>, ordered: seq<MergeOp>, reach: EngineReach.Reach)
    requires ops != []
  {
    var s := OpSetOf(ops);
    && InTotalOrder(s, ops[0].objectID, order) && ordered == OpsOf(s, order)
    && Tells(DagOf(s, ops[0].objectID), reach, ordered)
  }

  lemma {:induction false} Faultless(ops: seq<MergeOp>)
    requires ops != [] && EngineOrder.NoFault(OrderOps(ops), |ops|)
    ensures DistinctOps(ops) && forall i :: 0 <= i < |ops| ==> ops[i].objectID == ops[0].objectID
  {
    OrderOpsMean(ops);
    forall i, j | 0 <= i < j < |ops| ensures ops[i].id != ops[j].id { assert !EngineOrder.Faulty(OrderOps(ops), j); }
    forall i | 0 <= i < |ops| ensures ops[i].objectID == ops[0].objectID { assert !EngineOrder.Faulty(OrderOps(ops), i); }
  }

  /** How the ops were listed decides nothing about whether they can be ordered. */
  lemma {:induction false} SameVerdict(a: seq<MergeOp>, b: seq<MergeOp>)
    requires DistinctOps(a) && DistinctOps(b) && multiset(a) == multiset(b) && Orderable(a)
    ensures b != [] && a[0].objectID == b[0].objectID && OpSetOf(a) == OpSetOf(b) && Orderable(b)
  {
    PermutationSameSet(a, b);
    Faultless(a);
    forall op ensures op in a <==> op in b { assert op in multiset(a) <==> op in multiset(b); }
    assert a[0] in b && b[0] in a;
    OrderOpsMean(b);
    forall i | 0 <= i < |b| ensures !EngineOrder.Faulty(OrderOps(b), i) { assert b[i] in a; }
  }

  lemma {:induction false} ListIsOrder(ops: seq<MergeOp>, list: seq<EngineOrder.OrderedOp>)
    requires ops != [] && EngineOrder.IsOutcome(OrderOps(ops), EngineOrder.Ordered(list))
    ensures DistinctOps(ops) && OrderOf(OpSetOf(ops), ops[0].objectID, EngineOrder.Ids(list))
    ensures EngineOrder.NoFault(OrderOps(ops), |ops|) && forall k :: 0 <= k < |list| ==> list[k].op in OrderOps(ops)
  {
    hide OpSetOf, OrderOps, DagOf, TotalOrder.ObjectGraph, TotalOrder.CanonicalOrder, DistinctOps, EngineOrder.NoFault, EngineOrder.Ids;
    OrderOpsMean(ops);
    Faultless(ops);
    SameDag(ops, ops[0].objectID);
  }

  lemma {:induction false} ListedNode(ops: seq<MergeOp>, objectID: string, op: OrderOp)
    requires DistinctOps(ops) && op in OrderOps(ops) && op.id in DagOf(OpSetOf(ops), objectID)
    ensures DagOf(OpSetOf(ops), objectID)[op.id].parents == Restrict(op.parents, Members(OpSetOf(ops), objectID))
  {
    OrderOpsMean(ops);
    OpSetMeans(ops);
    hide OpSetOf, OrderOps, DistinctOps;
    var i :| 0 <= i < |ops| && OrderOps(ops)[i] == op;
    assert OpSetOf(ops)[ops[i].id] == ops[i];
  }

  lemma {:induction false} ListedNodes(ops: seq<MergeOp>, objectID: string, list: seq<EngineOrder.OrderedOp>)
    requires DistinctOps(ops) && OrderOf(OpSetOf(ops), objectID, EngineOrder.Ids(list))
    requires forall k :: 0 <= k < |list| ==> list[k].op in OrderOps(ops)
    ensures InTotalOrder(OpSetOf(ops), objectID, EngineOrder.Ids(list)) && forall id :: id in EngineOrder.Ids(list) ==> id in OpSetOf(ops)
    ensures EngineReach.Lists(DagOf(OpSetOf(ops), objectID), list) && !Cyclic(DagOf(OpSetOf(ops), objectID))
  {
    var s, order := OpSetOf(ops), EngineOrder.Ids(list);
    hide OpSetOf, OrderOps, DagOf, OrderOf, DistinctOps, LinearExtension;
    OrderInside(s, objectID, order);
    Keyed(ops);
    OrderLinear(s, objectID, order);
    LinearExtensionAcyclic(DagOf(s, objectID), order);
    forall k | 0 <= k < |list|
      ensures list[k].op.id in DagOf(s, objectID)
      ensures DagOf(s, objectID)[list[k].op.id].parents == Restrict(list[k].op.parents, Members(s, objectID))
    {
      assert order[k] in order;
      ListedNode(ops, objectID, list[k].op);
    }
  }

  lemma {:induction false} Keyed(ops: seq<MergeOp>)
    requires DistinctOps(ops)
    ensures forall id :: id in OpSetOf(ops) ==> OpSetOf(ops)[id].id == id
  {
    OpSetMeans(ops);
  }

  lemma {:induction false} OracleTells(g: Graph, reach: EngineReach.Reach, s: OpSet, order: seq<Id>)
    requires LinearExtension(g, order) && forall id :: id in order ==> id in s && s[id].id == id
    requires forall a, d :: EngineReach.IsAncestor(reach, a, d) <==> Precedes(g, a, d)
    ensures Tells(g, reach, OpsOf(s, order))
  {
    IdsInOrder(s, order);
    hide Precedes, EngineReach.IsAncestor;
    forall i | 0 <= i < |order| ensures !Precedes(g, order[i], order[i]) { LaterNotBefore(g, order, i, i); }
  }

  lemma {:induction false} CanOrder(ops: seq<MergeOp>)
    requires ops != [] && EngineOrder.NoFault(OrderOps(ops), |ops|) && !Cyclic(DagOf(OpSetOf(ops), ops[0].objectID))
    ensures Orderable(ops)
  {}

  lemma {:induction false} FailureStands(ops: seq<MergeOp>, failure: EngineOrder.Failure)
    requires ops != [] && EngineOrder.IsOutcome(OrderOps(ops), EngineOrder.Failed(failure))
    ensures !Orderable(ops)
  {
    OrderOpsMean(ops);
    if Orderable(ops) {
      Faultless(ops);
      SameDag(ops, ops[0].objectID);
    }
  }

  /** Orders the ops and builds the oracle, as every typed reducer does first. */
  method OrderAndReach(ops: seq<MergeOp>) returns (r: Prepared)
    requires ops != []
    ensures r.Ready? <==> Orderable(ops)
    ensures r.Ready? ==> exists order :: ReadyAs(ops, order, r.ops, r.reach)
    ensures r.Unordered? ==> EngineOrder.IsOutcome(OrderOps(ops), EngineOrder.Failed(r.failure))
  {
    OrderOpsMean(ops);
    hide *;
    var outcome := EngineOrder.OrderWithTStar(OrderOps(ops));
    if outcome.Failed? {
      FailureStands(ops, outcome.failure);
      return Unordered(outcome.failure);
    }
    var list := outcome.list;
    ghost var g := DagOf(OpSetOf(ops), ops[0].objectID);
    ListIsOrder(ops, list);
    ListedNodes(ops, ops[0].objectID, list);
    CanOrder(ops);
    var reach := EngineReach.BuildReachability(g, list);
    var opMap := IndexOps(ops);
    var ordered := OpsOf(opMap, EngineOrder.Ids(list));
    IsReady(ops, list, ordered, reach);
    return Ready(ordered, reach);
  }

  lemma {:induction false} IsReady(ops: seq<MergeOp>, list: seq<EngineOrder.OrderedOp>, ordered: seq<MergeOp>, reach: EngineReach.Reach)
    requires ops != [] && InTotalOrder(OpSetOf(ops), ops[0].objectID, EngineOrder.Ids(list))
    requires ordered == OpsOf(OpSetOf(ops), EngineOrder.Ids(list))
    requires forall a, d :: EngineReach.IsAncestor(reach, a, d) <==> Precedes(DagOf(OpSetOf(ops), ops[0].objectID), a, d)
    ensures exists order :: ReadyAs(ops, order, ordered, reach)
  {
    var s, order := OpSetOf(ops), EngineOrder.Ids(list);
    hide OpSetOf, DagOf, EngineReach.IsAncestor, Precedes, OrderOf;
    OrderLinear(s, ops[0].objectID, order);
    OracleTells(DagOf(s, ops[0].objectID), reach, s, order);
    assert ReadyAs(ops, order, ordered, reach);
  }

  lemma {:induction false} ReadyTells(ops: seq<MergeOp>, order: seq<Id>, ordered: seq<MergeOp>, reach: EngineReach.Reach)
    requires ops != [] && ReadyAs(ops, order, ordered, reach)
    ensures Tells(DagOf(OpSetOf(ops), ops[0].objectID), reach, ordered)
  {
    hide OpSetOf, DagOf, Tells, InTotalOrder;
  }

  lemma {:induction false} SameEmptiness(a: seq<MergeOp>, b: seq<MergeOp>)
    requires multiset(a) == multiset(b)
    ensures a == [] <==> b == []
  {
    assert |multiset(a)| == |a| && |multiset(b)| == |b|;
  }

  // ---- One more op on the frontier ----

  lemma {:induction false} OpsAfterAppend(s: OpSet, op: MergeOp, order: seq<Id>)
    requires op.id !in s && forall id :: id in order ==> id in s
    ensures forall id :: id in order + [op.id] ==> id in Appended(s, op)
    ensures OpsOf(Appended(s, op), order + [op.id]) == OpsOf(s, order) + [op]
  {
    var longer := order + [op.id];
    assert longer[|order|] == op.id;
    forall i | 0 <= i < |longer| ensures longer[i] in Appended(s, op) {
      assert i < |order| ==> longer[i] in order;
    }
    forall id | id in longer ensures id in Appended(s, op) {}
    assert OpsOf(Appended(s, op), longer) == OpsOf(s, order) + [op];
  }

  /** Below the appended op nothing changes, and the appended op saw everything. */
  ghost predicate OnTopOf(g: Graph, g': Graph, ops: seq<MergeOp>, op: MergeOp) {
    && (forall i, j :: 0 <= i < |ops| && 0 <= j < |ops| ==> (Precedes(g', ops[i].id, ops[j].id) <==> Precedes(g, ops[i].id, ops[j].id)))
    && (forall i :: 0 <= i < |ops| ==> Precedes(g', ops[i].id, op.id) && !Precedes(g', op.id, ops[i].id))
    && !Precedes(g', op.id, op.id)
  }

  lemma {:induction false} AppendedOnTop(s: OpSet, objectID: string, op: MergeOp)
    requires OnFrontier(s, objectID, op)
    ensures OnTop(DagOf(s, objectID), DagOf(Appended(s, op), objectID), op.id)
  {
    AppendedDag(s, objectID, op);
    NotOwnParent(s, objectID, op);
  }

  lemma {:induction false} OrderInDag(s: OpSet, objectID: string, order: seq<Id>)
    requires OrderOf(s, objectID, order)
    ensures forall id :: id in order ==> id in DagOf(s, objectID)
  {
    OrderInside(s, objectID, order);
  }

  lemma {:induction false} AppendOnTop(s: OpSet, objectID: string, op: MergeOp, order: seq<Id>)
    requires OnFrontier(s, objectID, op) && OrderOf(s, objectID, order)
    requires forall id :: id in order ==> id in s && s[id].id == id
    ensures OnTopOf(DagOf(s, objectID), DagOf(Appended(s, op), objectID), OpsOf(s, order), op)
  {
    hide OnFrontier, OrderOf, DagOf, Precedes, OnTop, OnTopOf, Appended;
    var g, g', ops := DagOf(s, objectID), DagOf(Appended(s, op), objectID), OpsOf(s, order);
    AllBelow(s, objectID, op, order);
    AppendedOnTop(s, objectID, op);
    OrderInDag(s, objectID, order);
    IdsInOrder(s, order);
    OnTopByIds(g, g', order, ops, op);
  }

  lemma {:induction false} IdsInOrder(s: OpSet, order: seq<Id>)
    requires forall id :: id in order ==> id in s && s[id].id == id
    ensures forall i :: 0 <= i < |order| ==> OpsOf(s, order)[i].id == order[i] && order[i] in order
  {}

  lemma {:induction false} OnTopByIds(g: Graph, g': Graph, order: seq<Id>, ops: seq<MergeOp>, op: MergeOp)
    requires OnTop(g, g', op.id) && (forall id :: id in order ==> id in g)
    requires |ops| == |order| && forall i :: 0 <= i < |order| ==> ops[i].id == order[i] && order[i] in order
    requires forall v :: v in order ==> Precedes(g', v, op.id)
    requires forall v :: v in order + [op.id] ==> !Precedes(g', op.id, v)
    ensures OnTopOf(g, g', ops, op)
  {
    hide OnTop, Precedes;
    var longer := order + [op.id];
    assert longer[|order|] == op.id && op.id in longer;
    forall i | 0 <= i < |ops| ensures Precedes(g', ops[i].id, op.id) && !Precedes(g', op.id, ops[i].id) {
      assert ops[i].id in order && ops[i].id in longer;
    }
    forall i, j | 0 <= i < |ops| && 0 <= j < |ops|
      ensures Precedes(g', ops[i].id, ops[j].id) <==> Precedes(g, ops[i].id, ops[j].id)
    {
      PrecedesBelow(g, g', op.id, ops[i].id, ops[j].id);
    }
  }

  // ---- One more op in the list ----

  /** `op` is a new op of the object whose parents include every op no other one names as a parent. */
  predicate OnTopOfAll(ops: seq<MergeOp>, op: MergeOp) {
    && ops != [] && op.objectID == ops[0].objectID && op.id !in op.parents
    && (forall c :: c in ops ==> c.id != op.id && op.id !in c.parents)
    && forall f :: f in ops && (forall c :: c in ops ==> f.id !in c.parents) ==> f.id in op.parents
  }

  lemma {:induction false} ListOnFrontier(ops: seq<MergeOp>, op: MergeOp)
    requires Orderable(ops) && OnTopOfAll(ops, op)
    ensures OpSetOf(ops + [op]) == Appended(OpSetOf(ops), op) && OnFrontier(OpSetOf(ops), ops[0].objectID, op)
  {
    assert (ops + [op])[..|ops|] == ops;
    Faultless(ops);
    var s := OpSetOf(ops);
    hide OpSetOf, Orderable, DistinctOps;
    forall id | id in s ensures exists c :: c in ops && c.id == id && s[id] == c { OpInList(ops, id); }
    assert op.id !in s;
    forall f | Maximal(s, ops[0].objectID, f) ensures f in op.parents {
      var c :| c in ops && c.id == f && s[f] == c;
      forall d | d in ops ensures c.id !in d.parents { ListedOp(ops, d); }
    }
  }

  lemma {:induction false} OpInList(ops: seq<MergeOp>, id: Id)
    requires DistinctOps(ops) && id in OpSetOf(ops)
    ensures OpSetOf(ops)[id] in ops && OpSetOf(ops)[id].id == id
  {
    OpSetMeans(ops);
    var i :| 0 <= i < |ops| && ops[i].id == id;
  }

  lemma {:induction false} ListedOp(ops: seq<MergeOp>, c: MergeOp)
    requires DistinctOps(ops) && c in ops
    ensures c.id in OpSetOf(ops) && OpSetOf(ops)[c.id] == c
  {
    OpSetMeans(ops);
    var i :| 0 <= i < |ops| && ops[i] == c;
  }

  lemma {:induction false} StillFaultless(ops: seq<MergeOp>, op: MergeOp)
    requires Orderable(ops) && OnTopOfAll(ops, op)
    ensures EngineOrder.NoFault(OrderOps(ops + [op]), |ops + [op]|)
  {
    OrderOpsMean(ops);
    OrderOpsMean(ops + [op]);
    Faultless(ops);
    var longer := ops + [op];
    forall i | 0 <= i < |longer| ensures !EngineOrder.Faulty(OrderOps(longer), i) {
      if i < |ops| { assert longer[i] == ops[i]; } else { assert forall j :: 0 <= j < |ops| ==> ops[j] in ops; }
    }
  }

  /** The longer list can be ordered too. */
  lemma {:induction false} StillOrderable(ops: seq<MergeOp>, op: MergeOp, order: seq<Id>)
    requires Orderable(ops) && OnTopOfAll(ops, op) && OrderOf(OpSetOf(ops), ops[0].objectID, order)
    ensures Orderable(ops + [op]) && (ops + [op])[0] == ops[0]
  {
    var objectID := ops[0].objectID;
    StillFaultless(ops, op);
    ListOnFrontier(ops, op);
    hide *;
    AppendedComesLast(OpSetOf(ops), objectID, op, order);
    OrderLinear(Appended(OpSetOf(ops), op), objectID, order + [op.id]);
    LinearExtensionAcyclic(DagOf(Appended(OpSetOf(ops), op), objectID), order + [op.id]);
    assert (ops + [op])[0] == ops[0];
    CanOrder(ops + [op]);
  }
}
