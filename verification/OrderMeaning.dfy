/** What the total order shows, read off the ops: who comes before whom, and why. */
module OrderMeaning {
  import opened CausalGraph
  import opened EffectiveTimes
  import opened TotalOrder
  import opened EngineOrder

  ghost predicate OfObject(ops: seq<OrderOp>, objectID: string, op: OrderOp) { op in ops && op.objectID == objectID }

  /** The op names no op of the object as a parent. */
  ghost predicate IsRoot(ops: seq<OrderOp>, objectID: string, op: OrderOp) {
    forall p :: OfObject(ops, objectID, p) ==> p.id !in op.parents
  }

  lemma {:induction false} InGraph(ops: seq<OrderOp>, objectID: string, op: OrderOp)
    requires DistinctIds(ops) && OfObject(ops, objectID, op)
    ensures var g := ObjectGraph(ops, objectID); op.id in g && g[op.id].time == op.time
    ensures forall p :: p in ObjectGraph(ops, objectID)[op.id].parents <==> p in op.parents && p in InSet(ops, objectID)
  {
    var i :| 0 <= i < |ops| && ops[i] == op;
    NodeOf(ops, objectID, i);
  }

  /** The object's ops are listed, all of them and no other, each once. */
  lemma {:induction false} ListsAll(ops: seq<OrderOp>, objectID: string, order: seq<Id>, id: Id)
    requires DistinctIds(ops) && CanonicalOrder(ObjectGraph(ops, objectID), order)
    ensures id in order <==> exists op :: OfObject(ops, objectID, op) && op.id == id
    ensures forall i, j :: 0 <= i < j < |order| ==> order[i] != order[j]
  {
    CanonicalLinear(ObjectGraph(ops, objectID), order);
  }

  lemma {:induction false} CanonicalLinear(g: Graph, order: seq<Id>)
    requires CanonicalOrder(g, order)
    ensures LinearExtension(g, order)
  {
    hide EffectiveTime, Greedy, LinearExtension;
  }

  /** A parent comes before its child. */
  lemma {:induction false} ParentsComeFirst(ops: seq<OrderOp>, objectID: string, order: seq<Id>, parent: OrderOp, child: OrderOp, i: nat, j: nat)
    requires DistinctIds(ops) && CanonicalOrder(ObjectGraph(ops, objectID), order)
    requires OfObject(ops, objectID, parent) && OfObject(ops, objectID, child) && parent.id in child.parents
    requires i < |order| && j < |order| && order[i] == parent.id && order[j] == child.id
    ensures i < j
  {
    InGraph(ops, objectID, child);
    CanonicalLinear(ObjectGraph(ops, objectID), order);
    hide CanonicalOrder, ObjectGraph;
    var k := ParentEarlier(ObjectGraph(ops, objectID), order, j, parent.id);
  }

  /** Where an op is listed before another one whose parents were all out already, it has the earlier effective time, or
    * the same and the smaller id.
    */
  lemma {:induction false} TiesByTimeThenId(g: Graph, order: seq<Id>, i: nat, j: nat, s: int, t: int)
    requires CanonicalOrder(g, order) && i < j < |order|
    requires forall p :: p in g[order[j]].parents ==> p in order[..i]
    requires LatestOver(g, order[i], s) && LatestOver(g, order[j], t)
    ensures s < t || (s == t && order[i] < order[j])
  {
    hide LatestOver;
    var times :| EffectiveTime(g, times) && Greedy(g, times, order) && LinearExtension(g, order);
    assert Chosen(g, times, order[..i], order[i]);
    assert order[i] in order && order[j] in order;
    assert order[j] != order[i] && order[j] !in order[..i];
    assert Ready(g, order[..i], order[j]);
    LatestUnique(g, order[i], s, times[order[i]]);
    LatestUnique(g, order[j], t, times[order[j]]);
  }

  /** Of two ops without parents in the object, the one with the earlier clock comes first, and of two with the same clock
    * the one with the smaller id.
    */
  lemma {:induction false} RootsByTimeThenId(ops: seq<OrderOp>, objectID: string, order: seq<Id>, a: OrderOp, b: OrderOp, i: nat, j: nat)
    requires DistinctIds(ops) && CanonicalOrder(ObjectGraph(ops, objectID), order)
    requires OfObject(ops, objectID, a) && OfObject(ops, objectID, b) && IsRoot(ops, objectID, a) && IsRoot(ops, objectID, b)
    requires i < |order| && j < |order| && order[i] == a.id && order[j] == b.id
    ensures i < j <==> a.time < b.time || (a.time == b.time && a.id < b.id)
  {
    hide *;
    RootNode(ops, objectID, a);
    RootNode(ops, objectID, b);
    if i < j {
      RootFirst(ObjectGraph(ops, objectID), order, i, j, a.time, b.time);
    } else if j < i {
      RootFirst(ObjectGraph(ops, objectID), order, j, i, b.time, a.time);
    }
  }

  lemma {:induction false} RootFirst(g: Graph, order: seq<Id>, i: nat, j: nat, s: int, t: int)
    requires CanonicalOrder(g, order) && i < j < |order| && order[j] in g && g[order[j]].parents == []
    requires LatestOver(g, order[i], s) && LatestOver(g, order[j], t)
    ensures s < t || (s == t && order[i] < order[j])
  {
    hide CanonicalOrder, LatestOver;
    TiesByTimeThenId(g, order, i, j, s, t);
  }

  lemma {:induction false} NoneIn(s: seq<Id>)
    ensures s == [] || exists p :: p in s
  {
    assert s == [] || s[0] in s;
  }

  lemma {:induction false} RootNode(ops: seq<OrderOp>, objectID: string, op: OrderOp)
    requires DistinctIds(ops) && OfObject(ops, objectID, op) && IsRoot(ops, objectID, op)
    ensures var g := ObjectGraph(ops, objectID); op.id in g && g[op.id].parents == [] && g[op.id].time == op.time && LatestOver(g, op.id, op.time)
  {
    var g := ObjectGraph(ops, objectID);
    InGraph(ops, objectID, op);
    forall p ensures p !in g[op.id].parents {
      if p in InSet(ops, objectID) {
        var q :| q in ops && q.objectID == objectID && q.id == p;
        assert OfObject(ops, objectID, q);
      }
    }
    NoneIn(g[op.id].parents);
    LatestFromParents(g, op.id, map[], op.time);
  }

  /** An op's effective time is the latest of its own clock and its parents' effective times. */
  lemma {:induction false} TimeFromParents(g: Graph, times: map<Id, int>, u: Id)
    requires Closed(g) && EffectiveTime(g, times) && u in g
    ensures times[u] >= g[u].time && forall p :: p in g[u].parents ==> p in times && times[p] <= times[u]
    ensures times[u] == g[u].time || exists p :: p in g[u].parents && times[p] == times[u]
  {
    hide LatestOver;
    forall p | p in g[u].parents ensures p in times && times[p] <= times[u] {
      ParentPrecedes(g, p, u);
      EffectiveTimeMonotone(g, times, p, u);
    }
    OwnTime(g, u, times[u]);
    var a := Carrier(g, u, times[u]);
    if a != u {
      PrecedesViaParent(g, a, u);
      var p :| p in g[u].parents && PrecedesOrIs(g, a, p);
      CarriedUp(g, a, p, times[p]);
    }
  }

  lemma {:induction false} OwnTime(g: Graph, u: Id, t: int)
    requires LatestOver(g, u, t) && u in g
    ensures g[u].time <= t
  {
    assert PrecedesOrIs(g, u, u);
  }

  lemma {:induction false} Carrier(g: Graph, u: Id, t: int) returns (a: Id)
    requires LatestOver(g, u, t)
    ensures a in g && PrecedesOrIs(g, a, u) && g[a].time == t
  {
    a :| a in g && PrecedesOrIs(g, a, u) && g[a].time == t;
  }

  lemma {:induction false} CarriedUp(g: Graph, a: Id, p: Id, t: int)
    requires LatestOver(g, p, t) && a in g && PrecedesOrIs(g, a, p)
    ensures g[a].time <= t
  {}
}
