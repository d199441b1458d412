/** Effective times t*: the latest clock reading an op or any of its ancestors carries. */
module EffectiveTimes {
  import opened CausalGraph

  datatype OrderOp = OrderOp(id: Id, parents: seq<Id>, time: int, objectID: string)

  const NO_OP := OrderOp(0, [], 0, "")

  datatype Result<+T> = Ok(value: T) | CycleError(op: Id)

  /** Go's map lookup: an absent id reads as the zero op. */
  function Lookup(opMap: map<Id, OrderOp>, id: Id): OrderOp {
    if id in opMap then opMap[id] else NO_OP
  }

  function RestrictedGraph(opMap: map<Id, OrderOp>, inSet: set<Id>): (g: Graph)
    ensures Closed(g)
  {
    map u | u in inSet :: Node(Restrict(Lookup(opMap, u).parents, inSet), Lookup(opMap, u).time)
  }

  /** `t` is the largest clock reading over `u` and everything that happened before it. */
  ghost predicate LatestOver(g: Graph, u: Id, t: int) {
    && (exists a {:trigger PrecedesOrIs(g, a, u)} :: a in g && PrecedesOrIs(g, a, u) && g[a].time == t)
    && forall a {:trigger PrecedesOrIs(g, a, u)} :: a in g && PrecedesOrIs(g, a, u) ==> g[a].time <= t
  }

  lemma LatestUnique(g: Graph, u: Id, s: int, t: int)
    requires LatestOver(g, u, s) && LatestOver(g, u, t)
    ensures s == t
  {}

  lemma LatestMonotone(g: Graph, a: Id, b: Id, s: int, t: int)
    requires LatestOver(g, a, s) && LatestOver(g, b, t) && Precedes(g, a, b)
    ensures s <= t
  {
    var w :| w in g && PrecedesOrIs(g, w, a) && g[w].time == s;
    if w != a { PrecedesTrans(g, w, a, b); }
    assert PrecedesOrIs(g, w, b);
  }

  ghost predicate EffectiveTime(g: Graph, tStar: map<Id, int>) {
    && tStar.Keys == g.Keys
    && forall u :: u in tStar ==> LatestOver(g, u, tStar[u])
  }

  lemma EffectiveTimeUnique(g: Graph, t1: map<Id, int>, t2: map<Id, int>)
    requires EffectiveTime(g, t1) && EffectiveTime(g, t2)
    ensures t1 == t2
  {
    hide LatestOver;
    forall u | u in t1 ensures t1[u] == t2[u] {
      LatestUnique(g, u, t1[u], t2[u]);
    }
  }

  /** t* never decreases along a happens-before step, whatever the clocks say. */
  lemma EffectiveTimeMonotone(g: Graph, tStar: map<Id, int>, a: Id, b: Id)
    requires Closed(g) && EffectiveTime(g, tStar) && Precedes(g, a, b)
    ensures a in g && b in g && tStar[a] <= tStar[b]
  {
    hide LatestOver, Precedes;
    PrecedesInside(g, a, b);
    LatestMonotone(g, a, b, tStar[a], tStar[b]);
  }

  /** What one visit computes: the op's own clock against its parents' effective times. */
  lemma LatestFromParents(g: Graph, u: Id, tStar: map<Id, int>, t: int)
    requires Closed(g) && u in g
    requires forall p :: p in g[u].parents ==> p in tStar && LatestOver(g, p, tStar[p]) && tStar[p] <= t
    requires g[u].time <= t
    requires t == g[u].time || exists p :: p in g[u].parents && tStar[p] == t
    ensures LatestOver(g, u, t)
  {
    forall a | a in g && PrecedesOrIs(g, a, u) ensures g[a].time <= t {
      if a != u {
        PrecedesViaParent(g, a, u);
        var p :| p in g[u].parents && PrecedesOrIs(g, a, p);
        assert LatestOver(g, p, tStar[p]);
      }
    }
    hide Precedes;
    if t == g[u].time {
      assert PrecedesOrIs(g, u, u);
    } else {
      var p :| p in g[u].parents && tStar[p] == t;
      assert LatestOver(g, p, tStar[p]);
      var a :| a in g && PrecedesOrIs(g, a, p) && g[a].time == t;
      PrecedesViaParent(g, a, u);
      assert PrecedesOrIs(g, a, u);
    }
  }

  /** `stack` runs from the op the search started at down to the one being visited. */
  ghost predicate OnStack(g: Graph, visiting: set<Id>, stack: seq<Id>) {
    && (forall u :: u in visiting <==> u in stack)
    && forall i :: 0 <= i < |stack| - 1 ==> stack[i] in g && stack[i + 1] in g[stack[i]].parents
  }

  lemma {:induction false} StackReaches(g: Graph, visiting: set<Id>, stack: seq<Id>, i: nat, j: nat)
    requires OnStack(g, visiting, stack) && i <= j < |stack|
    ensures Reaches(g, stack[j], stack[i], j - i)
    decreases j - i
  {
    if i == j {
    } else {
      StackReaches(g, visiting, stack, i + 1, j);
      assert stack[i + 1] in g[stack[i]].parents;
    }
  }

  /** A parent that is still being visited closes a cycle. */
  lemma StackCycle(g: Graph, visiting: set<Id>, stack: seq<Id>, id: Id)
    requires OnStack(g, visiting, stack) && id in visiting
    requires stack != [] ==> stack[|stack| - 1] in g && id in g[stack[|stack| - 1]].parents
    ensures Cyclic(g)
  {
    var k :| 0 <= k < |stack| && stack[k] == id;
    var last := stack[|stack| - 1];
    StackReaches(g, visiting, stack, k, |stack| - 1);
    assert Reaches(g, id, id, 0);
    assert Reaches(g, id, last, 1);
    ReachesTrans(g, id, last, id, 1, |stack| - 1 - k);
    assert k < |stack| - 1 ==> id in g;
    assert Precedes(g, id, id);
  }

  lemma StackPush(g: Graph, visiting: set<Id>, stack: seq<Id>, id: Id)
    requires OnStack(g, visiting, stack)
    requires stack != [] ==> stack[|stack| - 1] in g && id in g[stack[|stack| - 1]].parents
    ensures OnStack(g, visiting + {id}, stack + [id])
  {
    assert forall u :: u in stack + [id] <==> u in stack || u == id;
  }

  ghost predicate Extends(m: map<Id, int>, longer: map<Id, int>) {
    forall u :: u in m ==> u in longer && longer[u] == m[u]
  }

  /** The depth-first search over the in-object parents. `tStar` and `visiting` are the maps its
    * recursive closure shares: an op is finished once it has an effective time.
    */
  class Search {
    const opMap: map<Id, OrderOp>
    const inSet: set<Id>
    var tStar: map<Id, int>
    var visiting: set<Id>
    ghost const g: Graph
    ghost var finished: seq<Id>

    ghost predicate Valid()
      reads this
    {
      && g == RestrictedGraph(opMap, inSet)
      && visiting <= inSet
      && tStar.Keys <= inSet
      && visiting !! tStar.Keys
      && (forall u :: u in tStar <==> u in finished)
      && ParentsFirst(g, finished)
      && forall u :: u in tStar ==> LatestOver(g, u, tStar[u])
    }

    constructor (opMap: map<Id, OrderOp>, inSet: set<Id>)
      ensures this.opMap == opMap && this.inSet == inSet
      ensures Valid() && visiting == {}
    {
      this.opMap := opMap;
      this.inSet := inSet;
      tStar, visiting, finished, g := map[], {}, [], RestrictedGraph(opMap, inSet);
    }

    lemma ParentsOf(id: Id)
      requires g == RestrictedGraph(opMap, inSet) && id in inSet
      ensures g.Keys == inSet && Closed(g) && g[id].time == Lookup(opMap, id).time
      ensures forall p :: p in g[id].parents <==> p in Lookup(opMap, id).parents && p in inSet
    {}

    // The code also keeps a "visited" mark; it is set together with t*, so the first test below
    // always answers before that mark could.
    method Visit(id: Id, ghost stack: seq<Id>) returns (r: Result<int>)
      requires Valid() && OnStack(g, visiting, stack) && id in inSet
      requires stack != [] ==> stack[|stack| - 1] in g && id in g[stack[|stack| - 1]].parents
      modifies this
      ensures r.CycleError? ==> Cyclic(g)
      ensures r.Ok? ==> Valid() && visiting == old(visiting) && id in tStar && r.value == tStar[id]
      ensures Extends(old(tStar), tStar)
      decreases inSet - tStar.Keys - visiting
    {
      hide LatestOver, Reaches, Precedes, Cyclic, RestrictedGraph, ParentsFirst, Closed, Lookup, OnStack;
      if id in tStar {
        return Ok(tStar[id]);
      }
      if id in visiting {
        StackCycle(g, visiting, stack, id);
        return CycleError(id);
      }
      StackPush(g, visiting, stack, id);
      visiting := visiting + {id};
      ghost var deeper := stack + [id];
      ParentsOf(id);
      var op := Lookup(opMap, id);
      var res := op.time;
      ghost var latest := id;
      var i := 0;
      while i < |op.parents|
        invariant 0 <= i <= |op.parents|
        invariant Valid()
        invariant visiting == old(visiting) + {id}
        invariant Extends(old(tStar), tStar)
        invariant op.time <= res
        invariant forall k :: 0 <= k < i && op.parents[k] in inSet ==> op.parents[k] in tStar && tStar[op.parents[k]] <= res
        invariant res == op.time || (latest in op.parents && latest in tStar && tStar[latest] == res)
      {
        var p := op.parents[i];
        if p in inSet {
          var pt := Visit(p, deeper);
          if pt.CycleError? {
            return pt;
          }
          if pt.value > res {
            res, latest := pt.value, p;
          }
        }
        i := i + 1;
      }
      LatestFromParents(g, id, tStar, res);
      ParentsFirstExtend(g, finished, id);
      finished := finished + [id];
      visiting := visiting - {id};
      tStar := tStar[id := res];
      return Ok(res);
    }
  }

  function LastById(ops: seq<OrderOp>): (m: map<Id, OrderOp>)
    ensures forall id :: id in m <==> exists i :: 0 <= i < |ops| && ops[i].id == id
  {
    if ops == [] then map[]
    else
      var op := ops[|ops| - 1];
      assert ops == ops[..|ops| - 1] + [op];
      LastById(ops[..|ops| - 1])[op.id := op]
  }

  method IndexById(ops: seq<OrderOp>) returns (opMap: map<Id, OrderOp>)
    ensures opMap == LastById(ops)
  {
    opMap := map[];
    for i := 0 to |ops|
      invariant opMap == LastById(ops[..i])
    {
      assert ops[..i + 1][..i] == ops[..i];
      opMap := opMap[ops[i].id := ops[i]];
    }
    assert ops[..|ops|] == ops;
  }

  /** Succeeds with the effective times exactly when the restricted graph has no cycle. The roots
    * are taken in an arbitrary order, as Go iterates a map; the answer does not depend on it.
    */
  method EffectiveTimesInSet(ops: seq<OrderOp>, inSet: set<Id>) returns (r: Result<map<Id, int>>)
    ensures r.CycleError? <==> Cyclic(RestrictedGraph(LastById(ops), inSet))
    ensures r.Ok? ==> EffectiveTime(RestrictedGraph(LastById(ops), inSet), r.value)
    ensures r.Ok? ==> exists order :: LinearExtension(RestrictedGraph(LastById(ops), inSet), order)
  {
    hide Reaches, Precedes, Cyclic, ParentsFirst, Lookup, LatestOver, Closed, LastById;
    var opMap := IndexById(ops);
    var search := new Search(opMap, inSet);
    assert search.g.Keys == inSet;
    hide RestrictedGraph;
    var todo := inSet;
    while todo != {}
      invariant todo <= inSet && fresh(search) && search.Valid() && search.visiting == {}
      invariant inSet - todo <= search.tStar.Keys
      decreases todo
    {
      var id :| id in todo;
      todo := todo - {id};
      var t := search.Visit(id, []);
      if t.CycleError? {
        return CycleError(t.op);
      }
    }
    assert search.tStar.Keys == inSet;
    assert LinearExtension(search.g, search.finished);
    LinearExtensionAcyclic(search.g, search.finished);
    return Ok(search.tStar);
  }
}
