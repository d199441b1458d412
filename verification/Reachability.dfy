/** Which ops happened before which: one depth-first search per op over shared marks. */
module Reachability {
  import opened CausalGraph
  import opened EffectiveTimes

  type Ancestors = map<Id, set<Id>>

  ghost function Past(g: Graph, u: Id): (s: set<Id>)
    requires Closed(g)
    ensures forall a :: a in s <==> Precedes(g, a, u)
  {
    assert forall a :: Precedes(g, a, u) ==> a in g by {
      forall a | Precedes(g, a, u) ensures a in g { PrecedesInside(g, a, u); }
    }
    set a | a in g && Precedes(g, a, u)
  }

  /** Every mark belongs to the target's past. */
  ghost predicate Sound(g: Graph, marks: set<Id>, target: Id) {
    forall a :: a in marks ==> Precedes(g, a, target)
  }

  /** Every op of `some` has all its parents marked. */
  ghost predicate ParentsMarked(g: Graph, some: set<Id>, marks: set<Id>) {
    forall u, p :: u in some && u in g && p in g[u].parents ==> p in marks
  }

  /** Marks that are closed under parents and include the target's parents are its whole past. */
  lemma {:induction false} ClosedMarksHold(g: Graph, marks: set<Id>, target: Id, a: Id, b: Id, n: nat)
    requires ParentsMarked(g, marks + {target}, marks) && b in marks + {target}
    requires n > 0 && Reaches(g, a, b, n)
    ensures a in marks
    decreases n
  {
    var p :| p in g[b].parents && Reaches(g, a, p, n - 1);
    assert p in marks;
    if n == 1 {
    } else {
      ClosedMarksHold(g, marks, target, a, p, n - 1);
    }
  }

  lemma MarksArePast(g: Graph, marks: set<Id>, target: Id)
    requires Closed(g) && Sound(g, marks, target) && ParentsMarked(g, marks + {target}, marks)
    ensures marks == Past(g, target)
  {
    forall a | Precedes(g, a, target) ensures a in marks {
      var n: nat :| n > 0 && Reaches(g, a, target, n);
      ClosedMarksHold(g, marks, target, a, target, n);
    }
  }

  class Oracle {
    const parentsMap: map<Id, seq<Id>>
    var ancestors: Ancestors
    ghost const g: Graph

    ghost predicate Valid()
      reads this
    {
      && Closed(g)
      && parentsMap.Keys <= g.Keys
      && forall u :: u in g ==> Listed(u) == g[u].parents
    }

    /** An op of the object that was not supplied has no parents. */
    function Listed(u: Id): seq<Id> { if u in parentsMap then parentsMap[u] else [] }

    constructor (parentsMap: map<Id, seq<Id>>, inSet: set<Id>, ghost g: Graph)
      requires Closed(g) && parentsMap.Keys <= inSet == g.Keys
      requires forall u :: u in g ==> (if u in parentsMap then parentsMap[u] else []) == g[u].parents
      ensures Valid() && this.g == g
      ensures ancestors == map u | u in inSet :: {}
    {
      this.parentsMap, this.g := parentsMap, g;
      ancestors := map u | u in inSet :: {};
    }

    /** Visits `curr`: afterwards its parents are marked for `target`, and so are the parents of
      * everything this call marked.
      */
    method Dfs(curr: Id, target: Id)
      requires Valid() && curr in g && target in g && target in ancestors
      requires PrecedesOrIs(g, curr, target) && Sound(g, ancestors[target], target)
      requires ancestors[target] <= g.Keys
      modifies this
      ensures ancestors.Keys == old(ancestors.Keys)
      ensures forall u :: u in ancestors && u != target ==> ancestors[u] == old(ancestors)[u]
      ensures old(ancestors[target]) <= ancestors[target] <= g.Keys
      ensures Sound(g, ancestors[target], target)
      ensures ParentsMarked(g, ancestors[target] - old(ancestors[target]) + {curr}, ancestors[target])
      decreases g.Keys - ancestors[target]
    {
      hide Precedes, Reaches;
      ghost var before := ancestors;
      var parents := Listed(curr);
      for i := 0 to |parents|
        invariant ancestors.Keys == before.Keys
        invariant forall u :: u in ancestors && u != target ==> ancestors[u] == before[u]
        invariant before[target] <= ancestors[target] <= g.Keys
        invariant Sound(g, ancestors[target], target)
        invariant ParentsMarked(g, ancestors[target] - before[target], ancestors[target])
        invariant forall k :: 0 <= k < i ==> parents[k] in ancestors[target]
      {
        var p := parents[i];
        if p !in ancestors[target] {
          ghost var marks := ancestors[target];
          ParentPrecedes(g, p, curr);
          if curr != target { PrecedesTrans(g, p, curr, target); }
          ancestors := ancestors[target := ancestors[target] + {p}];
          Dfs(p, target);
          MarkedTogether(g, marks - before[target], p, marks, ancestors[target]);
          assert ancestors[target] - before[target] == (ancestors[target] - marks) + (marks - before[target]);
        }
      }
    }
  }

  lemma MarkedTogether(g: Graph, some: set<Id>, p: Id, marks: set<Id>, more: set<Id>)
    requires ParentsMarked(g, some, marks) && marks <= more && p !in marks
    requires ParentsMarked(g, more - (marks + {p}) + {p}, more)
    ensures ParentsMarked(g, (more - marks) + some, more)
  {}

  method ParentsMap(ops: seq<OrderOp>, inSet: set<Id>) returns (parentsMap: map<Id, seq<Id>>)
    ensures forall u :: u in parentsMap <==> u in inSet && u in LastById(ops)
    ensures forall u :: u in parentsMap ==> parentsMap[u] == Restrict(LastById(ops)[u].parents, inSet)
  {
    parentsMap := map[];
    for i := 0 to |ops|
      invariant forall u :: u in parentsMap <==> u in inSet && u in LastById(ops[..i])
      invariant forall u :: u in parentsMap ==> parentsMap[u] == Restrict(LastById(ops[..i])[u].parents, inSet)
    {
      assert ops[..i + 1][..i] == ops[..i];
      if ops[i].id in inSet {
        parentsMap := parentsMap[ops[i].id := Restrict(ops[i].parents, inSet)];
      }
    }
    assert ops[..|ops|] == ops;
  }

  /** For every op of the object, exactly the ops that happened before it, on cyclic input too. */
  method BuildReachabilityMap(ops: seq<OrderOp>, inSet: set<Id>) returns (ancestors: Ancestors)
    ensures ancestors.Keys == inSet
    ensures var g := RestrictedGraph(LastById(ops), inSet);
            forall u :: u in inSet ==> ancestors[u] == Past(g, u)
  {
    hide Precedes, Reaches, LastById, Past, Sound, ParentsMarked;
    ghost var g := RestrictedGraph(LastById(ops), inSet);
    var parentsMap := ParentsMap(ops, inSet);
    var oracle := new Oracle(parentsMap, inSet, g);
    hide RestrictedGraph;
    var todo := inSet;
    while todo != {}
      invariant fresh(oracle) && oracle.Valid() && oracle.g == g && todo <= inSet
      invariant oracle.ancestors.Keys == inSet
      invariant forall u :: u in inSet ==> oracle.ancestors[u] == if u in todo then {} else Past(g, u)
      decreases todo
    {
      var id :| id in todo;
      todo := todo - {id};
      NothingMarked(g, id);
      oracle.Dfs(id, id);
      ghost var marks := oracle.ancestors[id];
      assert marks - {} + {id} == marks + {id};
      MarksArePast(g, marks, id);
    }
    return oracle.ancestors;
  }

  lemma NothingMarked(g: Graph, target: Id)
    ensures Sound(g, {}, target)
  {}
}
