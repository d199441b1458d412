/** The deterministic total order of one object's ops: Kahn's algorithm taking, among the ops whose
  * parents are all out, the one with the least (t*, id).
  */
module TotalOrder {
  import opened CausalGraph
  import opened EffectiveTimes

  ghost predicate KeyLess(t: map<Id, int>, a: Id, b: Id) {
    a in t && b in t && (t[a] < t[b] || (t[a] == t[b] && a < b))
  }

  ghost predicate Ready(g: Graph, emitted: seq<Id>, u: Id) {
    u in g && u !in emitted && forall p :: p in g[u].parents ==> p in emitted
  }

  /** `u` is the least of the ops that may come next. */
  ghost predicate Chosen(g: Graph, t: map<Id, int>, emitted: seq<Id>, u: Id) {
    && Ready(g, emitted, u)
    && forall v {:trigger Ready(g, emitted, v)} :: Ready(g, emitted, v) ==> v == u || KeyLess(t, u, v)
  }

  ghost predicate Greedy(g: Graph, t: map<Id, int>, order: seq<Id>) {
    forall i :: 0 <= i < |order| ==> Chosen(g, t, order[..i], order[i])
  }

  /** The order the specification defines: greedy under the effective times, and complete. */
  ghost predicate CanonicalOrder(g: Graph, order: seq<Id>) {
    exists t :: EffectiveTime(g, t) && Greedy(g, t, order) && LinearExtension(g, order)
  }

  // ---- What the order is ----

  lemma {:induction false} GreedyPrefix(g: Graph, t: map<Id, int>, a: seq<Id>, b: seq<Id>, n: nat)
    requires Greedy(g, t, a) && Greedy(g, t, b) && n <= |a| && n <= |b|
    ensures a[..n] == b[..n]
    decreases n
  {
    if n == 0 {
    } else {
      hide Ready;
      GreedyPrefix(g, t, a, b, n - 1);
      var m := n - 1;
      assert Chosen(g, t, a[..m], a[m]) && Chosen(g, t, b[..m], b[m]);
      assert a[..n] == a[..m] + [a[m]] && b[..n] == b[..m] + [b[m]];
    }
  }

  lemma LinearSize(g: Graph, order: seq<Id>)
    requires LinearExtension(g, order)
    ensures |order| == |g|
  {
    DistinctSize(order, g.Keys);
  }

  /** One graph, one order: no map iteration, sort or input order can change it. */
  lemma CanonicalOrderUnique(g: Graph, a: seq<Id>, b: seq<Id>)
    requires CanonicalOrder(g, a) && CanonicalOrder(g, b)
    ensures a == b
  {
    hide Greedy, EffectiveTime, LinearExtension;
    var t :| EffectiveTime(g, t) && Greedy(g, t, a) && LinearExtension(g, a);
    var u :| EffectiveTime(g, u) && Greedy(g, u, b) && LinearExtension(g, b);
    EffectiveTimeUnique(g, t, u);
    LinearSize(g, a);
    LinearSize(g, b);
    GreedyPrefix(g, t, a, b, |a|);
    assert a[..|a|] == a && b[..|b|] == b;
  }

  /** Among all linear extensions the total order is the lexicographically least under (t*, id):
    * where another extension first differs, it has the larger key.
    */
  lemma LexicographicallyLeast(g: Graph, t: map<Id, int>, order: seq<Id>, other: seq<Id>, k: nat)
    requires Greedy(g, t, order) && LinearExtension(g, other)
    requires k < |order| && k < |other| && order[..k] == other[..k] && order[k] != other[k]
    ensures KeyLess(t, order[k], other[k])
  {
    assert Ready(g, other[..k], other[k]) by {
      assert other[k] !in other[..k];
      assert forall p :: p in g[other[k]].parents ==> p in other[..k];
    }
    assert Chosen(g, t, order[..k], order[k]);
  }

  /** t* never decreases along the total order. */
  lemma {:induction false} TimesNeverDecrease(g: Graph, t: map<Id, int>, order: seq<Id>, i: nat, j: nat)
    requires Closed(g) && EffectiveTime(g, t) && Greedy(g, t, order) && i <= j < |order|
    ensures order[i] in t && order[j] in t && t[order[i]] <= t[order[j]]
    decreases j - i
  {
    hide LatestOver, Precedes;
    assert Chosen(g, t, order[..i], order[i]);
    if i == j {
    } else {
      hide EffectiveTime, Greedy;
      TimesNeverDecrease(g, t, order, i, j - 1);
      StepNeverDecreases(g, t, order, j - 1);
    }
  }

  lemma StepNeverDecreases(g: Graph, t: map<Id, int>, order: seq<Id>, i: nat)
    requires Closed(g) && EffectiveTime(g, t) && Greedy(g, t, order) && i + 1 < |order|
    ensures order[i] in t && order[i + 1] in t && t[order[i]] <= t[order[i + 1]]
  {
    hide LatestOver, Precedes;
    var a, b := order[i], order[i + 1];
    assert Chosen(g, t, order[..i], a) && Chosen(g, t, order[..i + 1], b);
    assert order[..i + 1] == order[..i] + [a];
    if a in g[b].parents {
      ParentPrecedes(g, a, b);
      EffectiveTimeMonotone(g, t, a, b);
    } else {
      assert Ready(g, order[..i], b);
    }
  }

  // ---- Computing it ----

  function InSet(ops: seq<OrderOp>, objectID: string): set<Id> {
    set op | op in ops && op.objectID == objectID :: op.id
  }

  ghost predicate DistinctIds(ops: seq<OrderOp>) {
    forall i, j :: 0 <= i < j < |ops| ==> ops[i].id != ops[j].id
  }

  /** The restricted DAG of an object, read off the ops in whatever order they came. */
  ghost function ObjectGraph(ops: seq<OrderOp>, objectID: string): (g: Graph)
    ensures Closed(g) && g.Keys == InSet(ops, objectID)
  {
    RestrictedGraph(LastById(ops), InSet(ops, objectID))
  }

  /** How many of the parents listed have not been emitted; an op may list a parent twice. */
  ghost function Missing(parents: seq<Id>, emitted: seq<Id>): nat {
    if parents == [] then 0
    else Missing(parents[1..], emitted) + if parents[0] in emitted then 0 else 1
  }

  lemma {:induction false} MissingStart(parents: seq<Id>)
    ensures Missing(parents, []) == |parents|
  {
    if parents == [] {
    } else {
      MissingStart(parents[1..]);
    }
  }

  lemma {:induction false} MissingNone(parents: seq<Id>, emitted: seq<Id>)
    ensures Missing(parents, emitted) == 0 <==> forall p :: p in parents ==> p in emitted
  {
    if parents == [] {
    } else {
      MissingNone(parents[1..], emitted);
      assert forall p :: p in parents <==> p == parents[0] || p in parents[1..];
    }
  }

  lemma {:induction false} MissingEmit(parents: seq<Id>, emitted: seq<Id>, u: Id)
    requires u !in emitted
    ensures Missing(parents, emitted + [u]) == Missing(parents, emitted) - multiset(parents)[u]
    ensures multiset(parents)[u] <= Missing(parents, emitted)
  {
    if parents == [] {
    } else {
      MissingEmit(parents[1..], emitted, u);
      assert parents == [parents[0]] + parents[1..];
    }
  }

  function Kids(children: map<Id, seq<Id>>, p: Id): seq<Id> {
    if p in children then children[p] else []
  }

  /** `children` inverts the parent lists of the ops already linked, repetitions included. */
  ghost predicate Inverts(g: Graph, children: map<Id, seq<Id>>, linked: set<Id>) {
    forall p, u :: multiset(Kids(children, p))[u] == if u in linked && u in g then multiset(g[u].parents)[p] else 0
  }

  /** What filing `id` under each parent listed in `parents` adds to the child lists. */
  ghost predicate Filed(children: map<Id, seq<Id>>, linked: map<Id, seq<Id>>, id: Id, parents: seq<Id>) {
    forall p, u :: multiset(Kids(linked, p))[u] ==
                   multiset(Kids(children, p))[u] + if u == id then multiset(parents)[p] else 0
  }

  lemma FileUnder(children: map<Id, seq<Id>>, linked: map<Id, seq<Id>>, id: Id, parents: seq<Id>, p: Id)
    requires Filed(children, linked, id, parents)
    ensures Filed(children, linked[p := Kids(linked, p) + [id]], id, parents + [p])
  {
    forall q, u ensures multiset(Kids(linked[p := Kids(linked, p) + [id]], q))[u] ==
                        multiset(Kids(children, q))[u] + if u == id then multiset(parents + [p])[q] else 0 {
      FileUnderAt(children, linked, id, parents, p, q, u);
    }
  }

  lemma FileUnderAt(children: map<Id, seq<Id>>, linked: map<Id, seq<Id>>, id: Id, parents: seq<Id>, p: Id, q: Id, u: Id)
    requires multiset(Kids(linked, q))[u] == multiset(Kids(children, q))[u] + if u == id then multiset(parents)[q] else 0
    ensures multiset(Kids(linked[p := Kids(linked, p) + [id]], q))[u] ==
            multiset(Kids(children, q))[u] + if u == id then multiset(parents + [p])[q] else 0
  {}

  /** One op's edges: its in-object parents are counted and it is filed under each of them. */
  method AddEdges(op: OrderOp, inSet: set<Id>, children: map<Id, seq<Id>>)
    returns (parentsInSet: nat, linked: map<Id, seq<Id>>)
    ensures parentsInSet == |Restrict(op.parents, inSet)|
    ensures Filed(children, linked, op.id, Restrict(op.parents, inSet))
  {
    parentsInSet, linked := 0, children;
    assert Filed(children, linked, op.id, []);
    hide Filed;
    for j := 0 to |op.parents|
      invariant parentsInSet == |Restrict(op.parents[..j], inSet)|
      invariant Filed(children, linked, op.id, Restrict(op.parents[..j], inSet))
    {
      var p := op.parents[j];
      assert op.parents[..j + 1][..j] == op.parents[..j];
      FileUnder(children, linked, op.id, Restrict(op.parents[..j], inSet), p);
      if p in inSet {
        parentsInSet := parentsInSet + 1;
        linked := linked[p := Kids(linked, p) + [op.id]];
      }
    }
    assert op.parents[..|op.parents|] == op.parents;
  }

  lemma {:induction false} LookupDistinct(ops: seq<OrderOp>, i: nat)
    requires DistinctIds(ops) && i < |ops|
    ensures ops[i].id in LastById(ops) && LastById(ops)[ops[i].id] == ops[i]
    decreases |ops|
  {
    if i < |ops| - 1 { LookupDistinct(ops[..|ops| - 1], i); }
  }

  lemma NodeOf(ops: seq<OrderOp>, objectID: string, i: nat)
    requires DistinctIds(ops) && i < |ops|
    ensures var g := ObjectGraph(ops, objectID); var op := ops[i];
            && (op.id in g <==> op.objectID == objectID)
            && (op.id in g ==> g[op.id] == Node(Restrict(op.parents, InSet(ops, objectID)), op.time))
  {
    LookupDistinct(ops, i);
  }

  /** In-degrees and child lists of the restricted DAG. */
  method Link(ops: seq<OrderOp>, objectID: string, inSet: set<Id>) returns (inDegree: map<Id, int>, children: map<Id, seq<Id>>)
    requires DistinctIds(ops) && inSet == InSet(ops, objectID)
    ensures var g := ObjectGraph(ops, objectID);
            && Inverts(g, children, g.Keys)
            && inDegree.Keys == g.Keys
            && forall u :: u in g ==> inDegree[u] == |g[u].parents|
  {
    ghost var g := ObjectGraph(ops, objectID);
    hide ObjectGraph, LastById, Filed;
    inDegree, children := map[], map[];
    for i := 0 to |ops|
      invariant inDegree.Keys == InSet(ops[..i], objectID) <= inSet
      invariant forall u :: u in inDegree ==> inDegree[u] == |g[u].parents|
      invariant Inverts(g, children, inDegree.Keys)
    {
      var op := ops[i];
      NodeOf(ops, objectID, i);
      InSetStep(ops, objectID, i);
      if op.id in inSet {
        var parentsInSet, linked := AddEdges(op, inSet, children);
        LinkStep(g, children, linked, inDegree.Keys, op.id);
        children := linked;
        inDegree := inDegree[op.id := parentsInSet];
      }
    }
    assert ops[..|ops|] == ops;
  }

  lemma InSetStep(ops: seq<OrderOp>, objectID: string, i: nat)
    requires DistinctIds(ops) && i < |ops|
    ensures InSet(ops[..i + 1], objectID) == InSet(ops[..i], objectID) + (if ops[i].objectID == objectID then {ops[i].id} else {})
    ensures ops[i].id !in InSet(ops[..i], objectID)
    ensures InSet(ops[..i + 1], objectID) <= InSet(ops, objectID)
  {
    var longer, shorter := ops[..i + 1], ops[..i];
    assert forall k :: 0 <= k < i ==> longer[k] == shorter[k];
  }

  lemma LinkStep(g: Graph, children: map<Id, seq<Id>>, linked: map<Id, seq<Id>>, done: set<Id>, id: Id)
    requires Inverts(g, children, done) && id in g && id !in done
    requires Filed(children, linked, id, g[id].parents)
    ensures Inverts(g, linked, done + {id})
  {
    forall p, u ensures multiset(Kids(linked, p))[u] == if u in done + {id} && u in g then multiset(g[u].parents)[p] else 0 {
      assert multiset(Kids(children, p))[u] == if u in done && u in g then multiset(g[u].parents)[p] else 0;
    }
  }

  /** The scan for the least (t*, id) among the ready ops. */
  method PickBest(ready: seq<Id>, tStar: map<Id, int>) returns (bestIdx: nat)
    requires ready != [] && forall u :: u in ready ==> u in tStar
    ensures bestIdx < |ready|
    ensures forall v :: v in ready ==> v == ready[bestIdx] || KeyLess(tStar, ready[bestIdx], v)
  {
    bestIdx := 0;
    var bestID, bestT := ready[0], tStar[ready[0]];
    for i := 1 to |ready|
      invariant bestIdx < i && bestID == ready[bestIdx] && bestT == tStar[bestID]
      invariant forall k :: 0 <= k < i ==> ready[k] == bestID || KeyLess(tStar, bestID, ready[k])
    {
      var candID, candT := ready[i], tStar[ready[i]];
      if candT < bestT || (candT == bestT && candID < bestID) {
        bestIdx, bestID, bestT := i, candID, candT;
      }
    }
  }

  lemma WaitingStart(g: Graph, t: map<Id, int>)
    ensures Greedy(g, t, []) && ParentsFirst(g, [])
  {}

  lemma ReadyHaveTimes(g: Graph, t: map<Id, int>, inDegree: map<Id, int>, ready: seq<Id>, order: seq<Id>)
    requires Waiting(g, inDegree, ready, order) && EffectiveTime(g, t)
    ensures forall u :: u in ready ==> u in t
  {
    hide LatestOver;
  }

  lemma BestIsChosen(g: Graph, t: map<Id, int>, inDegree: map<Id, int>, ready: seq<Id>, order: seq<Id>, k: nat)
    requires Waiting(g, inDegree, ready, order) && k < |ready|
    requires forall v :: v in ready ==> v == ready[k] || KeyLess(t, ready[k], v)
    ensures Chosen(g, t, order, ready[k])
  {}

  lemma ReadyEmpty(g: Graph, inDegree: map<Id, int>, order: seq<Id>)
    requires Waiting(g, inDegree, [], order)
    ensures forall u :: !Ready(g, order, u)
  {}

  /** `inDegree` counts what each waiting op still waits for; `ready` holds those waiting for nothing. */
  ghost predicate Waiting(g: Graph, inDegree: map<Id, int>, ready: seq<Id>, order: seq<Id>) {
    && inDegree.Keys == g.Keys
    && (forall u :: u in g && u !in order ==> inDegree[u] == Missing(g[u].parents, order))
    && Distinct(ready)
    && forall u :: u in ready <==> Ready(g, order, u)
  }

  /** The same while the children of the op just emitted, `last`, are being unblocked: the first `j`
    * entries of `kids` have been counted down.
    */
  ghost predicate Unblocking(g: Graph, inDegree: map<Id, int>, ready: seq<Id>, before: seq<Id>, last: Id, kids: seq<Id>, j: nat) {
    && j <= |kids|
    && inDegree.Keys == g.Keys
    && (forall u :: u in g && u !in before && u != last ==> inDegree[u] == Missing(g[u].parents, before) - multiset(kids[..j])[u])
    && Distinct(ready)
    && forall u :: u in ready <==> u in g && u !in before && u != last && inDegree[u] == 0
  }

  lemma StartUnblocking(g: Graph, inDegree: map<Id, int>, ready: seq<Id>, before: seq<Id>, k: nat, kids: seq<Id>)
    requires Waiting(g, inDegree, ready, before) && k < |ready|
    ensures Unblocking(g, inDegree, ready[..k] + ready[k + 1..], before, ready[k], kids, 0)
  {
    var rest := ready[..k] + ready[k + 1..];
    forall u ensures u in rest <==> u in ready && u != ready[k] {
      if u in ready && u != ready[k] {
        var i :| 0 <= i < |ready| && ready[i] == u;
        assert u == rest[if i < k then i else i - 1];
      }
    }
    forall u | u in g ensures u !in before ==> (Ready(g, before, u) <==> inDegree[u] == 0) {
      MissingNone(g[u].parents, before);
    }
  }

  lemma EndUnblocking(g: Graph, inDegree: map<Id, int>, ready: seq<Id>, before: seq<Id>, last: Id, children: map<Id, seq<Id>>)
    requires var kids := Kids(children, last); Unblocking(g, inDegree, ready, before, last, kids, |kids|)
    requires Inverts(g, children, g.Keys) && last !in before
    ensures Waiting(g, inDegree, ready, before + [last])
  {
    var order := before + [last];
    var kids := Kids(children, last);
    assert kids[..|kids|] == kids;
    assert forall u :: u in order <==> u in before || u == last;
    forall u | u in g && u !in order ensures inDegree[u] == Missing(g[u].parents, order) {
      MissingEmit(g[u].parents, before, last);
    }
    forall u | u in g ensures u !in order ==> (Ready(g, order, u) <==> inDegree[u] == 0) {
      MissingNone(g[u].parents, order);
    }
  }

  method Unblock(ghost g: Graph, children: map<Id, seq<Id>>, inDegree: map<Id, int>, ready: seq<Id>, ghost before: seq<Id>, last: Id)
    returns (inDegree': map<Id, int>, ready': seq<Id>)
    requires Inverts(g, children, g.Keys) && Unblocking(g, inDegree, ready, before, last, Kids(children, last), 0)
    requires ParentsFirst(g, before) && Ready(g, before, last)
    ensures Waiting(g, inDegree', ready', before + [last])
  {
    assert last !in before;
    hide Unblocking, Inverts, ParentsFirst, Ready, Waiting, Kids;
    inDegree', ready' := inDegree, ready;
    var kids := Kids(children, last);
    for j := 0 to |kids|
      invariant Unblocking(g, inDegree', ready', before, last, kids, j)
    {
      KidCounted(g, children, inDegree', ready', before, last, j);
      inDegree', ready' := CountDown(g, inDegree', ready', before, last, kids, j);
    }
    EndUnblocking(g, inDegree', ready', before, last, children);
  }

  lemma KidWaits(g: Graph, children: map<Id, seq<Id>>, before: seq<Id>, last: Id, j: nat)
    requires Inverts(g, children, g.Keys) && ParentsFirst(g, before) && Ready(g, before, last)
    requires j < |Kids(children, last)|
    ensures var ch := Kids(children, last)[j]; ch in g && ch !in before && ch != last
  {
    var ch := Kids(children, last)[j];
    assert multiset(Kids(children, last))[ch] > 0;
    assert ch in g && last in g[ch].parents;
    if ch in before { ParentOut(g, before, ch, last); }
  }

  lemma ParentOut(g: Graph, order: seq<Id>, u: Id, p: Id)
    requires ParentsFirst(g, order) && u in order && p in g[u].parents
    ensures p in order
  {
    var i :| 0 <= i < |order| && order[i] == u;
    var k := ParentEarlier(g, order, i, p);
  }

  /** Counting down one child: it joins the ready ops exactly when its count reaches zero. */
  method CountDown(ghost g: Graph, inDegree: map<Id, int>, ready: seq<Id>, ghost before: seq<Id>, ghost last: Id, kids: seq<Id>, j: nat)
    returns (inDegree': map<Id, int>, ready': seq<Id>)
    requires j < |kids| && Unblocking(g, inDegree, ready, before, last, kids, j)
    requires kids[j] in g && kids[j] !in before && kids[j] != last && kids[j] in inDegree && inDegree[kids[j]] > 0
    ensures Unblocking(g, inDegree', ready', before, last, kids, j + 1)
    ensures inDegree' == inDegree[kids[j] := inDegree[kids[j]] - 1]
    ensures ready' == if inDegree'[kids[j]] == 0 then ready + [kids[j]] else ready
  {
    hide Missing;
    var ch := kids[j];
    assert kids[..j + 1] == kids[..j] + [ch];
    inDegree', ready' := inDegree[ch := inDegree[ch] - 1], ready;
    if inDegree'[ch] == 0 {
      assert ch !in ready;
      ready' := ready + [ch];
      assert forall u :: u in ready' <==> u in ready || u == ch;
    }
  }

  lemma KidCounted(g: Graph, children: map<Id, seq<Id>>, inDegree: map<Id, int>, ready: seq<Id>, before: seq<Id>, last: Id, j: nat)
    requires Inverts(g, children, g.Keys) && ParentsFirst(g, before) && Ready(g, before, last)
    requires j < |Kids(children, last)| && Unblocking(g, inDegree, ready, before, last, Kids(children, last), j)
    ensures var ch := Kids(children, last)[j];
            ch in g && ch !in before && ch != last && ch in inDegree && inDegree[ch] > 0
  {
    var kids := Kids(children, last);
    var ch := kids[j];
    KidWaits(g, children, before, last, j);
    hide ParentsFirst;
    MissingEmit(g[ch].parents, before, last);
    assert kids == kids[..j] + [ch] + kids[j + 1..];
    assert multiset(kids)[ch] >= multiset(kids[..j])[ch] + 1;
  }

  /** When nothing is ready everything is out: an order with parents first has an earliest missing op. */
  lemma NothingReady(g: Graph, order: seq<Id>, linear: seq<Id>)
    requires LinearExtension(g, linear)
    requires forall u :: !Ready(g, order, u)
    ensures forall u :: u in g ==> u in order
  {
    forall j | 0 <= j < |linear| ensures linear[j] in order { NothingReadyAt(g, order, linear, j); }
  }

  lemma {:induction false} NothingReadyAt(g: Graph, order: seq<Id>, linear: seq<Id>, j: nat)
    requires LinearExtension(g, linear) && j < |linear|
    requires forall u :: !Ready(g, order, u)
    ensures linear[j] in order
    decreases j
  {
    forall p | p in g[linear[j]].parents ensures p in order {
      var k := ParentEarlier(g, linear, j, p);
      NothingReadyAt(g, order, linear, k);
    }
    assert !Ready(g, order, linear[j]);
  }

  /** The first ready queue: the ops without in-object parents, met in map order. */
  method InitialReady(ghost g: Graph, inDegree: map<Id, int>) returns (ready: seq<Id>)
    requires inDegree.Keys == g.Keys && forall u :: u in g ==> inDegree[u] == |g[u].parents|
    ensures Waiting(g, inDegree, ready, [])
  {
    ready := [];
    var todo := inDegree.Keys;
    while todo != {}
      invariant todo <= inDegree.Keys && Distinct(ready)
      invariant forall u :: u in ready <==> u in inDegree && u !in todo && inDegree[u] == 0
      decreases todo
    {
      var id :| id in todo;
      todo := todo - {id};
      if inDegree[id] == 0 {
        ready := ready + [id];
      }
    }
    forall u | u in g ensures inDegree[u] == Missing(g[u].parents, []) && (Ready(g, [], u) <==> inDegree[u] == 0) {
      MissingStart(g[u].parents);
      MissingNone(g[u].parents, []);
    }
  }

  lemma EmitGreedy(g: Graph, t: map<Id, int>, order: seq<Id>, u: Id)
    requires Greedy(g, t, order) && ParentsFirst(g, order) && Chosen(g, t, order, u)
    ensures Greedy(g, t, order + [u]) && ParentsFirst(g, order + [u]) && Ready(g, order, u)
  {
    ParentsFirstExtend(g, order, u);
    hide Chosen;
    var longer := order + [u];
    forall i | 0 <= i < |longer| ensures Chosen(g, t, longer[..i], longer[i]) {
      if i < |order| {
        assert longer[..i] == order[..i] && Chosen(g, t, order[..i], order[i]);
      } else {
        assert longer[..i] == order;
      }
    }
  }

  /** Kahn's loop over the ready queue. */
  method EmitAll(ghost g: Graph, tStar: map<Id, int>, inDegree: map<Id, int>, children: map<Id, seq<Id>>, ready: seq<Id>)
    returns (order: seq<Id>)
    requires EffectiveTime(g, tStar) && Inverts(g, children, g.Keys) && Waiting(g, inDegree, ready, [])
    ensures Greedy(g, tStar, order) && ParentsFirst(g, order)
    ensures forall u :: !Ready(g, order, u)
  {
    WaitingStart(g, tStar);
    hide EffectiveTime, ParentsFirst, Waiting, Unblocking, Greedy, Chosen, Ready, Inverts, KeyLess;
    order := [];
    var waiting, queue := inDegree, ready;
    while |queue| > 0
      invariant Waiting(g, waiting, queue, order)
      invariant Greedy(g, tStar, order) && ParentsFirst(g, order)
      decreases |g| - |order|
    {
      ReadyHaveTimes(g, tStar, waiting, queue, order);
      var bestIdx := PickBest(queue, tStar);
      var bestID := queue[bestIdx];
      BestIsChosen(g, tStar, waiting, queue, order, bestIdx);
      StartUnblocking(g, waiting, queue, order, bestIdx, Kids(children, bestID));
      EmitGreedy(g, tStar, order, bestID);
      queue := queue[..bestIdx] + queue[bestIdx + 1..];
      waiting, queue := Unblock(g, children, waiting, queue, order, bestID);
      order := order + [bestID];
      PrefixSize(g, order);
    }
    ReadyEmpty(g, waiting, order);
  }

  /** Fails exactly when the object's DAG has a directed cycle; otherwise the result is the canonical
    * order. The code tests the emitted count once more at the end; here that test is an assertion,
    * because the effective times have already ruled out a cycle.
    */
  method Order(ops: seq<OrderOp>, objectID: string) returns (r: Result<seq<Id>>)
    requires DistinctIds(ops)
    ensures r.CycleError? <==> Cyclic(ObjectGraph(ops, objectID))
    ensures r.Ok? ==> CanonicalOrder(ObjectGraph(ops, objectID), r.value)
  {
    hide EffectiveTime, Cyclic, Waiting, Greedy, Ready, Inverts, LastById, RestrictedGraph;
    var inSet := InSet(ops, objectID);
    ghost var g := ObjectGraph(ops, objectID);
    var times := EffectiveTimesInSet(ops, inSet);
    if times.CycleError? {
      return CycleError(times.op);
    }
    ghost var linear :| LinearExtension(g, linear);
    var inDegree, children := Link(ops, objectID, inSet);
    var ready := InitialReady(g, inDegree);
    var order := EmitAll(g, times.value, inDegree, children, ready);
    AllEmitted(g, order, linear);
    assert |order| == |inSet|;
    return Ok(order);
  }

  lemma AllEmitted(g: Graph, order: seq<Id>, linear: seq<Id>)
    requires LinearExtension(g, linear) && ParentsFirst(g, order) && forall u :: !Ready(g, order, u)
    ensures LinearExtension(g, order) && |order| == |g| && !Cyclic(g)
  {
    NothingReady(g, order, linear);
    hide ParentsFirst, Ready;
    LinearSize(g, order);
    LinearExtensionAcyclic(g, order);
  }

  lemma PrefixSize(g: Graph, order: seq<Id>)
    requires ParentsFirst(g, order)
    ensures |order| <= |g|
  {
    var s := set u | u in order;
    DistinctSize(order, s);
    SubsetSize(s, g.Keys);
  }

  lemma {:induction false} SubsetSize(small: set<Id>, large: set<Id>)
    requires small <= large
    ensures |small| <= |large|
    decreases small
  {
    if small == {} {
    } else {
      var u :| u in small;
      SubsetSize(small - {u}, large - {u});
    }
  }
}
