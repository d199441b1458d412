/** The engine's own total order: one pass of Kahn's algorithm that works out each op's effective time as its
  * parents come out, instead of a search beforehand. It gives the order the specification defines, and on a
  * cycle it names exactly the ops that are on one or behind one.
  */
module EngineOrder {
  import opened CausalGraph
  import opened EffectiveTimes
  import opened TotalOrder
  import opened Sorting

  datatype OrderedOp = OrderedOp(op: OrderOp, tStar: int)

  datatype Failure =
    | MixedObjects(first: string, other: string)
    | DuplicateOp(id: Id)
    | CycleAmong(unemitted: seq<Id>)

  datatype Outcome = Ordered(list: seq<OrderedOp>) | Failed(failure: Failure)

  function Ids(list: seq<OrderedOp>): (ids: seq<Id>)
    ensures |ids| == |list| && forall k :: 0 <= k < |list| ==> ids[k] == list[k].op.id
  {
    seq(|list|, k requires 0 <= k < |list| => list[k].op.id)
  }

  // ---- What it promises ----

  /** The op belongs to another object than the first one, or repeats an id. */
  predicate Faulty(ops: seq<OrderOp>, i: int)
    requires 0 <= i < |ops|
  {
    ops[i].objectID != ops[0].objectID || exists j :: 0 <= j < i && ops[j].id == ops[i].id
  }

  predicate NoFault(ops: seq<OrderOp>, n: int) { forall i :: 0 <= i < |ops| && i < n ==> !Faulty(ops, i) }

  /** The graph of ops that all belong to the first one's object. */
  ghost function GraphOf(ops: seq<OrderOp>): (g: Graph)
    requires ops != []
    ensures Closed(g)
  {
    ObjectGraph(ops, ops[0].objectID)
  }

  /** On a cycle, or after an op on a cycle. */
  ghost predicate Stuck(g: Graph, u: Id) {
    u in g && exists c :: Precedes(g, c, c) && PrecedesOrIs(g, c, u)
  }

  ghost predicate AreStuck(g: Graph, ids: set<Id>) { forall u :: u in ids <==> Stuck(g, u) }

  /** Each listed op is one of the given ones, with its effective time. */
  ghost predicate TimesRight(ops: seq<OrderOp>, list: seq<OrderedOp>)
    requires ops != []
  {
    forall k :: 0 <= k < |list| ==> list[k].op in ops && LatestOver(GraphOf(ops), list[k].op.id, list[k].tStar)
  }

  ghost predicate ListsStuck(g: Graph, unemitted: seq<Id>) {
    exists ids: set<Id> :: AreStuck(g, ids) && SortedListOf(IdLess, unemitted, ids)
  }

  ghost predicate IsOutcome(ops: seq<OrderOp>, r: Outcome)
    requires ops != []
  {
    match r
    case Ordered(list) => NoFault(ops, |ops|) && CanonicalOrder(GraphOf(ops), Ids(list)) && TimesRight(ops, list)
    case Failed(MixedObjects(first, other)) =>
      && first == ops[0].objectID != other
      && exists i :: 0 <= i < |ops| && NoFault(ops, i) && ops[i].objectID == other
    case Failed(DuplicateOp(id)) =>
      exists i :: 0 <= i < |ops| && NoFault(ops, i) && Faulty(ops, i) && ops[i].objectID == ops[0].objectID && ops[i].id == id
    case Failed(CycleAmong(unemitted)) => NoFault(ops, |ops|) && Cyclic(GraphOf(ops)) && ListsStuck(GraphOf(ops), unemitted)
  }

  lemma {:induction false} ValidOps(ops: seq<OrderOp>)
    requires ops != [] && NoFault(ops, |ops|)
    ensures DistinctIds(ops) && (forall op :: op in ops ==> op.id in GraphOf(ops) && op.objectID == ops[0].objectID)
    ensures |GraphOf(ops)| == |ops|
  {
    forall i, j | 0 <= i < j < |ops| ensures ops[i].id != ops[j].id { assert !Faulty(ops, j); }
    forall i | 0 <= i < |ops| ensures ops[i].objectID == ops[0].objectID { assert !Faulty(ops, i); }
    IdCount(ops, InSet(ops, ops[0].objectID));
  }

  lemma {:induction false} ValidSize(ops: seq<OrderOp>)
    requires ops != [] && NoFault(ops, |ops|)
    ensures |GraphOf(ops)| == |ops|
  {
    ValidOps(ops);
  }

  lemma {:induction false} IdCount(ops: seq<OrderOp>, ids: set<Id>)
    requires DistinctIds(ops) && forall u :: u in ids <==> exists i :: 0 <= i < |ops| && ops[i].id == u
    ensures |ids| == |ops|
  {
    var list := seq(|ops|, i requires 0 <= i < |ops| => ops[i].id);
    forall u ensures u in list <==> u in ids {
      if u in ids {
        var i :| 0 <= i < |ops| && ops[i].id == u;
        assert list[i] == u;
      }
    }
    DistinctSize(list, ids);
  }

  // ---- Effective times exist, cycle or not ----

  lemma {:induction false} LatestTime(g: Graph, u: Id) returns (t: int)
    requires u in g
    ensures LatestOver(g, u, t)
  {
    hide Precedes;
    t := g[u].time;
    assert PrecedesOrIs(g, u, u);
    var todo := g.Keys;
    while todo != {}
      invariant todo <= g.Keys
      invariant exists a {:trigger PrecedesOrIs(g, a, u)} :: a in g && PrecedesOrIs(g, a, u) && g[a].time == t
      invariant forall a {:trigger PrecedesOrIs(g, a, u)} :: a in g && a !in todo && PrecedesOrIs(g, a, u) ==> g[a].time <= t
      decreases todo
    {
      var a :| a in todo;
      todo := todo - {a};
      if PrecedesOrIs(g, a, u) && g[a].time > t { t := g[a].time; }
    }
  }

  lemma {:induction false} TimesExist(g: Graph) returns (t: map<Id, int>)
    ensures EffectiveTime(g, t)
  {
    hide LatestOver;
    t := map[];
    var todo := g.Keys;
    while todo != {}
      invariant todo <= g.Keys && t.Keys == g.Keys - todo
      invariant forall u :: u in t ==> LatestOver(g, u, t[u])
      decreases todo
    {
      var u :| u in todo;
      todo := todo - {u};
      var latest := LatestTime(g, u);
      t := t[u := latest];
    }
  }

  // ---- Times worked out on the way ----

  /** What `u` has heard of its emitted parents: the latest of their effective times. */
  ghost predicate Heard(g: Graph, t: map<Id, int>, emitted: seq<Id>, parentTStar: map<Id, int>, u: Id)
  {
    && u in g
    && (u in parentTStar <==> exists p :: p in g[u].parents && p in emitted)
    && (u in parentTStar ==>
          && (exists p :: p in g[u].parents && p in emitted && p in t && t[p] == parentTStar[u])
          && forall p :: p in g[u].parents && p in emitted ==> p in t && t[p] <= parentTStar[u])
  }

  ghost predicate AllHeard(g: Graph, t: map<Id, int>, emitted: seq<Id>, parentTStar: map<Id, int>) {
    forall u :: u in g && u !in emitted ==> Heard(g, t, emitted, parentTStar, u)
  }

  /** The same while the children of `last` are being told, the first `j` of them so far. */
  ghost predicate Telling(g: Graph, t: map<Id, int>, before: seq<Id>, last: Id, kids: seq<Id>, j: nat, parentTStar: map<Id, int>) {
    && j <= |kids|
    && forall u :: u in g && u !in before && u != last ==> Heard(g, t, if u in kids[..j] then before + [last] else before, parentTStar, u)
  }

  /** The heap's items carry their effective times. */
  ghost predicate Timed(t: map<Id, int>, heap: seq<Id>, tStar: map<Id, int>) {
    forall u :: u in heap ==> u in tStar && u in t && tStar[u] == t[u]
  }

  function Later(parentTStar: map<Id, int>, u: Id, time: int): map<Id, int> {
    if u !in parentTStar || time > parentTStar[u] then parentTStar[u := time] else parentTStar
  }

  function TimeOf(time: int, parentTStar: map<Id, int>, u: Id): int {
    if u in parentTStar && parentTStar[u] > time then parentTStar[u] else time
  }

  lemma {:induction false} HearLast(g: Graph, t: map<Id, int>, before: seq<Id>, last: Id, out: seq<Id>, parentTStar: map<Id, int>, u: Id)
    requires u in g && last in g[u].parents && last in t && (out == before || out == before + [last])
    requires Heard(g, t, out, parentTStar, u)
    ensures Heard(g, t, before + [last], Later(parentTStar, u, t[last]), u)
  {
    var now, more := before + [last], Later(parentTStar, u, t[last]);
    assert forall p :: p in now <==> p in out || p == last;
    if more[u] != t[last] {
      var p :| p in g[u].parents && p in out && p in t && t[p] == parentTStar[u];
      assert p in now;
    }
  }

  lemma {:induction false} TellNext(g: Graph, t: map<Id, int>, before: seq<Id>, last: Id, kids: seq<Id>, j: nat, parentTStar: map<Id, int>)
    requires Telling(g, t, before, last, kids, j, parentTStar) && j < |kids|
    requires kids[j] in g && kids[j] !in before && kids[j] != last && last in g[kids[j]].parents && last in t
    ensures Telling(g, t, before, last, kids, j + 1, Later(parentTStar, kids[j], t[last]))
    ensures Heard(g, t, before + [last], Later(parentTStar, kids[j], t[last]), kids[j])
  {
    var ch, more := kids[j], Later(parentTStar, kids[j], t[last]);
    assert kids[..j + 1] == kids[..j] + [ch];
    HearLast(g, t, before, last, if ch in kids[..j] then before + [last] else before, parentTStar, ch);
    forall u | u in g && u !in before && u != last
      ensures Heard(g, t, if u in kids[..j + 1] then before + [last] else before, more, u)
    {
      if u != ch { HeardElse(g, t, if u in kids[..j] then before + [last] else before, parentTStar, more, u); }
    }
  }

  lemma {:induction false} HeardElse(g: Graph, t: map<Id, int>, out: seq<Id>, parentTStar: map<Id, int>, more: map<Id, int>, u: Id)
    requires u in g && Heard(g, t, out, parentTStar, u)
    requires (u in more <==> u in parentTStar) && (u in more ==> more[u] == parentTStar[u])
    ensures Heard(g, t, out, more, u)
  {}

  lemma {:induction false} StartTelling(g: Graph, t: map<Id, int>, before: seq<Id>, last: Id, kids: seq<Id>, parentTStar: map<Id, int>)
    requires AllHeard(g, t, before, parentTStar)
    ensures Telling(g, t, before, last, kids, 0, parentTStar)
  {
    hide Heard;
  }

  lemma {:induction false} EndTelling(g: Graph, t: map<Id, int>, before: seq<Id>, last: Id, children: map<Id, seq<Id>>, parentTStar: map<Id, int>)
    requires Telling(g, t, before, last, Kids(children, last), |Kids(children, last)|, parentTStar)
    requires Inverts(g, children, g.Keys)
    ensures AllHeard(g, t, before + [last], parentTStar)
  {
    var kids, now := Kids(children, last), before + [last];
    assert kids[..|kids|] == kids;
    forall u | u in g && u !in now ensures Heard(g, t, now, parentTStar, u) {
      KidIffParent(g, children, last, u);
      if u !in kids {
        assert forall p :: p in g[u].parents ==> (p in now <==> p in before);
      }
    }
  }

  lemma {:induction false} KidIffParent(g: Graph, children: map<Id, seq<Id>>, p: Id, u: Id)
    requires Inverts(g, children, g.Keys)
    ensures u in Kids(children, p) <==> u in g && p in g[u].parents
  {
    assert u in Kids(children, p) <==> multiset(Kids(children, p))[u] > 0;
    if u in g { assert p in g[u].parents <==> multiset(g[u].parents)[p] > 0; }
  }

  /** When its last parent is out, what an op has heard gives its effective time. */
  lemma {:induction false} TimeIsRight(g: Graph, t: map<Id, int>, out: seq<Id>, parentTStar: map<Id, int>, u: Id)
    requires Closed(g) && EffectiveTime(g, t) && u in g && Heard(g, t, out, parentTStar, u)
    requires forall p :: p in g[u].parents ==> p in out
    ensures t[u] == TimeOf(g[u].time, parentTStar, u)
  {
    hide LatestOver;
    var time := TimeOf(g[u].time, parentTStar, u);
    LatestFromParents(g, u, t, time);
    LatestUnique(g, u, t[u], time);
  }

  /** A child counted down to nothing has all its parents out. */
  lemma {:induction false} CountedOut(g: Graph, children: map<Id, seq<Id>>, inDegree: map<Id, int>, heap: seq<Id>, before: seq<Id>, last: Id, j: nat)
    requires Inverts(g, children, g.Keys) && last !in before && 0 < j <= |Kids(children, last)|
    requires Unblocking(g, inDegree, heap, before, last, Kids(children, last), j)
    requires var ch := Kids(children, last)[j - 1]; ch in g && ch !in before && ch != last && inDegree[ch] == 0
    ensures forall p :: p in g[Kids(children, last)[j - 1]].parents ==> p in before + [last]
  {
    var kids := Kids(children, last);
    var parents := g[kids[j - 1]].parents;
    MissingEmit(parents, before, last);
    assert kids == kids[..j] + kids[j..];
    assert multiset(kids[..j])[kids[j - 1]] <= multiset(kids)[kids[j - 1]];
    MissingNone(parents, before + [last]);
  }

  /** What the loop carries: counts, the heap's items with their times, and what waiting ops have heard. */
  datatype Progress = Progress(inDegree: map<Id, int>, heap: seq<Id>, tStar: map<Id, int>, parentTStar: map<Id, int>)

  /** What the loop reads: the ops and their child lists. */
  ghost predicate Linked(g: Graph, t: map<Id, int>, opMap: map<Id, OrderOp>, children: map<Id, seq<Id>>) {
    Closed(g) && EffectiveTime(g, t) && Inverts(g, children, g.Keys) && HasTimes(g, opMap)
  }

  ghost predicate HasTimes(g: Graph, opMap: map<Id, OrderOp>) {
    forall u :: u in g ==> u in opMap && opMap[u].time == g[u].time && opMap[u].id == u
  }

  lemma {:induction false} NotEmitted(g: Graph, before: seq<Id>, last: Id)
    requires Ready(g, before, last)
    ensures last !in before
  {}

  lemma {:induction false} KidTimed(g: Graph, t: map<Id, int>, opMap: map<Id, OrderOp>, ch: Id)
    requires HasTimes(g, opMap) && EffectiveTime(g, t) && ch in g
    ensures ch in opMap && opMap[ch].time == g[ch].time && ch in t
  {}

  /** The ops of `order` are out. */
  ghost predicate Emitted(g: Graph, t: map<Id, int>, order: seq<Id>, now: Progress) {
    && ParentsFirst(g, order)
    && Waiting(g, now.inDegree, now.heap, order) && AllHeard(g, t, order, now.parentTStar) && Timed(t, now.heap, now.tStar)
  }

  /** `last` has just come out at time `time`, and `j` of its children have been counted down and told. */
  ghost predicate Emitting(g: Graph, t: map<Id, int>, before: seq<Id>, last: Id, time: int, kids: seq<Id>, j: nat, now: Progress) {
    && ParentsFirst(g, before) && Ready(g, before, last) && last in t && t[last] == time
    && Unblocking(g, now.inDegree, now.heap, before, last, kids, j)
    && Telling(g, t, before, last, kids, j, now.parentTStar) && Timed(t, now.heap, now.tStar)
  }

  /** Still counting, and not one of those that are out. */
  ghost predicate Counted(g: Graph, before: seq<Id>, last: Id, inDegree: map<Id, int>, ch: Id) {
    ch in g && ch !in before && ch != last && ch in inDegree
  }

  /** Counts one child of the op just emitted down and tells it its parent's time; if it waits for nothing
    * more it is pushed.
    */
  method EmitChild(ghost g: Graph, ghost t: map<Id, int>, opMap: map<Id, OrderOp>, children: map<Id, seq<Id>>, now: Progress,
                   ghost before: seq<Id>, last: Id, time: int, j: nat) returns (next: Progress)
    requires Linked(g, t, opMap, children) && j < |Kids(children, last)|
    requires Emitting(g, t, before, last, time, Kids(children, last), j, now)
    ensures Emitting(g, t, before, last, time, Kids(children, last), j + 1, next)
  {
    hide Unblocking, Telling, Timed, ParentsFirst, Ready, Linked, Kids, Heard, TimeOf, Later;
    var kids := Kids(children, last);
    var ch := kids[j];
    ChildWaits(g, t, opMap, children, now, before, last, time, j);
    var parentTStar := Later(now.parentTStar, ch, time);
    var inDegree, heap := CountDown(g, now.inDegree, now.heap, before, last, kids, j);
    next := Progress(inDegree, heap, now.tStar, parentTStar);
    if inDegree[ch] == 0 {
      assert Counted(g, before, last, inDegree, ch);
      ChildTimed(g, t, opMap, children, inDegree, heap, parentTStar, before, last, j, ch);
      var due := TimeOf(opMap[ch].time, parentTStar, ch);
      PushTimed(t, now.heap, now.tStar, ch, due);
      next := next.(tStar := now.tStar[ch := due]);
    }
  }

  lemma {:induction false} ChildWaits(g: Graph, t: map<Id, int>, opMap: map<Id, OrderOp>, children: map<Id, seq<Id>>, now: Progress,
                                      before: seq<Id>, last: Id, time: int, j: nat)
    requires Linked(g, t, opMap, children) && j < |Kids(children, last)|
    requires Emitting(g, t, before, last, time, Kids(children, last), j, now)
    ensures var ch := Kids(children, last)[j];
            && Counted(g, before, last, now.inDegree, ch) && now.inDegree[ch] > 0
            && Telling(g, t, before, last, Kids(children, last), j + 1, Later(now.parentTStar, ch, time))
            && Heard(g, t, before + [last], Later(now.parentTStar, ch, time), ch)
  {
    hide Unblocking, Telling, Timed, ParentsFirst, Ready, Kids, Heard, Later, EffectiveTime, Inverts, Closed, HasTimes;
    KidCounted(g, children, now.inDegree, now.heap, before, last, j);
    KidIffParent(g, children, last, Kids(children, last)[j]);
    TellNext(g, t, before, last, Kids(children, last), j, now.parentTStar);
  }

  lemma {:induction false} ChildTimed(g: Graph, t: map<Id, int>, opMap: map<Id, OrderOp>, children: map<Id, seq<Id>>, inDegree: map<Id, int>,
                                      heap: seq<Id>, parentTStar: map<Id, int>, before: seq<Id>, last: Id, j: nat, ch: Id)
    requires Linked(g, t, opMap, children) && j < |Kids(children, last)| && Kids(children, last)[j] == ch && Ready(g, before, last)
    requires Unblocking(g, inDegree, heap, before, last, Kids(children, last), j + 1)
    requires Counted(g, before, last, inDegree, ch) && inDegree[ch] == 0 && Heard(g, t, before + [last], parentTStar, ch)
    ensures ch in opMap && ch in t && t[ch] == TimeOf(opMap[ch].time, parentTStar, ch)
  {
    hide Unblocking, Kids, Heard, TimeOf, EffectiveTime, Inverts, Closed, Ready, HasTimes;
    NotEmitted(g, before, last);
    KidTimed(g, t, opMap, ch);
    CountedOut(g, children, inDegree, heap, before, last, j + 1);
    TimeIsRight(g, t, before + [last], parentTStar, ch);
  }

  /** Emits `heap[k]`: it leaves the heap, and each of its children is counted down and told. */
  method Emit(ghost g: Graph, ghost t: map<Id, int>, opMap: map<Id, OrderOp>, children: map<Id, seq<Id>>, now: Progress,
              ghost order: seq<Id>, k: nat) returns (next: Progress)
    requires Linked(g, t, opMap, children) && Emitted(g, t, order, now) && k < |now.heap|
    ensures Emitted(g, t, order + [now.heap[k]], next)
  {
    hide *;
    var last := now.heap[k];
    var kids := Kids(children, last);
    StartEmitting(g, t, children, now, order, k);
    var time := now.tStar[last];
    next := now.(heap := now.heap[..k] + now.heap[k + 1..]);
    for j := 0 to |kids|
      invariant Emitting(g, t, order, last, time, kids, j, next)
    {
      next := EmitChild(g, t, opMap, children, next, order, last, time, j);
    }
    EndEmitting(g, t, opMap, children, next, order, last, time);
  }

  lemma {:induction false} StartEmitting(g: Graph, t: map<Id, int>, children: map<Id, seq<Id>>, now: Progress, order: seq<Id>, k: nat)
    requires Emitted(g, t, order, now) && k < |now.heap|
    ensures var last := now.heap[k];
            && last in now.tStar
            && Emitting(g, t, order, last, now.tStar[last], Kids(children, last), 0, now.(heap := now.heap[..k] + now.heap[k + 1..]))
  {
    var last := now.heap[k];
    TimedAt(t, now.heap, now.tStar, k);
    ReadyAt(g, now.inDegree, now.heap, order, k);
    hide Unblocking, Telling, AllHeard, ParentsFirst, Ready, Waiting, Kids, Timed;
    StartUnblocking(g, now.inDegree, now.heap, order, k, Kids(children, last));
    StartTelling(g, t, order, last, Kids(children, last), now.parentTStar);
  }

  lemma {:induction false} TimedAt(t: map<Id, int>, heap: seq<Id>, tStar: map<Id, int>, k: nat)
    requires Timed(t, heap, tStar) && k < |heap|
    ensures heap[k] in tStar && heap[k] in t && tStar[heap[k]] == t[heap[k]]
    ensures Timed(t, heap[..k] + heap[k + 1..], tStar)
  {
    assert heap[k] in heap;
  }

  lemma {:induction false} ReadyAt(g: Graph, inDegree: map<Id, int>, heap: seq<Id>, order: seq<Id>, k: nat)
    requires Waiting(g, inDegree, heap, order) && k < |heap|
    ensures Ready(g, order, heap[k])
  {
    hide Ready;
    assert heap[k] in heap;
  }

  lemma {:induction false} EndEmitting(g: Graph, t: map<Id, int>, opMap: map<Id, OrderOp>, children: map<Id, seq<Id>>, now: Progress,
                                       order: seq<Id>, last: Id, time: int)
    requires Linked(g, t, opMap, children) && Emitting(g, t, order, last, time, Kids(children, last), |Kids(children, last)|, now)
    ensures Emitted(g, t, order + [last], now)
  {
    hide Unblocking, Telling, Timed, AllHeard, ParentsFirst, Waiting, Ready, Kids, EffectiveTime, Inverts, HasTimes, Closed;
    NotEmitted(g, order, last);
    OutExtend(g, order, last);
    EndUnblocking(g, now.inDegree, now.heap, order, last, children);
    EndTelling(g, t, order, last, children, now.parentTStar);
  }

  lemma {:induction false} OutExtend(g: Graph, order: seq<Id>, last: Id)
    requires ParentsFirst(g, order) && Ready(g, order, last)
    ensures ParentsFirst(g, order + [last])
  {
    hide ParentsFirst;
    ParentsFirstExtend(g, order, last);
  }

  lemma {:induction false} PushTimed(t: map<Id, int>, heap: seq<Id>, tStar: map<Id, int>, ch: Id, time: int)
    requires Timed(t, heap, tStar) && ch in t && t[ch] == time
    ensures Timed(t, heap + [ch], tStar[ch := time])
  {}

  // ---- The pass ----

  lemma {:induction false} RootTime(g: Graph, t: map<Id, int>, u: Id)
    requires Closed(g) && EffectiveTime(g, t) && u in g && g[u].parents == []
    ensures u in t && t[u] == g[u].time
  {
    hide LatestOver;
    LatestFromParents(g, u, t, g[u].time);
    LatestUnique(g, u, t[u], g[u].time);
  }

  lemma {:induction false} StartEmitted(g: Graph, t: map<Id, int>, now: Progress)
    requires now.inDegree.Keys == g.Keys && (forall u :: u in g ==> now.inDegree[u] == |g[u].parents|)
    requires Distinct(now.heap) && forall u :: u in now.heap <==> u in g && now.inDegree[u] == 0
    requires Timed(t, now.heap, now.tStar) && now.parentTStar == map[]
    ensures Emitted(g, t, [], now)
  {
    hide Timed;
    forall u | u in g ensures now.inDegree[u] == Missing(g[u].parents, []) && (Ready(g, [], u) <==> now.inDegree[u] == 0) {
      MissingStart(g[u].parents);
      MissingNone(g[u].parents, []);
    }
  }

  /** `g` holds exactly these ops. */
  ghost predicate Holds(g: Graph, ops: seq<OrderOp>) {
    (forall i :: 0 <= i < |ops| ==> ops[i].id in g && g[ops[i].id].time == ops[i].time) && AreIds(ops, |ops|, g.Keys)
  }

  ghost predicate AreIds(ops: seq<OrderOp>, n: nat, ids: set<Id>) {
    forall u :: u in ids <==> exists i :: 0 <= i < n && i < |ops| && ops[i].id == u
  }

  lemma {:induction false} NextId(ops: seq<OrderOp>, n: nat, ids: set<Id>)
    requires DistinctIds(ops) && n < |ops| && AreIds(ops, n, ids)
    ensures ops[n].id !in ids && AreIds(ops, n + 1, ids + {ops[n].id})
  {}

  lemma {:induction false} NoneYet(ops: seq<OrderOp>, t: map<Id, int>)
    ensures AreIds(ops, 0, {}) && Timed(t, [], map[])
  {}

  lemma {:induction false} SameIds(ops: seq<OrderOp>, n: nat, a: set<Id>, b: set<Id>)
    requires AreIds(ops, n, a) && AreIds(ops, n, b)
    ensures a == b
  {}

  /** Pushes the ops without in-object parents, in the order given. */
  method Start(ghost g: Graph, ghost t: map<Id, int>, ops: seq<OrderOp>, inDegree: map<Id, int>) returns (now: Progress)
    requires Closed(g) && EffectiveTime(g, t) && DistinctIds(ops) && Holds(g, ops)
    requires inDegree.Keys == g.Keys && forall u :: u in g ==> inDegree[u] == |g[u].parents|
    ensures Emitted(g, t, [], now)
  {
    hide EffectiveTime, Timed, Closed, AreIds, DistinctIds, Emitted;
    var heap: seq<Id>, tStar: map<Id, int> := [], map[];
    ghost var ids: set<Id> := {};
    NoneYet(ops, t);
    for i := 0 to |ops|
      invariant Distinct(heap) && Timed(t, heap, tStar) && AreIds(ops, i, ids) && ids <= g.Keys
      invariant forall u :: u in heap <==> u in ids && inDegree[u] == 0
    {
      NextId(ops, i, ids);
      ids := ids + {ops[i].id};
      if inDegree[ops[i].id] == 0 {
        RootTime(g, t, ops[i].id);
        PushTimed(t, heap, tStar, ops[i].id, ops[i].time);
        heap, tStar := heap + [ops[i].id], tStar[ops[i].id := ops[i].time];
      }
    }
    now := Progress(inDegree, heap, tStar, map[]);
    SameIds(ops, |ops|, ids, g.Keys);
    StartEmitted(g, t, now);
  }

  ghost predicate Listed(opMap: map<Id, OrderOp>, t: map<Id, int>, list: seq<OrderedOp>) {
    forall k :: 0 <= k < |list| ==>
      list[k].op.id in opMap && list[k].op == opMap[list[k].op.id] && list[k].op.id in t && list[k].tStar == t[list[k].op.id]
  }

  lemma {:induction false} LeastChosen(g: Graph, t: map<Id, int>, order: seq<Id>, now: Progress, k: nat)
    requires Emitted(g, t, order, now) && k < |now.heap|
    requires forall v :: v in now.heap ==> v == now.heap[k] || KeyLess(now.tStar, now.heap[k], v)
    ensures Chosen(g, t, order, now.heap[k])
  {
    assert now.heap[k] in now.heap;
    hide ParentsFirst, AllHeard, Chosen, Ready;
    forall v | v in now.heap ensures v == now.heap[k] || KeyLess(t, now.heap[k], v) {
      assert v == now.heap[k] || KeyLess(now.tStar, now.heap[k], v);
    }
    hide Waiting, KeyLess;
    BestIsChosen(g, t, now.inDegree, now.heap, order, k);
  }

  lemma {:induction false} HeapTimed(g: Graph, t: map<Id, int>, order: seq<Id>, now: Progress)
    requires Emitted(g, t, order, now)
    ensures ParentsFirst(g, order) && (forall u :: u in now.heap ==> u in now.tStar && u in t && now.tStar[u] == t[u])
    ensures forall u :: u in now.heap ==> Ready(g, order, u)
    ensures now.heap == [] ==> forall u :: !Ready(g, order, u)
  {
    hide ParentsFirst, Ready, AllHeard;
  }

  /** Pops the heap until it is empty. */
  method PopAll(ghost g: Graph, ghost t: map<Id, int>, opMap: map<Id, OrderOp>, children: map<Id, seq<Id>>, start: Progress)
    returns (list: seq<OrderedOp>)
    requires Linked(g, t, opMap, children) && Emitted(g, t, [], start)
    ensures Greedy(g, t, Ids(list)) && ParentsFirst(g, Ids(list)) && Listed(opMap, t, list)
    ensures forall u :: !Ready(g, Ids(list), u)
  {
    hide ParentsFirst, Emitted, Greedy, Chosen, Ready, KeyLess, Linked;
    list := [];
    var now := start;
    ghost var order: seq<Id> := [];
    WaitingStart(g, t);
    while |now.heap| > 0
      invariant Emitted(g, t, order, now) && Greedy(g, t, order) && order == Ids(list) && Listed(opMap, t, list)
      invariant |order| <= |g|
      decreases |g| - |order|
    {
      HeapTimed(g, t, order, now);
      var k := PickBest(now.heap, now.tStar);
      var u := now.heap[k];
      LeastChosen(g, t, order, now, k);
      EmitGreedy(g, t, order, u);
      InMap(g, t, opMap, children, order, u);
      list := list + [OrderedOp(opMap[u], now.tStar[u])];
      now := Emit(g, t, opMap, children, now, order, k);
      order := order + [u];
      PrefixSize(g, order);
    }
    HeapTimed(g, t, order, now);
  }

  lemma {:induction false} InMap(g: Graph, t: map<Id, int>, opMap: map<Id, OrderOp>, children: map<Id, seq<Id>>, order: seq<Id>, u: Id)
    requires Linked(g, t, opMap, children) && Ready(g, order, u)
    ensures u in opMap && opMap[u].id == u
  {
    hide Closed, EffectiveTime, Inverts;
  }

  // ---- What is left on a cycle ----

  lemma {:induction false} NeverOut(g: Graph, order: seq<Id>, u: Id)
    requires ParentsFirst(g, order) && u in order
    ensures !Stuck(g, u)
  {
    hide Precedes;
    if Stuck(g, u) {
      var c :| Precedes(g, c, c) && PrecedesOrIs(g, c, u);
      var j :| 0 <= j < |order| && order[j] == u;
      var i := j;
      if c != u { i := PrecedesEarlier(g, order, c, j); }
      var k := PrecedesEarlier(g, order, c, i);
    }
  }

  /** From an op that cannot come out, unfinished parents lead back until one repeats. */
  lemma {:induction false} LeftIsStuck(g: Graph, order: seq<Id>, visiting: set<Id>, stack: seq<Id>)
    requires Closed(g) && OnStack(g, visiting, stack) && stack != [] && visiting <= g.Keys
    requires (forall u :: u in stack ==> u !in order) && forall u :: !Ready(g, order, u)
    ensures Stuck(g, stack[0])
    decreases g.Keys - visiting
  {
    hide Reaches, Precedes;
    var last := stack[|stack| - 1];
    assert last in stack && !Ready(g, order, last);
    var p :| p in g[last].parents && p !in order;
    if p in visiting {
      var k :| 0 <= k < |stack| && stack[k] == p;
      Closes(g, visiting, stack, k);
    } else {
      StackPush(g, visiting, stack, p);
      LeftIsStuck(g, order, visiting + {p}, stack + [p]);
    }
  }

  lemma {:induction false} Closes(g: Graph, visiting: set<Id>, stack: seq<Id>, k: nat)
    requires OnStack(g, visiting, stack) && k < |stack| && stack[0] in g
    requires stack[|stack| - 1] in g && stack[k] in g[stack[|stack| - 1]].parents
    ensures Stuck(g, stack[0])
  {
    var c, last := stack[k], stack[|stack| - 1];
    StackReaches(g, visiting, stack, k, |stack| - 1);
    StackReaches(g, visiting, stack, 0, k);
    hide OnStack;
    assert Reaches(g, c, c, 0);
    assert Reaches(g, c, last, 1);
    hide Reaches;
    ReachesTrans(g, c, last, c, 1, |stack| - 1 - k);
    assert Precedes(g, c, c);
    assert PrecedesOrIs(g, c, stack[0]);
  }

  /** When nothing is ready any more, what is missing is exactly what a cycle holds up. */
  lemma {:induction false} StuckExact(g: Graph, order: seq<Id>, left: set<Id>)
    requires Closed(g) && ParentsFirst(g, order) && (forall u :: !Ready(g, order, u))
    requires left == set u | u in g && u !in order
    ensures AreStuck(g, left)
  {
    hide Stuck, ParentsFirst, Ready, Closed;
    forall u ensures u in left <==> Stuck(g, u) {
      if u in order { NeverOut(g, order, u); }
      if u in left {
        assert OnStack(g, {u}, [u]);
        LeftIsStuck(g, order, {u}, [u]);
      }
      StuckInside(g, u);
    }
  }

  lemma {:induction false} StuckInside(g: Graph, u: Id)
    ensures Stuck(g, u) ==> u in g
  {}

  lemma {:induction false} StuckIffCyclic(g: Graph, left: set<Id>)
    requires Closed(g) && AreStuck(g, left)
    ensures Cyclic(g) <==> left != {}
  {
    hide Precedes, Closed;
    if Cyclic(g) {
      var c :| c in g && Precedes(g, c, c);
      assert PrecedesOrIs(g, c, c);
      assert Stuck(g, c);
    }
    if left != {} {
      var u :| u in left;
      var c :| Precedes(g, c, c) && PrecedesOrIs(g, c, u);
      PrecedesInside(g, c, c);
    }
  }

  // ---- The order ----

  /** Rejects ops of several objects and repeated ids, at the first that offends. */
  method Check(ops: seq<OrderOp>) returns (ok: bool, failure: Failure)
    requires ops != []
    ensures ok <==> NoFault(ops, |ops|)
    ensures !ok ==> !failure.CycleAmong? && IsOutcome(ops, Failed(failure))
  {
    var seen: set<Id> := {};
    for i := 0 to |ops|
      invariant NoFault(ops, i)
      invariant forall u :: u in seen <==> exists j :: 0 <= j < i && ops[j].id == u
    {
      if ops[i].objectID != ops[0].objectID {
        assert Faulty(ops, i);
        return false, MixedObjects(ops[0].objectID, ops[i].objectID);
      }
      if ops[i].id in seen {
        assert Faulty(ops, i);
        return false, DuplicateOp(ops[i].id);
      }
      seen := seen + {ops[i].id};
    }
    return true, MixedObjects("", "");
  }

  lemma {:induction false} OpInGraph(ops: seq<OrderOp>, i: nat)
    requires ops != [] && NoFault(ops, |ops|) && i < |ops|
    ensures ops[i].id in LastById(ops) && LastById(ops)[ops[i].id] == ops[i]
    ensures ops[i].id in GraphOf(ops) && GraphOf(ops)[ops[i].id].time == ops[i].time
  {
    ValidOps(ops);
    hide NoFault, LastById;
    LookupDistinct(ops, i);
    NodeOf(ops, ops[0].objectID, i);
  }

  lemma {:induction false} OpsInGraph(ops: seq<OrderOp>)
    requires ops != [] && NoFault(ops, |ops|)
    ensures HasTimes(GraphOf(ops), LastById(ops)) && Holds(GraphOf(ops), ops)
  {
    forall i | 0 <= i < |ops|
      ensures ops[i].id in LastById(ops) && LastById(ops)[ops[i].id] == ops[i]
      ensures ops[i].id in GraphOf(ops) && GraphOf(ops)[ops[i].id].time == ops[i].time
    {
      OpInGraph(ops, i);
    }
    hide NoFault, LastById;
    assert GraphOf(ops).Keys == InSet(ops, ops[0].objectID);
    AllIds(ops);
  }

  lemma {:induction false} AllIds(ops: seq<OrderOp>)
    requires ops != [] && NoFault(ops, |ops|)
    ensures AreIds(ops, |ops|, InSet(ops, ops[0].objectID))
  {
    forall i | 0 <= i < |ops| ensures ops[i].objectID == ops[0].objectID { assert !Faulty(ops, i); }
  }

  lemma {:induction false} LookedUp(ops: seq<OrderOp>, id: Id)
    requires ops != [] && NoFault(ops, |ops|) && id in LastById(ops)
    ensures LastById(ops)[id] in ops
  {
    hide NoFault;
    var i :| 0 <= i < |ops| && ops[i].id == id;
    OpInGraph(ops, i);
  }

  method OrderAll(ops: seq<OrderOp>, ghost g: Graph, ghost t: map<Id, int>) returns (list: seq<OrderedOp>)
    requires ops != [] && NoFault(ops, |ops|) && g == GraphOf(ops) && EffectiveTime(g, t)
    ensures Greedy(g, t, Ids(list)) && ParentsFirst(g, Ids(list)) && Listed(LastById(ops), t, list)
    ensures forall u :: !Ready(g, Ids(list), u)
  {
    hide NoFault, EffectiveTime, Inverts, HasTimes, Holds, LastById, ObjectGraph, InSet, Listed, Greedy, ParentsFirst, Ready, Emitted, Closed, DistinctIds;
    ValidOps(ops);
    OpsInGraph(ops);
    var opMap := IndexById(ops);
    var inDegree, children := Link(ops, ops[0].objectID, InSet(ops, ops[0].objectID));
    var now := Start(g, t, ops, inDegree);
    list := PopAll(g, t, opMap, children, now);
  }

  lemma {:induction false} AllOut(ops: seq<OrderOp>, g: Graph, t: map<Id, int>, list: seq<OrderedOp>)
    requires ops != [] && NoFault(ops, |ops|) && g == GraphOf(ops) && EffectiveTime(g, t)
    requires Greedy(g, t, Ids(list)) && ParentsFirst(g, Ids(list)) && Listed(LastById(ops), t, list) && |list| == |g|
    ensures IsOutcome(ops, Ordered(list))
  {
    hide NoFault, Greedy, ParentsFirst, LatestOver, LastById, ObjectGraph, GraphOf;
    FullIsLinear(g, Ids(list));
    assert CanonicalOrder(g, Ids(list));
    forall k | 0 <= k < |list| ensures list[k].op in ops { LookedUp(ops, list[k].op.id); }
    hide Ids;
    TimesAre(ops, g, t, list);
  }

  lemma {:induction false} TimesAre(ops: seq<OrderOp>, g: Graph, t: map<Id, int>, list: seq<OrderedOp>)
    requires ops != [] && g == GraphOf(ops) && EffectiveTime(g, t) && Listed(LastById(ops), t, list)
    requires forall k :: 0 <= k < |list| ==> list[k].op in ops
    ensures TimesRight(ops, list)
  {
    hide LatestOver, LastById, GraphOf;
  }

  lemma {:induction false} FullIsLinear(g: Graph, order: seq<Id>)
    requires ParentsFirst(g, order) && |order| == |g|
    ensures LinearExtension(g, order)
  {
    var out := set u | u in order;
    DistinctSize(order, out);
    forall u | u in g ensures u in order {
      if u !in order { SubsetSize(out, g.Keys - {u}); }
    }
  }

  function Unemitted(ops: seq<OrderOp>, list: seq<OrderedOp>): set<Id> { set op | op in ops && op.id !in Ids(list) :: op.id }

  lemma {:induction false} UnemittedAre(g: Graph, ops: seq<OrderOp>, list: seq<OrderedOp>)
    requires Holds(g, ops)
    ensures Unemitted(ops, list) == set u | u in g && u !in Ids(list)
  {
    var missing := set u | u in g && u !in Ids(list);
    forall u ensures u in missing <==> u in Unemitted(ops, list) {
      if u in missing {
        var i :| 0 <= i < |ops| && ops[i].id == u;
        assert ops[i] in ops;
      }
    }
  }

  lemma {:induction false} SomeLeft(ops: seq<OrderOp>, g: Graph, list: seq<OrderedOp>, unemitted: seq<Id>)
    requires ops != [] && NoFault(ops, |ops|) && g == GraphOf(ops)
    requires ParentsFirst(g, Ids(list)) && (forall u :: !Ready(g, Ids(list), u)) && |list| != |g|
    requires SortedListOf(IdLess, unemitted, Unemitted(ops, list))
    ensures IsOutcome(ops, Failed(CycleAmong(unemitted)))
  {
    hide NoFault, Ready, SortedListOf, AreStuck, Cyclic, HasTimes, LastById, GraphOf, Distinct, Unemitted, Closed, Holds;
    OpsInGraph(ops);
    UnemittedAre(g, ops, list);
    var left := Unemitted(ops, list);
    StuckExact(g, Ids(list), left);
    StuckIffCyclic(g, left);
    if left == {} {
      hide ParentsFirst;
      forall u | u in g ensures u in Ids(list) {
        assert u !in left;
      }
      LinearSize(g, Ids(list));
    }
  }

  /** Ops that pass the check: listed all, or some are left over. */
  method OrderValid(ops: seq<OrderOp>) returns (r: Outcome)
    requires ops != [] && NoFault(ops, |ops|)
    ensures IsOutcome(ops, r)
  {
    hide *;
    ghost var g := GraphOf(ops);
    ghost var t := TimesExist(g);
    var list := OrderAll(ops, g, t);
    ValidSize(ops);
    if |list| == |ops| {
      AllOut(ops, g, t, list);
      r := Ordered(list);
    } else {
      var left := Unemitted(ops, list);
      IdsStrictTotal(left);
      var unemitted := SortedKeys(IdLess, left);
      SomeLeft(ops, g, list, unemitted);
      r := Failed(CycleAmong(unemitted));
    }
  }

  /** Fails at the first op of another object or with a repeated id, and otherwise exactly on a cycle;
    * else lists the canonical order with every effective time.
    */
  method OrderWithTStar(ops: seq<OrderOp>) returns (r: Outcome)
    ensures ops == [] ==> r == Ordered([])
    ensures ops != [] ==> IsOutcome(ops, r)
  {
    hide *;
    if |ops| == 0 {
      return Ordered([]);
    }
    var ok, failure := Check(ops);
    if ok {
      r := OrderValid(ops);
    } else {
      r := Failed(failure);
    }
  }

  /** On ops of one object with ids of their own, the engine and the specification's fold agree: both fail, or
    * both give the same order.
    */
  lemma {:induction false} EngineAgrees(ops: seq<OrderOp>, engine: Outcome, reference: Result<seq<Id>>)
    requires ops != [] && NoFault(ops, |ops|) && IsOutcome(ops, engine)
    requires reference.CycleError? <==> Cyclic(GraphOf(ops))
    requires reference.Ok? ==> CanonicalOrder(GraphOf(ops), reference.value)
    ensures reference.CycleError? <==> engine.Failed?
    ensures engine.Ordered? ==> reference == Ok(Ids(engine.list))
  {
    OnlyCycles(ops, engine);
    hide GraphOf, Cyclic, CanonicalOrder, IsOutcome, NoFault, Ids;
    if engine.Ordered? {
      OrderedAcyclic(GraphOf(ops), Ids(engine.list));
      CanonicalOrderUnique(GraphOf(ops), Ids(engine.list), reference.value);
    }
  }

  lemma {:induction false} OnlyCycles(ops: seq<OrderOp>, engine: Outcome)
    requires ops != [] && NoFault(ops, |ops|) && IsOutcome(ops, engine)
    ensures engine.Failed? ==> Cyclic(GraphOf(ops)) && engine.failure.CycleAmong? && ListsStuck(GraphOf(ops), engine.failure.unemitted)
    ensures engine.Ordered? ==> CanonicalOrder(GraphOf(ops), Ids(engine.list)) && TimesRight(ops, engine.list)
  {
    forall i | 0 <= i < |ops| ensures ops[i].objectID == ops[0].objectID { assert !Faulty(ops, i); }
    hide GraphOf, Cyclic, CanonicalOrder, ListsStuck, TimesRight, Ids;
  }

  lemma {:induction false} OrderedAcyclic(g: Graph, order: seq<Id>)
    requires CanonicalOrder(g, order)
    ensures !Cyclic(g)
  {
    hide EffectiveTime, Greedy, LinearExtension, Cyclic;
    var t :| EffectiveTime(g, t) && Greedy(g, t, order) && LinearExtension(g, order);
    LinearExtensionAcyclic(g, order);
  }

  // ---- One outcome ----

  /** The ops determine what comes back: the order and every time, or the first fault, or the ops a cycle holds up. */
  lemma {:induction false} OutcomeUnique(ops: seq<OrderOp>, a: Outcome, b: Outcome)
    requires ops != [] && IsOutcome(ops, a) && IsOutcome(ops, b)
    ensures a == b
  {
    if NoFault(ops, |ops|) { ValidUnique(ops, a, b); } else { FaultUnique(ops, a, b); }
  }

  lemma {:induction false} FaultUnique(ops: seq<OrderOp>, a: Outcome, b: Outcome)
    requires ops != [] && IsOutcome(ops, a) && IsOutcome(ops, b) && !NoFault(ops, |ops|)
    ensures a == b
  {
    hide GraphOf, Cyclic, ListsStuck, TimesRight, CanonicalOrder, Ids;
    var i := FirstFault(ops, a);
    var j := FirstFault(ops, b);
    assert i == j;
  }

  lemma {:induction false} FirstFault(ops: seq<OrderOp>, a: Outcome) returns (i: nat)
    requires ops != [] && IsOutcome(ops, a) && !NoFault(ops, |ops|)
    ensures i < |ops| && NoFault(ops, i) && Faulty(ops, i)
    ensures a == Failed(if ops[i].objectID != ops[0].objectID then MixedObjects(ops[0].objectID, ops[i].objectID) else DuplicateOp(ops[i].id))
  {
    hide GraphOf, Cyclic, ListsStuck, TimesRight, CanonicalOrder, Ids;
    match a.failure
    case MixedObjects(first, other) => i :| 0 <= i < |ops| && NoFault(ops, i) && ops[i].objectID == other;
    case DuplicateOp(id) => i :| 0 <= i < |ops| && NoFault(ops, i) && Faulty(ops, i) && ops[i].objectID == ops[0].objectID && ops[i].id == id;
  }

  lemma {:induction false} ValidUnique(ops: seq<OrderOp>, a: Outcome, b: Outcome)
    requires ops != [] && IsOutcome(ops, a) && IsOutcome(ops, b) && NoFault(ops, |ops|)
    ensures a == b
  {
    hide *;
    OnlyCycles(ops, a);
    OnlyCycles(ops, b);
    if a.Ordered? { OrderedAcyclic(GraphOf(ops), Ids(a.list)); }
    if b.Ordered? { OrderedAcyclic(GraphOf(ops), Ids(b.list)); }
    if a.Ordered? {
      ValidOps(ops);
      ListUnique(ops, a.list, b.list);
    } else {
      StuckUnique(GraphOf(ops), a.failure.unemitted, b.failure.unemitted);
    }
  }

  lemma {:induction false} StuckUnique(g: Graph, a: seq<Id>, b: seq<Id>)
    requires ListsStuck(g, a) && ListsStuck(g, b)
    ensures a == b
  {
    hide Stuck, SortedListOf;
    var x: set<Id> :| AreStuck(g, x) && SortedListOf(IdLess, a, x);
    var y: set<Id> :| AreStuck(g, y) && SortedListOf(IdLess, b, y);
    assert x == y;
    IdsStrictTotal(x);
    SortedListUnique(IdLess, a, b, x);
  }

  lemma {:induction false} ListUnique(ops: seq<OrderOp>, a: seq<OrderedOp>, b: seq<OrderedOp>)
    requires ops != [] && DistinctIds(ops) && TimesRight(ops, a) && TimesRight(ops, b)
    requires CanonicalOrder(GraphOf(ops), Ids(a)) && CanonicalOrder(GraphOf(ops), Ids(b))
    ensures a == b
  {
    hide CanonicalOrder, GraphOf, LatestOver;
    CanonicalOrderUnique(GraphOf(ops), Ids(a), Ids(b));
    forall k | 0 <= k < |a| ensures a[k] == b[k] {
      assert Ids(a)[k] == a[k].op.id && Ids(b)[k] == b[k].op.id;
      LatestUnique(GraphOf(ops), a[k].op.id, a[k].tStar, b[k].tStar);
    }
  }
}
