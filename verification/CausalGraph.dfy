/** The restricted op DAG of one object: every op with its parents inside the object, and the
  * happens-before relation on it. Nothing here assumes the graph is acyclic.
  */
module CausalGraph {
  type Id = nat
  datatype Node = Node(parents: seq<Id>, time: int)
  type Graph = map<Id, Node>

  ghost predicate Closed(g: Graph) {
    forall u, p :: u in g && p in g[u].parents ==> p in g
  }

  /** `a` is reached from `b` by following exactly `n` parent edges. */
  ghost predicate Reaches(g: Graph, a: Id, b: Id, n: nat)
    decreases n
  {
    if n == 0 then a == b else b in g && exists p :: p in g[b].parents && Reaches(g, a, p, n - 1)
  }

  /** `a` happens before `b`: a non-empty path of parent edges leads from `b` to `a`. */
  ghost predicate Precedes(g: Graph, a: Id, b: Id) {
    exists n: nat :: n > 0 && Reaches(g, a, b, n)
  }

  ghost predicate PrecedesOrIs(g: Graph, a: Id, b: Id) {
    a == b || Precedes(g, a, b)
  }

  ghost predicate Cyclic(g: Graph) {
    exists u :: u in g && Precedes(g, u, u)
  }

  lemma {:induction false} ReachesTrans(g: Graph, a: Id, b: Id, c: Id, m: nat, n: nat)
    requires Reaches(g, a, b, m) && Reaches(g, b, c, n)
    ensures Reaches(g, a, c, m + n)
    decreases n
  {
    if n == 0 {
    } else {
      var p :| p in g[c].parents && Reaches(g, b, p, n - 1);
      ReachesTrans(g, a, b, p, m, n - 1);
    }
  }

  lemma PrecedesTrans(g: Graph, a: Id, b: Id, c: Id)
    requires Precedes(g, a, b) && Precedes(g, b, c)
    ensures Precedes(g, a, c)
  {
    var m: nat :| m > 0 && Reaches(g, a, b, m);
    var n: nat :| n > 0 && Reaches(g, b, c, n);
    ReachesTrans(g, a, b, c, m, n);
  }

  lemma ParentPrecedes(g: Graph, p: Id, u: Id)
    requires u in g && p in g[u].parents
    ensures Precedes(g, p, u)
  {
    assert Reaches(g, p, p, 0);
    assert Reaches(g, p, u, 1);
  }

  /** The first step back from `b`: happening before `b` is being one of its parents, or happening
    * before one of them.
    */
  lemma PrecedesViaParent(g: Graph, a: Id, b: Id)
    ensures Precedes(g, a, b) <==> b in g && exists p :: p in g[b].parents && PrecedesOrIs(g, a, p)
  {
    if Precedes(g, a, b) {
      var n: nat :| n > 0 && Reaches(g, a, b, n);
      var p :| p in g[b].parents && Reaches(g, a, p, n - 1);
      assert PrecedesOrIs(g, a, p);
    }
    if b in g && exists p :: p in g[b].parents && PrecedesOrIs(g, a, p) {
      var p :| p in g[b].parents && PrecedesOrIs(g, a, p);
      ParentPrecedes(g, p, b);
      if a != p { PrecedesTrans(g, a, p, b); }
    }
  }

  lemma {:induction false} ReachesInside(g: Graph, a: Id, b: Id, n: nat)
    requires Closed(g) && b in g && Reaches(g, a, b, n)
    ensures a in g
    decreases n
  {
    if n == 0 {
    } else {
      var p :| p in g[b].parents && Reaches(g, a, p, n - 1);
      ReachesInside(g, a, p, n - 1);
    }
  }

  lemma PrecedesInside(g: Graph, a: Id, b: Id)
    requires Closed(g) && Precedes(g, a, b)
    ensures a in g && b in g
  {
    var n: nat :| n > 0 && Reaches(g, a, b, n);
    ReachesInside(g, a, b, n);
  }

  // ---- Linear extensions ----

  ghost predicate Distinct(s: seq<Id>) {
    forall i, j :: 0 <= i < j < |s| ==> s[i] != s[j]
  }

  lemma {:induction false} DistinctSize(order: seq<Id>, s: set<Id>)
    requires Distinct(order) && forall u :: u in order <==> u in s
    ensures |order| == |s|
  {
    if order == [] {
      assert s == {};
    } else {
      var last := order[|order| - 1];
      var init := order[..|order| - 1];
      assert order == init + [last];
      assert last !in init;
      DistinctSize(init, s - {last});
    }
  }

  /** `order` lists distinct ops of `g`, each after all of its parents. */
  ghost predicate ParentsFirst(g: Graph, order: seq<Id>) {
    && Distinct(order)
    && (forall u :: u in order ==> u in g)
    && forall i, p :: 0 <= i < |order| && p in g[order[i]].parents ==> p in order[..i]
  }

  /** A linear extension: all ops of `g`, once each, parents first. */
  ghost predicate LinearExtension(g: Graph, order: seq<Id>) {
    ParentsFirst(g, order) && forall u :: u in g ==> u in order
  }

  lemma ParentEarlier(g: Graph, order: seq<Id>, j: nat, p: Id) returns (k: nat)
    requires ParentsFirst(g, order) && j < |order| && p in g[order[j]].parents
    ensures k < j && order[k] == p
  {
    hide Distinct;
    assert p in order[..j];
    k :| k < j && order[..j][k] == p;
  }

  lemma {:induction false} ReachesEarlier(g: Graph, order: seq<Id>, a: Id, j: nat, n: nat) returns (i: nat)
    requires ParentsFirst(g, order) && j < |order| && Reaches(g, a, order[j], n)
    ensures i <= j && order[i] == a && (n > 0 ==> i < j)
    decreases n
  {
    hide ParentsFirst;
    i := j;
    if n == 0 {
    } else {
      var p :| p in g[order[j]].parents && Reaches(g, a, p, n - 1);
      var k := ParentEarlier(g, order, j, p);
      hide Reaches;
      i := ReachesEarlier(g, order, a, k, n - 1);
    }
  }

  lemma PrecedesEarlier(g: Graph, order: seq<Id>, a: Id, j: nat) returns (i: nat)
    requires ParentsFirst(g, order) && j < |order| && Precedes(g, a, order[j])
    ensures i < j && order[i] == a
  {
    var n: nat :| n > 0 && Reaches(g, a, order[j], n);
    i := ReachesEarlier(g, order, a, j, n);
  }

  lemma LinearExtensionAcyclic(g: Graph, order: seq<Id>)
    requires LinearExtension(g, order)
    ensures !Cyclic(g)
  {
    if Cyclic(g) {
      var u :| u in g && Precedes(g, u, u);
      var j :| 0 <= j < |order| && order[j] == u;
      var i := PrecedesEarlier(g, order, u, j);
      assert false;
    }
  }

  lemma ParentsFirstExtend(g: Graph, order: seq<Id>, u: Id)
    requires ParentsFirst(g, order) && u in g && u !in order
    requires forall p :: p in g[u].parents ==> p in order
    ensures ParentsFirst(g, order + [u])
  {
    var longer := order + [u];
    assert longer[..|order|] == order;
    forall i, p | 0 <= i < |longer| && p in g[longer[i]].parents ensures p in longer[..i] {
      if i < |order| { assert longer[..i] == order[..i]; }
    }
  }

  /** The in-object parents of an op, in the order the commit lists them. */
  function Restrict(parents: seq<Id>, inSet: set<Id>): (kept: seq<Id>)
    ensures forall p :: p in kept <==> p in parents && p in inSet
  {
    if parents == [] then []
    else
      var rest := Restrict(parents[..|parents| - 1], inSet);
      var p := parents[|parents| - 1];
      assert parents == parents[..|parents| - 1] + [p];
      if p in inSet then rest + [p] else rest
  }
}
