/** The engine's own happens-before oracle: one forward pass over the total order, in which each op takes over
  * its parents' rows. A row of 64-bit words is modelled as the set of positions whose bits are on.
  */
module EngineReach {
  import opened CausalGraph
  import opened EngineOrder

  datatype Reach = Reach(index: map<Id, nat>, rows: seq<set<nat>>)

  /** Whether `a` happened before `d`, by the bit of `a` in the row of `d`. */
  predicate IsAncestor(r: Reach, a: Id, d: Id) {
    && r.rows != [] && a in r.index && d in r.index
    && r.index[a] < r.index[d] < |r.rows|
    && r.index[a] in r.rows[r.index[d]]
  }

  // ---- The rows ----

  ghost predicate Indexes(index: map<Id, nat>, order: seq<Id>) {
    && (forall k :: 0 <= k < |order| ==> order[k] in index && index[order[k]] == k)
    && forall u :: u in index ==> index[u] < |order| && order[index[u]] == u
  }

  /** The row of the op at `i` holds the positions of its strict past. */
  ghost predicate RowIs(g: Graph, order: seq<Id>, row: set<nat>, i: nat) {
    i < |order| && forall k: nat :: k in row <==> k < |order| && Precedes(g, order[k], order[i])
  }

  /** What a parent contributes: its own position and its row. */
  ghost predicate Contributes(index: map<Id, nat>, rows: seq<set<nat>>, parents: seq<Id>, k: nat) {
    exists p :: p in parents && p in index && index[p] < |rows| && (k == index[p] || k in rows[index[p]])
  }

  lemma {:induction false} ContributesNext(index: map<Id, nat>, rows: seq<set<nat>>, parents: seq<Id>, p: Id, k: nat)
    ensures Contributes(index, rows, parents + [p], k) <==>
            Contributes(index, rows, parents, k) || Contributes(index, rows, [p], k)
  {
    if Contributes(index, rows, parents, k) {
      var q :| q in parents && q in index && index[q] < |rows| && (k == index[q] || k in rows[index[q]]);
      assert q in parents + [p];
    }
    if Contributes(index, rows, [p], k) { assert p in [p] && p in parents + [p]; }
  }

  /** All parents' contributions together are the strict past. */
  lemma {:induction false} RowComplete(g: Graph, order: seq<Id>, index: map<Id, nat>, rows: seq<set<nat>>, parents: seq<Id>, i: nat, row: set<nat>)
    requires LinearExtension(g, order) && Indexes(index, order) && i < |order| && i <= |rows|
    requires forall j :: 0 <= j < i ==> RowIs(g, order, rows[j], j)
    requires forall p :: p in g[order[i]].parents <==> p in parents && p in g
    requires forall k: nat :: k in row <==> Contributes(index, rows[..i], parents, k)
    ensures RowIs(g, order, row, i)
  {
    hide LinearExtension, Precedes, Contributes, Indexes;
    forall k: nat ensures Contributes(index, rows[..i], parents, k) <==> k < |order| && Precedes(g, order[k], order[i]) {
      RowBit(g, order, index, rows, parents, i, k);
    }
  }

  lemma {:induction false} ParentAt(g: Graph, order: seq<Id>, index: map<Id, nat>, i: nat, p: Id)
    requires LinearExtension(g, order) && Indexes(index, order) && i < |order| && p in g[order[i]].parents
    ensures p in index && index[p] < i && order[index[p]] == p
  {
    var k := ParentEarlier(g, order, i, p);
  }

  lemma {:induction false} RowBit(g: Graph, order: seq<Id>, index: map<Id, nat>, rows: seq<set<nat>>, parents: seq<Id>, i: nat, k: nat)
    requires LinearExtension(g, order) && Indexes(index, order) && i < |order| && i <= |rows|
    requires forall j :: 0 <= j < i ==> RowIs(g, order, rows[j], j)
    requires forall p :: p in g[order[i]].parents <==> p in parents && p in g
    ensures Contributes(index, rows[..i], parents, k) <==> k < |order| && Precedes(g, order[k], order[i])
  {
    var u := order[i];
    assert u in order && u in g;
    if Contributes(index, rows[..i], parents, k) {
      var p :| p in parents && p in index && index[p] < |rows[..i]| && (k == index[p] || k in rows[..i][index[p]]);
      hide LinearExtension, Precedes;
      InOrder(g, order, index[p]);
      assert RowIs(g, order, rows[index[p]], index[p]);
      ParentPrecedes(g, p, u);
      if k != index[p] { PrecedesTrans(g, order[k], p, u); }
    }
    if k < |order| && Precedes(g, order[k], u) {
      PrecedesViaParent(g, order[k], u);
      hide Precedes;
      var p :| p in g[u].parents && PrecedesOrIs(g, order[k], p);
      ParentAt(g, order, index, i, p);
      assert RowIs(g, order, rows[index[p]], index[p]);
    }
  }

  lemma {:induction false} InOrder(g: Graph, order: seq<Id>, i: nat)
    requires LinearExtension(g, order) && i < |order|
    ensures order[i] in g
  {
    assert order[i] in order;
  }

  // ---- Building it ----

  method IndexAll(list: seq<OrderedOp>) returns (index: map<Id, nat>)
    requires Distinct(Ids(list))
    ensures Indexes(index, Ids(list))
  {
    index := map[];
    for i := 0 to |list|
      invariant forall k :: 0 <= k < i ==> list[k].op.id in index && index[list[k].op.id] == k
      invariant forall u :: u in index ==> index[u] < i && list[index[u]].op.id == u
    {
      assert Ids(list)[i] == list[i].op.id;
      index := index[list[i].op.id := i];
    }
  }

  /** The list is a linear extension of `g`, whose edges are the listed ops' in-object parents. */
  ghost predicate Lists(g: Graph, list: seq<OrderedOp>) {
    && LinearExtension(g, Ids(list))
    && forall k :: 0 <= k < |list| ==> list[k].op.id in g && g[list[k].op.id].parents == Restrict(list[k].op.parents, g.Keys)
  }

  /** One row: each listed parent marks itself and hands on its own row. */
  method Row(index: map<Id, nat>, rows: array<set<nat>>, parents: seq<Id>, i: nat)
    requires i < rows.Length && rows[i] == {} && forall p :: p in parents && p in index ==> index[p] < i
    modifies rows
    ensures forall j :: 0 <= j < rows.Length && j != i ==> rows[j] == old(rows[j])
    ensures forall k: nat :: k in rows[i] <==> Contributes(index, old(rows[..i]), parents, k)
  {
    for j := 0 to |parents|
      invariant forall j :: 0 <= j < rows.Length && j != i ==> rows[j] == old(rows[j])
      invariant forall k: nat :: k in rows[i] <==> Contributes(index, old(rows[..i]), parents[..j], k)
    {
      var p := parents[j];
      assert p in parents && parents[..j + 1] == parents[..j] + [p];
      forall k: nat ensures Contributes(index, old(rows[..i]), parents[..j + 1], k) <==>
              Contributes(index, old(rows[..i]), parents[..j], k) || Contributes(index, old(rows[..i]), [p], k)
      {
        ContributesNext(index, old(rows[..i]), parents[..j], p, k);
      }
      if p in index {
        rows[i] := rows[i] + {index[p]} + rows[index[p]];
      }
    }
    assert parents[..|parents|] == parents;
  }

  /** Builds the oracle in one pass; it answers happens-before on every pair of ids. */
  method BuildReachability(ghost g: Graph, list: seq<OrderedOp>) returns (r: Reach)
    requires Closed(g) && Lists(g, list)
    ensures forall a, d :: IsAncestor(r, a, d) <==> Precedes(g, a, d)
  {
    ghost var order := Ids(list);
    var index := IndexAll(list);
    var rows := new set<nat>[|list|](_ => {});
    for i := 0 to |list|
      invariant forall j :: i <= j < |list| ==> rows[j] == {}
      invariant forall j :: 0 <= j < i ==> RowIs(g, order, rows[j], j)
    {
      hide Precedes, Contributes, Distinct, Closed;
      ghost var before := rows[..];
      var parents := list[i].op.parents;
      ParentsIndexed(g, list, index, i);
      Row(index, rows, parents, i);
      RowComplete(g, order, index, before, parents, i, rows[i]);
    }
    r := Reach(index, rows[..]);
    OracleRight(g, order, r);
  }

  lemma {:induction false} ParentsIndexed(g: Graph, list: seq<OrderedOp>, index: map<Id, nat>, i: nat)
    requires Lists(g, list) && Indexes(index, Ids(list)) && i < |list|
    ensures forall p :: p in list[i].op.parents && p in index ==> index[p] < i
    ensures forall p :: p in g[Ids(list)[i]].parents <==> p in list[i].op.parents && p in g
  {
    forall p | p in list[i].op.parents && p in index ensures index[p] < i {
      InOrder(g, Ids(list), index[p]);
      ParentAt(g, Ids(list), index, i, p);
    }
  }

  lemma {:induction false} OracleRight(g: Graph, order: seq<Id>, r: Reach)
    requires Closed(g) && LinearExtension(g, order) && Indexes(r.index, order) && |r.rows| == |order|
    requires forall j :: 0 <= j < |order| ==> RowIs(g, order, r.rows[j], j)
    ensures forall a, d :: IsAncestor(r, a, d) <==> Precedes(g, a, d)
  {
    forall a, d ensures IsAncestor(r, a, d) <==> Precedes(g, a, d) {
      if Precedes(g, a, d) {
        PrecedesInside(g, a, d);
        assert a in order && d in order;
        var i := PrecedesEarlier(g, order, a, r.index[d]);
      }
      hide Precedes, LinearExtension, Closed;
      if a in r.index && d in r.index { assert RowIs(g, order, r.rows[r.index[d]], r.index[d]); }
    }
  }
}
