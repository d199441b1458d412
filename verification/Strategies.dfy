/** The nine merge strategies. Each arm of the fold consumes the writes one state key receives: what
  * the op carries, under the rule it matched, in the order given. An arm's loop is proved against a
  * function of those writes; the lemmas say what that function means.
  */
module Strategies {
  import opened CausalGraph
  import opened Reachability
  import opened Options
  import opened FoldRules
  import opened Strings
  import Sorting

  /** A person identifier's normal form; the Unicode tables behind it are a parameter. */
  type Normalizer = string -> string

  datatype Write = Write(op: MergeOp, rule: FieldRule) {
    predicate Present() { rule.field in op.body }

    function Raw(): Value { Field(op.body, rule.field) }

    predicate FromAuthor(field: string) { field == "subject" && op.opType == "approval" && op.authorEmail != "" }
  }

  function OpWrites(op: MergeOp, frs: seq<FieldRule>): (ws: seq<Write>)
    ensures forall w :: w in ws <==> w.op == op && w.rule in frs && OpMatchesRule(op, w.rule)
  {
    if frs == [] then []
    else
      var r := frs[|frs| - 1];
      assert frs == frs[..|frs| - 1] + [r];
      OpWrites(op, frs[..|frs| - 1]) + if OpMatchesRule(op, r) then [Write(op, r)] else []
  }

  /** The writes of a run of ops, op by op and rule by rule. */
  function Writes(order: seq<Id>, opMap: map<Id, MergeOp>, frs: seq<FieldRule>): (ws: seq<Write>)
    requires forall id :: id in order ==> id in opMap
    ensures forall w :: w in ws <==> w.rule in frs && OpMatchesRule(w.op, w.rule) && exists id :: id in order && w.op == opMap[id]
  {
    if order == [] then []
    else
      var id := order[|order| - 1];
      assert order == order[..|order| - 1] + [id];
      Writes(order[..|order| - 1], opMap, frs) + OpWrites(opMap[id], frs)
  }

  /** The nested loop over ops and rules that every arm shares. */
  method CollectWrites(order: seq<Id>, opMap: map<Id, MergeOp>, frs: seq<FieldRule>) returns (ws: seq<Write>)
    requires forall id :: id in order ==> id in opMap
    ensures ws == Writes(order, opMap, frs)
  {
    ws := [];
    for i := 0 to |order|
      invariant ws == Writes(order[..i], opMap, frs)
    {
      assert order[..i + 1][..i] == order[..i];
      var op := opMap[order[i]];
      ghost var before := ws;
      for j := 0 to |frs|
        invariant ws == before + OpWrites(op, frs[..j])
      {
        assert frs[..j + 1][..j] == frs[..j];
        if OpMatchesRule(op, frs[j]) {
          ws := ws + [Write(op, frs[j])];
        }
      }
      assert frs[..|frs|] == frs;
    }
    assert order[..|order|] == order;
  }

  // ---- lww, create-once ----

  predicate Carries(w: Write) { w.Present() && w.Raw() != Null }

  function LwwValue(w: Write, norm: Normalizer): Value {
    if w.Raw().Str? && w.rule.normalizeValue then Str(norm(w.Raw().s)) else w.Raw()
  }

  ghost predicate NothingCarried(ws: seq<Write>, lo: int, hi: int) {
    forall j :: 0 <= lo <= j < hi <= |ws| ==> !Carries(ws[j])
  }

  /** The last write that carries a value decides. */
  ghost predicate LwwSpec(ws: seq<Write>, norm: Normalizer, r: Option<Value>) {
    match r
    case None => NothingCarried(ws, 0, |ws|)
    case Some(v) => exists i :: 0 <= i < |ws| && Carries(ws[i]) && NothingCarried(ws, i + 1, |ws|) && v == LwwValue(ws[i], norm)
  }

  /** The first write that carries a value decides. */
  ghost predicate CreateOnceSpec(ws: seq<Write>, r: Option<Value>) {
    match r
    case None => NothingCarried(ws, 0, |ws|)
    case Some(v) => exists i :: 0 <= i < |ws| && Carries(ws[i]) && NothingCarried(ws, 0, i) && v == ws[i].Raw()
  }

  method ReduceLww(ws: seq<Write>, norm: Normalizer) returns (r: Option<Value>)
    ensures LwwSpec(ws, norm, r)
  {
    r := None;
    ghost var last := -1;
    for i := 0 to |ws|
      invariant -1 <= last < i && (r.None? <==> last == -1)
      invariant NothingCarried(ws, last + 1, i)
      invariant r.Some? ==> Carries(ws[last]) && r.value == LwwValue(ws[last], norm)
    {
      if Carries(ws[i]) {
        r, last := Some(LwwValue(ws[i], norm)), i;
      }
    }
  }

  method ReduceCreateOnce(ws: seq<Write>) returns (r: Option<Value>)
    ensures CreateOnceSpec(ws, r)
  {
    r := None;
    ghost var first := -1;
    for i := 0 to |ws|
      invariant -1 <= first < i && (r.None? <==> first == -1)
      invariant NothingCarried(ws, 0, if first == -1 then i else first)
      invariant r.Some? ==> Carries(ws[first]) && r.value == ws[first].Raw()
    {
      if r.None? && Carries(ws[i]) {
        r, first := Some(ws[i].Raw()), i;
      }
    }
  }

  lemma LwwUnique(ws: seq<Write>, norm: Normalizer, r: Option<Value>, s: Option<Value>)
    requires LwwSpec(ws, norm, r) && LwwSpec(ws, norm, s)
    ensures r == s
  {}

  lemma CreateOnceUnique(ws: seq<Write>, r: Option<Value>, s: Option<Value>)
    requires CreateOnceSpec(ws, r) && CreateOnceSpec(ws, s)
    ensures r == s
  {}

  // ---- append ----

  function Entries(w: Write): seq<Value> {
    if !w.Present() then [] else if w.Raw().List? then w.Raw().items else [w.Raw()]
  }

  function Appended(ws: seq<Write>): seq<Value> {
    if ws == [] then [] else Appended(ws[..|ws| - 1]) + Entries(ws[|ws| - 1])
  }

  /** The entries of all writes in order; a written-but-empty list is still a list. */
  ghost predicate AppendSpec(ws: seq<Write>, r: Option<Value>) {
    r == if exists w :: w in ws && w.Present() then Some(List(Appended(ws))) else None
  }

  method ReduceAppend(ws: seq<Write>) returns (r: Option<Value>)
    ensures AppendSpec(ws, r)
  {
    var list, hasAppend := [], false;
    for i := 0 to |ws|
      invariant list == Appended(ws[..i])
      invariant hasAppend <==> exists k :: 0 <= k < i && ws[k].Present()
    {
      assert ws[..i + 1][..i] == ws[..i];
      if ws[i].Present() {
        hasAppend := true;
        list := list + if ws[i].Raw().List? then ws[i].Raw().items else [ws[i].Raw()];
      }
    }
    assert ws[..|ws|] == ws;
    return if hasAppend then Some(List(list)) else None;
  }

  // ---- Sets of normalized items ----

  function NormalizeItem(r: FieldRule, norm: Normalizer, item: string): string {
    if r.normalizeItems then norm(item) else item
  }

  /** The items that survive normalization; empty ones are dropped. */
  function Cleaned(r: FieldRule, norm: Normalizer, items: seq<string>): set<string> {
    set item | item in items && NormalizeItem(r, norm, item) != "" :: NormalizeItem(r, norm, item)
  }

  function StringList(items: seq<string>): Value {
    List(seq(|items|, i requires 0 <= i < |items| => Str(items[i])))
  }

  function UnionOf(w: Write, norm: Normalizer): set<string> {
    Cleaned(w.rule, norm, ItemsOf(w.Raw()))
  }

  ghost predicate IsUnion(ws: seq<Write>, norm: Normalizer, items: set<string>) {
    forall x :: x in items <==> exists w :: w in ws && x in UnionOf(w, norm)
  }

  ghost predicate SetUnionSpec(ws: seq<Write>, norm: Normalizer, r: Option<Value>) {
    match r
    case None => forall w :: w in ws ==> !w.Present()
    case Some(v) =>
      && (exists w :: w in ws && w.Present())
      && exists items :: IsUnion(ws, norm, items) && v == StringList(Sorted(items))
  }

  method ReduceSetUnion(ws: seq<Write>, norm: Normalizer) returns (r: Option<Value>)
    ensures SetUnionSpec(ws, norm, r)
  {
    var items: set<string>, hasSet := {}, false;
    for i := 0 to |ws|
      invariant hasSet <==> exists k :: 0 <= k < i && ws[k].Present()
      invariant forall x :: x in items <==> exists k :: 0 <= k < i && x in UnionOf(ws[k], norm)
    {
      if ws[i].Present() {
        hasSet := true;
        items := items + Cleaned(ws[i].rule, norm, ItemsOf(ws[i].Raw()));
      }
    }
    if !hasSet {
      return None;
    }
    var sorted := SortStrings(items);
    return Some(StringList(sorted));
  }

  lemma SetUnionUnique(ws: seq<Write>, norm: Normalizer, r: Option<Value>, s: Option<Value>)
    requires SetUnionSpec(ws, norm, r) && SetUnionSpec(ws, norm, s)
    ensures r == s
  {
    if r.Some? && s.Some? {
      var a :| IsUnion(ws, norm, a) && r.value == StringList(Sorted(a));
      var b :| IsUnion(ws, norm, b) && s.value == StringList(Sorted(b));
      assert a == b;
    }
  }

  // ---- set-observed-remove ----

  function Adds(w: Write, norm: Normalizer): set<string> { Cleaned(w.rule, norm, SidesOf(w.op, w.rule).0) }

  function Removes(w: Write, norm: Normalizer): set<string> { Cleaned(w.rule, norm, SidesOf(w.op, w.rule).1) }

  predicate WritesSide(w: Write) { SidesOf(w.op, w.rule).0 != [] || SidesOf(w.op, w.rule).1 != [] }

  /** No remove of `x` has this add in its past. */
  ghost predicate Survives(g: Graph, ws: seq<Write>, norm: Normalizer, x: string, add: Id) {
    forall r :: r in ws && x in Removes(r, norm) ==> !Precedes(g, add, r.op.id)
  }

  /** An item is in the set exactly when one of its adds survives every remove of it. */
  ghost predicate InObservedSet(g: Graph, ws: seq<Write>, norm: Normalizer, x: string) {
    exists a :: a in ws && x in Adds(a, norm) && Survives(g, ws, norm, x, a.op.id)
  }

  ghost predicate IsObservedSet(g: Graph, ws: seq<Write>, norm: Normalizer, items: set<string>) {
    forall x :: x in items <==> InObservedSet(g, ws, norm, x)
  }

  ghost predicate ObservedRemoveSpec(g: Graph, ws: seq<Write>, norm: Normalizer, r: Option<Value>) {
    match r
    case None => forall w :: w in ws ==> !WritesSide(w)
    case Some(v) =>
      && (exists w :: w in ws && WritesSide(w))
      && exists items :: IsObservedSet(g, ws, norm, items) && v == StringList(Sorted(items))
  }

  predicate IsAncestor(ancestors: Ancestors, a: Id, b: Id) { b in ancestors && a in ancestors[b] }

  /** The ancestor table answers happens-before for every op that writes. */
  ghost predicate Answers(g: Graph, ancestors: Ancestors, ws: seq<Write>) {
    forall w, a :: w in ws ==> (IsAncestor(ancestors, a, w.op.id) <==> Precedes(g, a, w.op.id))
  }

  datatype Tagged = Tagged(op: Id, item: string)

  function Side(w: Write, norm: Normalizer, adds: bool): set<string> { if adds then Adds(w, norm) else Removes(w, norm) }

  function Tag(op: Id, items: set<string>): set<Tagged> { set x | x in items :: Tagged(op, x) }

  /** All add records, or all remove records, of the writes. */
  function Records(ws: seq<Write>, norm: Normalizer, adds: bool): set<Tagged> {
    if ws == [] then {}
    else Records(ws[..|ws| - 1], norm, adds) + Tag(ws[|ws| - 1].op.id, Side(ws[|ws| - 1], norm, adds))
  }

  lemma {:induction false} RecordsMean(ws: seq<Write>, norm: Normalizer, adds: bool, t: Tagged)
    ensures t in Records(ws, norm, adds) <==> exists w :: w in ws && t.op == w.op.id && t.item in Side(w, norm, adds)
  {
    hide Side;
    if ws == [] {
    } else {
      var w := ws[|ws| - 1];
      assert ws == ws[..|ws| - 1] + [w];
      RecordsMean(ws[..|ws| - 1], norm, adds, t);
    }
  }

  predicate Removed(ancestors: Ancestors, add: Tagged, removes: set<Tagged>) {
    exists m :: m in removes && m.item == add.item && IsAncestor(ancestors, add.op, m.op)
  }

  method CollectSides(ws: seq<Write>, norm: Normalizer) returns (adds: set<Tagged>, removes: set<Tagged>, hasOps: bool)
    ensures adds == Records(ws, norm, true) && removes == Records(ws, norm, false)
    ensures hasOps <==> exists w :: w in ws && WritesSide(w)
  {
    hide WritesSide, Adds, Removes, Tag;
    adds, removes, hasOps := {}, {}, false;
    for i := 0 to |ws|
      invariant hasOps <==> exists k :: 0 <= k < i && WritesSide(ws[k])
      invariant adds == Records(ws[..i], norm, true) && removes == Records(ws[..i], norm, false)
    {
      assert ws[..i + 1][..i] == ws[..i];
      if WritesSide(ws[i]) {
        hasOps := true;
      }
      adds := adds + Tag(ws[i].op.id, Adds(ws[i], norm));
      removes := removes + Tag(ws[i].op.id, Removes(ws[i], norm));
    }
    assert ws[..|ws|] == ws;
  }

  method ReduceObservedRemove(ghost g: Graph, ancestors: Ancestors, ws: seq<Write>, norm: Normalizer) returns (r: Option<Value>)
    requires Answers(g, ancestors, ws)
    ensures ObservedRemoveSpec(g, ws, norm, r)
  {
    hide Records, Answers, IsObservedSet, Removed, WritesSide, Sorted, StringList;
    var adds, removes, hasOps := CollectSides(ws, norm);
    if !hasOps {
      return None;
    }
    var items := set a | a in adds && !Removed(ancestors, a, removes) :: a.item;
    ObservedItems(g, ancestors, ws, norm, items);
    var sorted := SortStrings(items);
    return Some(StringList(sorted));
  }

  lemma RemovedMeans(g: Graph, ancestors: Ancestors, ws: seq<Write>, norm: Normalizer, add: Tagged)
    requires Answers(g, ancestors, ws)
    ensures Removed(ancestors, add, Records(ws, norm, false)) <==> !Survives(g, ws, norm, add.item, add.op)
  {
    hide Precedes, Removes, IsAncestor;
    var removes := Records(ws, norm, false);
    if Removed(ancestors, add, removes) {
      var m :| m in removes && m.item == add.item && IsAncestor(ancestors, add.op, m.op);
      RecordsMean(ws, norm, false, m);
    }
    if !Survives(g, ws, norm, add.item, add.op) {
      var w :| w in ws && add.item in Removes(w, norm) && Precedes(g, add.op, w.op.id);
      RecordsMean(ws, norm, false, Tagged(w.op.id, add.item));
      assert Tagged(w.op.id, add.item) in removes;
    }
  }

  lemma ObservedItems(g: Graph, ancestors: Ancestors, ws: seq<Write>, norm: Normalizer, items: set<string>)
    requires Answers(g, ancestors, ws)
    requires items == set a | a in Records(ws, norm, true) && !Removed(ancestors, a, Records(ws, norm, false)) :: a.item
    ensures IsObservedSet(g, ws, norm, items)
  {
    forall x ensures x in items <==> InObservedSet(g, ws, norm, x) {
      ObservedItem(g, ancestors, ws, norm, x);
    }
  }

  lemma ObservedItem(g: Graph, ancestors: Ancestors, ws: seq<Write>, norm: Normalizer, x: string)
    requires Answers(g, ancestors, ws)
    ensures InObservedSet(g, ws, norm, x) <==>
            exists a :: a in Records(ws, norm, true) && !Removed(ancestors, a, Records(ws, norm, false)) && a.item == x
  {
    var adds, removes := Records(ws, norm, true), Records(ws, norm, false);
    forall a ensures Removed(ancestors, a, removes) <==> !Survives(g, ws, norm, a.item, a.op) {
      RemovedMeans(g, ancestors, ws, norm, a);
    }
    forall a ensures a in adds <==> exists w :: w in ws && a.op == w.op.id && a.item in Side(w, norm, true) {
      RecordsMean(ws, norm, true, a);
    }
    hide Removed, Survives, Adds, Removes, Answers;
    if InObservedSet(g, ws, norm, x) {
      var w :| w in ws && x in Adds(w, norm) && Survives(g, ws, norm, x, w.op.id);
      var a := Tagged(w.op.id, x);
      assert a in adds && !Removed(ancestors, a, removes);
    }
  }

  lemma ObservedRemoveUnique(g: Graph, ws: seq<Write>, norm: Normalizer, r: Option<Value>, s: Option<Value>)
    requires ObservedRemoveSpec(g, ws, norm, r) && ObservedRemoveSpec(g, ws, norm, s)
    ensures r == s
  {
    hide InObservedSet, WritesSide, Sorted, StringList;
    if r.Some? && s.Some? {
      var a :| IsObservedSet(g, ws, norm, a) && r.value == StringList(Sorted(a));
      var b :| IsObservedSet(g, ws, norm, b) && s.value == StringList(Sorted(b));
      assert a == b;
    }
  }

  // ---- tombstone ----

  predicate IsDelete(w: Write) { w.op.opType == "delete" || w.Raw() == Bool(true) }

  predicate IsUndelete(w: Write) { !IsDelete(w) && (w.op.opType == "undelete" || w.Raw() == Bool(false)) }

  ghost predicate Cleared(g: Graph, ws: seq<Write>, d: Id) {
    exists u :: u in ws && IsUndelete(u) && Precedes(g, d, u.op.id)
  }

  /** Deleted exactly when some delete has no undelete after it. */
  ghost predicate TombstoneSpec(g: Graph, ws: seq<Write>, r: Option<Value>) {
    match r
    case None => forall w :: w in ws ==> !IsDelete(w) && !IsUndelete(w)
    case Some(v) =>
      && (exists w :: w in ws && (IsDelete(w) || IsUndelete(w)))
      && v == Bool(exists d :: d in ws && IsDelete(d) && !Cleared(g, ws, d.op.id))
  }

  method Marks(ws: seq<Write>) returns (deletes: seq<Id>, undeletes: seq<Id>, hasTombstone: bool)
    ensures forall d :: d in deletes <==> exists w :: w in ws && IsDelete(w) && w.op.id == d
    ensures forall u :: u in undeletes <==> exists w :: w in ws && IsUndelete(w) && w.op.id == u
    ensures hasTombstone <==> exists w :: w in ws && (IsDelete(w) || IsUndelete(w))
  {
    hide IsDelete;
    deletes, undeletes, hasTombstone := [], [], false;
    for i := 0 to |ws|
      invariant forall d :: d in deletes <==> exists k :: 0 <= k < i && IsDelete(ws[k]) && ws[k].op.id == d
      invariant forall u :: u in undeletes <==> exists k :: 0 <= k < i && IsUndelete(ws[k]) && ws[k].op.id == u
      invariant hasTombstone <==> exists k :: 0 <= k < i && (IsDelete(ws[k]) || IsUndelete(ws[k]))
    {
      if IsDelete(ws[i]) {
        deletes, hasTombstone := deletes + [ws[i].op.id], true;
      } else if ws[i].op.opType == "undelete" || ws[i].Raw() == Bool(false) {
        undeletes, hasTombstone := undeletes + [ws[i].op.id], true;
      }
    }
  }

  method ReduceTombstone(ghost g: Graph, ancestors: Ancestors, ws: seq<Write>) returns (r: Option<Value>)
    requires Answers(g, ancestors, ws)
    ensures TombstoneSpec(g, ws, r)
  {
    var deletes, undeletes, hasTombstone := Marks(ws);
    hide IsDelete, IsUndelete, Precedes, IsAncestor;
    if !hasTombstone {
      return None;
    }
    var isDeleted := exists d :: d in deletes && !(exists u :: u in undeletes && IsAncestor(ancestors, d, u));
    DeletedMeans(g, ancestors, ws, deletes, undeletes);
    return Some(Bool(isDeleted));
  }

  lemma ClearedMeans(g: Graph, ancestors: Ancestors, ws: seq<Write>, undeletes: seq<Id>, d: Id)
    requires Answers(g, ancestors, ws)
    requires forall u :: u in undeletes <==> exists w :: w in ws && IsUndelete(w) && w.op.id == u
    ensures Cleared(g, ws, d) <==> exists u :: u in undeletes && IsAncestor(ancestors, d, u)
  {
    hide IsUndelete, Precedes, IsAncestor;
    if exists u :: u in undeletes && IsAncestor(ancestors, d, u) {
      var u :| u in undeletes && IsAncestor(ancestors, d, u);
      var w :| w in ws && IsUndelete(w) && w.op.id == u;
      assert IsAncestor(ancestors, d, w.op.id);
    }
    if Cleared(g, ws, d) {
      var w :| w in ws && IsUndelete(w) && Precedes(g, d, w.op.id);
      assert w.op.id in undeletes && IsAncestor(ancestors, d, w.op.id);
    }
  }

  lemma DeletedMeans(g: Graph, ancestors: Ancestors, ws: seq<Write>, deletes: seq<Id>, undeletes: seq<Id>)
    requires Answers(g, ancestors, ws)
    requires forall d :: d in deletes <==> exists w :: w in ws && IsDelete(w) && w.op.id == d
    requires forall u :: u in undeletes <==> exists w :: w in ws && IsUndelete(w) && w.op.id == u
    ensures (exists d :: d in ws && IsDelete(d) && !Cleared(g, ws, d.op.id))
       <==> exists d :: d in deletes && !(exists u :: u in undeletes && IsAncestor(ancestors, d, u))
  {
    hide IsDelete, IsUndelete, IsAncestor;
    forall d: Id ensures Cleared(g, ws, d) <==> exists u :: u in undeletes && IsAncestor(ancestors, d, u) {
      ClearedMeans(g, ancestors, ws, undeletes, d);
    }
    hide Cleared;
    if w :| w in ws && IsDelete(w) && !Cleared(g, ws, w.op.id) {
      assert w.op.id in deletes;
    }
  }

  lemma TombstoneUnique(g: Graph, ws: seq<Write>, r: Option<Value>, s: Option<Value>)
    requires TombstoneSpec(g, ws, r) && TombstoneSpec(g, ws, s)
    ensures r == s
  {
    hide IsDelete, IsUndelete, Cleared;
  }

  // ---- lattice ----

  /** The rank a lattice element gets: the last position that declares it, or -1. */
  function Rank(lattice: seq<string>, s: string): (rank: int)
    ensures -1 <= rank < |lattice|
    ensures rank >= 0 ==> lattice[rank] == s
    ensures rank == -1 <==> s !in lattice
  {
    if lattice == [] then -1
    else if lattice[|lattice| - 1] == s then |lattice| - 1
    else Rank(lattice[..|lattice| - 1], s)
  }

  predicate Ranked(w: Write, lattice: seq<string>) { w.Present() && w.Raw().Str? && Rank(lattice, w.Raw().s) >= 0 }

  /** The greatest declared element written, wherever it was written. */
  ghost predicate LatticeSpec(ws: seq<Write>, lattice: seq<string>, r: Option<Value>) {
    match r
    case None => forall w :: w in ws ==> !Ranked(w, lattice)
    case Some(v) =>
      && (exists w :: w in ws && Ranked(w, lattice) && v == w.Raw())
      && v.Str? && forall w :: w in ws && Ranked(w, lattice) ==> Rank(lattice, w.Raw().s) <= Rank(lattice, v.s)
  }

  method ReduceLattice(ws: seq<Write>, lattice: seq<string>) returns (r: Option<Value>)
    ensures LatticeSpec(ws, lattice, r)
  {
    hide Rank;
    var currentRank := -1;
    r := None;
    for i := 0 to |ws|
      invariant currentRank == if r.Some? && r.value.Str? then Rank(lattice, r.value.s) else -1
      invariant r.Some? ==> currentRank >= 0 && exists k :: 0 <= k < i && Ranked(ws[k], lattice) && r.value == ws[k].Raw()
      invariant forall k :: 0 <= k < i && Ranked(ws[k], lattice) ==> Rank(lattice, ws[k].Raw().s) <= currentRank
    {
      if ws[i].Present() && ws[i].Raw().Str? {
        var rk := Rank(lattice, ws[i].Raw().s);
        if rk >= 0 && rk > currentRank {
          currentRank, r := rk, Some(ws[i].Raw());
        }
      }
    }
  }

  lemma LatticeUnique(ws: seq<Write>, lattice: seq<string>, r: Option<Value>, s: Option<Value>)
    requires LatticeSpec(ws, lattice, r) && LatticeSpec(ws, lattice, s)
    ensures r == s
  {
    if r.Some? && s.Some? {
      var a :| a in ws && Ranked(a, lattice) && r.value == a.Raw();
      var b :| b in ws && Ranked(b, lattice) && s.value == b.Raw();
      assert Rank(lattice, r.value.s) == Rank(lattice, s.value.s);
    }
  }

  // ---- multi-value ----

  predicate Versions(w: Write) { w.Present() && w.Raw().Str? }

  ghost predicate Superseded(g: Graph, ws: seq<Write>, id: Id) {
    exists w :: w in ws && Versions(w) && Precedes(g, id, w.op.id)
  }

  /** A text is kept exactly when some write of it is causally maximal. */
  ghost predicate IsMaximalText(g: Graph, ws: seq<Write>, text: string) {
    exists w :: w in ws && Versions(w) && w.Raw() == Str(text) && !Superseded(g, ws, w.op.id)
  }

  ghost predicate AreMaximalTexts(g: Graph, ws: seq<Write>, texts: set<string>) {
    forall x :: x in texts <==> IsMaximalText(g, ws, x)
  }

  /** One text settles the register; several stand side by side, sorted. */
  function Register(texts: seq<string>): Value { if |texts| == 1 then Str(texts[0]) else StringList(texts) }

  ghost predicate MultiValueSpec(g: Graph, ws: seq<Write>, r: Option<Value>) {
    match r
    case None => forall w :: w in ws ==> !Versions(w)
    case Some(v) =>
      && (exists w :: w in ws && Versions(w))
      && exists texts :: AreMaximalTexts(g, ws, texts) && v == Register(Sorted(texts))
  }

  method ReduceMultiValue(ghost g: Graph, ancestors: Ancestors, ws: seq<Write>) returns (r: Option<Value>)
    requires Answers(g, ancestors, ws)
    ensures MultiValueSpec(g, ws, r)
  {
    hide Precedes, IsAncestor, Superseded, Sorted, StringList;
    var texts: set<string>, written := {}, false;
    for i := 0 to |ws|
      invariant written <==> exists k :: 0 <= k < i && Versions(ws[k])
      invariant forall x :: x in texts <==> exists k :: 0 <= k < i && Versions(ws[k]) && ws[k].Raw() == Str(x) && !Superseded(g, ws, ws[k].op.id)
    {
      hide AreMaximalTexts;
      if Versions(ws[i]) {
        written := true;
        var superseded := exists j :: 0 <= j < |ws| && Versions(ws[j]) && IsAncestor(ancestors, ws[i].op.id, ws[j].op.id);
        SupersededMeans(g, ancestors, ws, ws[i].op.id);
        if !superseded {
          texts := texts + {ws[i].Raw().s};
        }
      }
    }
    if !written {
      return None;
    }
    assert AreMaximalTexts(g, ws, texts) by { hide Versions, Superseded; }
    var sorted := SortStrings(texts);
    return Some(Register(sorted));
  }

  lemma SupersededMeans(g: Graph, ancestors: Ancestors, ws: seq<Write>, id: Id)
    requires Answers(g, ancestors, ws)
    ensures Superseded(g, ws, id) <==> exists j :: 0 <= j < |ws| && Versions(ws[j]) && IsAncestor(ancestors, id, ws[j].op.id)
  {
    hide Precedes, IsAncestor;
    if Superseded(g, ws, id) {
      var w :| w in ws && Versions(w) && Precedes(g, id, w.op.id);
      var j :| 0 <= j < |ws| && ws[j] == w;
      assert IsAncestor(ancestors, id, ws[j].op.id);
    }
  }

  lemma MultiValueUnique(g: Graph, ws: seq<Write>, r: Option<Value>, s: Option<Value>)
    requires MultiValueSpec(g, ws, r) && MultiValueSpec(g, ws, s)
    ensures r == s
  {
    hide IsMaximalText, Versions, Sorted, StringList;
    if r.Some? && s.Some? {
      var a :| AreMaximalTexts(g, ws, a) && r.value == Register(Sorted(a));
      var b :| AreMaximalTexts(g, ws, b) && s.value == Register(Sorted(b));
      assert a == b;
    }
  }

  // ---- keyed-lww ----

  /** An approval without a subject still writes one: its author's. */
  predicate WritesRegister(w: Write) { w.Present() || w.FromAuthor(w.rule.field) }

  function AuthorSubject(w: Write, norm: Normalizer): string { norm("email:" + w.op.authorEmail) }

  function RegisterValue(w: Write, norm: Normalizer): Value {
    if !w.Present() then Str(AuthorSubject(w, norm))
    else if w.rule.normalizeValue && w.Raw().Str? then
      var n := norm(w.Raw().s);
      Str(if n == "" && w.FromAuthor(w.rule.field) then AuthorSubject(w, norm) else n)
    else w.Raw()
  }

  function KeyComponent(w: Write, norm: Normalizer, kf: string): string {
    var raw := Field(w.op.body, kf);
    var v := if raw.Str? then raw.s else "";
    var n := if kf in w.rule.normalizeKey then norm(v) else v;
    if n == "" && w.FromAuthor(kf) then AuthorSubject(w, norm) else n
  }

  function RegisterKey(w: Write, norm: Normalizer): seq<string> {
    seq(|w.rule.key|, i requires 0 <= i < |w.rule.key| => KeyComponent(w, norm, w.rule.key[i]))
  }

  predicate Addresses(w: Write, norm: Normalizer, key: seq<string>) {
    WritesRegister(w) && RegisterKey(w, norm) == key
  }

  /** Among the first `n` writes, the last one addressing `key` leaves `v` there. */
  ghost predicate Holds(ws: seq<Write>, n: nat, norm: Normalizer, key: seq<string>, v: Value) {
    exists i :: 0 <= i < n <= |ws| && Addresses(ws[i], norm, key) && v == RegisterValue(ws[i], norm)
             && forall j :: i < j < n ==> !Addresses(ws[j], norm, key)
  }

  ghost predicate AreRegisters(ws: seq<Write>, n: nat, norm: Normalizer, m: map<seq<string>, Value>) {
    && (forall k :: k in m ==> Holds(ws, n, norm, k, m[k]))
    && forall k, i :: 0 <= i < n <= |ws| && Addresses(ws[i], norm, k) ==> k in m
  }

  function Entry(key: seq<string>, v: Value): Value { Object(map["key" := StringList(key), "value" := v]) }

  function EntryList(m: map<seq<string>, Value>, keys: seq<seq<string>>): Value
    requires forall k :: k in keys ==> k in m
  {
    List(seq(|keys|, i requires 0 <= i < |keys| => Entry(keys[i], m[keys[i]])))
  }

  /** The entries in the order of their key tuples. */
  ghost predicate ListsRegisters(v: Value, m: map<seq<string>, Value>) {
    exists keys :: Sorting.SortedListOf(TupleLess, keys, m.Keys) && v == EntryList(m, keys)
  }

  ghost predicate KeyedLwwSpec(ws: seq<Write>, norm: Normalizer, r: Option<Value>) {
    match r
    case None => forall w :: w in ws ==> !WritesRegister(w)
    case Some(v) =>
      && (exists w :: w in ws && WritesRegister(w))
      && exists m :: AreRegisters(ws, |ws|, norm, m) && ListsRegisters(v, m)
  }

  /** Whether the code can compare the register keys written: it walks two keys side by side, so no key may
    * begin with another one.
    */
  ghost predicate Comparable(ws: seq<Write>, norm: Normalizer) {
    forall a, b :: a in ws && b in ws && WritesRegister(a) && WritesRegister(b) && RegisterKey(a, norm) <= RegisterKey(b, norm) ==>
      RegisterKey(a, norm) == RegisterKey(b, norm)
  }

  lemma HoldsStep(ws: seq<Write>, n: nat, norm: Normalizer, k: seq<string>, v: Value)
    requires n < |ws|
    ensures Addresses(ws[n], norm, k) ==> Holds(ws, n + 1, norm, k, RegisterValue(ws[n], norm))
    ensures !Addresses(ws[n], norm, k) && Holds(ws, n, norm, k, v) ==> Holds(ws, n + 1, norm, k, v)
  {
    hide Addresses, RegisterValue;
    if !Addresses(ws[n], norm, k) && Holds(ws, n, norm, k, v) {
      var i :| 0 <= i < n && Addresses(ws[i], norm, k) && v == RegisterValue(ws[i], norm)
            && forall j :: i < j < n ==> !Addresses(ws[j], norm, k);
      assert forall j :: i < j < n + 1 ==> !Addresses(ws[j], norm, k);
    }
  }

  lemma RegisterStep(ws: seq<Write>, norm: Normalizer, m: map<seq<string>, Value>, n: nat)
    requires n < |ws| && AreRegisters(ws, n, norm, m)
    ensures WritesRegister(ws[n]) ==> AreRegisters(ws, n + 1, norm, m[RegisterKey(ws[n], norm) := RegisterValue(ws[n], norm)])
    ensures !WritesRegister(ws[n]) ==> AreRegisters(ws, n + 1, norm, m)
  {
    hide RegisterKey, RegisterValue, WritesRegister, Holds;
    var m' := if WritesRegister(ws[n]) then m[RegisterKey(ws[n], norm) := RegisterValue(ws[n], norm)] else m;
    forall k | k in m' ensures Holds(ws, n + 1, norm, k, m'[k]) {
      HoldsStep(ws, n, norm, k, m'[k]);
    }
  }

  method CollectRegisters(ws: seq<Write>, norm: Normalizer) returns (m: map<seq<string>, Value>, hasKeyed: bool)
    ensures AreRegisters(ws, |ws|, norm, m)
    ensures hasKeyed <==> exists w :: w in ws && WritesRegister(w)
  {
    m, hasKeyed := map[], false;
    hide Holds, WritesRegister, RegisterKey, RegisterValue;
    for i := 0 to |ws|
      invariant AreRegisters(ws, i, norm, m)
      invariant hasKeyed <==> exists k :: 0 <= k < i && WritesRegister(ws[k])
    {
      hide AreRegisters;
      RegisterStep(ws, norm, m, i);
      if WritesRegister(ws[i]) {
        hasKeyed := true;
        m := m[RegisterKey(ws[i], norm) := RegisterValue(ws[i], norm)];
      }
    }
  }

  lemma RegistersSortable(ws: seq<Write>, norm: Normalizer, m: map<seq<string>, Value>)
    requires AreRegisters(ws, |ws|, norm, m) && Comparable(ws, norm)
    ensures Sorting.StrictTotal(TupleLess, m.Keys)
  {
    forall k | k in m ensures exists w :: w in ws && Addresses(w, norm, k) {
      assert Holds(ws, |ws|, norm, k, m[k]);
    }
    hide AreRegisters, WritesRegister, RegisterKey;
    forall a, b | a in m && b in m && a <= b ensures a == b {
      var v :| v in ws && Addresses(v, norm, a);
      var w :| w in ws && Addresses(w, norm, b);
    }
    TupleStrictTotal(m.Keys);
  }

  method ReduceKeyedLww(ws: seq<Write>, norm: Normalizer) returns (r: Option<Value>)
    requires Comparable(ws, norm)
    ensures KeyedLwwSpec(ws, norm, r)
  {
    hide WritesRegister, AreRegisters, Comparable, Entry;
    var m, hasKeyed := CollectRegisters(ws, norm);
    if !hasKeyed {
      return None;
    }
    RegistersSortable(ws, norm, m);
    var keys := Sorting.SortedKeys(TupleLess, m.Keys);
    assert ListsRegisters(EntryList(m, keys), m);
    return Some(EntryList(m, keys));
  }

  lemma HoldsUnique(ws: seq<Write>, norm: Normalizer, key: seq<string>, v: Value, u: Value)
    requires Holds(ws, |ws|, norm, key, v) && Holds(ws, |ws|, norm, key, u)
    ensures v == u
  {
    hide Addresses, RegisterValue;
  }

  lemma RegistersUnique(ws: seq<Write>, norm: Normalizer, m: map<seq<string>, Value>, n: map<seq<string>, Value>)
    requires AreRegisters(ws, |ws|, norm, m) && AreRegisters(ws, |ws|, norm, n)
    ensures m == n
  {
    hide RegisterValue, RegisterKey, WritesRegister;
    forall k ensures k in m <==> k in n {
      if k in m { assert Holds(ws, |ws|, norm, k, m[k]); }
      if k in n { assert Holds(ws, |ws|, norm, k, n[k]); }
    }
    hide Holds;
    forall k | k in m ensures m[k] == n[k] {
      HoldsUnique(ws, norm, k, m[k], n[k]);
    }
  }

  lemma KeyedLwwUnique(ws: seq<Write>, norm: Normalizer, r: Option<Value>, s: Option<Value>)
    requires KeyedLwwSpec(ws, norm, r) && KeyedLwwSpec(ws, norm, s) && Comparable(ws, norm)
    ensures r == s
  {
    hide WritesRegister, AreRegisters, Comparable, Entry;
    if r.Some? && s.Some? {
      var m :| AreRegisters(ws, |ws|, norm, m) && ListsRegisters(r.value, m);
      var n :| AreRegisters(ws, |ws|, norm, n) && ListsRegisters(s.value, n);
      RegistersUnique(ws, norm, m, n);
      RegistersSortable(ws, norm, m);
      var a :| Sorting.SortedListOf(TupleLess, a, m.Keys) && r.value == EntryList(m, a);
      var b :| Sorting.SortedListOf(TupleLess, b, m.Keys) && s.value == EntryList(m, b);
      Sorting.SortedListUnique(TupleLess, a, b, m.Keys);
    }
  }

  // ---- The arms that read the ops unordered ----

  ghost predicate SameWrites(a: seq<Write>, b: seq<Write>) {
    forall w :: w in a <==> w in b
  }

  lemma ObservedRemoveUnordered(g: Graph, a: seq<Write>, b: seq<Write>, norm: Normalizer, r: Option<Value>)
    requires SameWrites(a, b) && ObservedRemoveSpec(g, a, norm, r)
    ensures ObservedRemoveSpec(g, b, norm, r)
  {
    hide Adds, Removes, Precedes, WritesSide, StringList, Sorted;
    forall x ensures InObservedSet(g, a, norm, x) <==> InObservedSet(g, b, norm, x) {
      forall id: Id ensures Survives(g, a, norm, x, id) <==> Survives(g, b, norm, x, id) {}
      hide Survives;
    }
    hide InObservedSet;
    if r.Some? {
      var items :| IsObservedSet(g, a, norm, items) && r.value == StringList(Sorted(items));
      assert IsObservedSet(g, b, norm, items);
    }
  }

  lemma TombstoneUnordered(g: Graph, a: seq<Write>, b: seq<Write>, r: Option<Value>)
    requires SameWrites(a, b) && TombstoneSpec(g, a, r)
    ensures TombstoneSpec(g, b, r)
  {
    hide IsDelete, IsUndelete, Precedes;
    forall d: Id ensures Cleared(g, a, d) <==> Cleared(g, b, d) {}
    hide Cleared;
  }
}
