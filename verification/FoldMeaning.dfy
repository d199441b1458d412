/** What the fold leaves under a state key, read off the bodies of the ops: for each of the nine strategies, which
  * values, items or verdicts a reader finds there.
  */
module FoldMeaning {
  import opened CausalGraph
  import opened Options
  import opened FoldRules
  import opened Strategies
  import opened Fold
  import opened OpBodies
  import FoldLaws
  import Strings
  import Sorting

  predicate Feeds(r: FieldRule, t: string) { (if r.target == "" then r.field else r.target) == t }

  /** Op `id` of the object counts, and rule `r` makes it a write to key `t`. */
  predicate Says(s: OpSet, objectID: string, rules: seq<FieldRule>, t: string, id: Id, r: FieldRule) {
    && id in s && s[id].objectID == objectID && Counts(s[id], rules)
    && r in rules && Feeds(r, t) && Governs(r, s[id])
  }

  /** Every rule that feeds key `t` has this strategy. */
  predicate AllUse(rules: seq<FieldRule>, t: string, strategy: Strategy) {
    forall r :: r in rules && Feeds(r, t) ==> r.strategy == strategy
  }

  // ---- The writes an arm gets ----

  lemma {:induction false} RulesForMembers(s: OpSet, members: set<Id>, rules: seq<FieldRule>, all: seq<FieldRule>, t: string, r: FieldRule)
    ensures r in RulesFor(s, members, rules, all, t) <==> r in rules && Feeds(r, t) && Relevant(s, members, all, r)
  {
    hide Relevant;
    if rules == [] {
    } else {
      var n := |rules| - 1;
      assert rules == rules[..n] + [rules[n]];
      RulesForMembers(s, members, rules[..n], all, t, r);
    }
  }

  /** A write the arm gets comes from an op that counts; and it gets every write that has something to say. */
  ghost predicate AreWrites(s: OpSet, objectID: string, rules: seq<FieldRule>, t: string, ws: seq<Write>) {
    && (forall w :: w in ws ==> w.op.id in s && s[w.op.id] == w.op && Says(s, objectID, rules, t, w.op.id, w.rule))
    && forall id, r :: Says(s, objectID, rules, t, id, r) && HasWrite(s[id], r) ==> s[id].id == id && Write(s[id], r) in ws
  }

  lemma {:induction false} WritesMean(s: OpSet, objectID: string, rules: seq<FieldRule>, t: string, order: seq<Id>)
    requires WellKeyed(s) && (forall id :: id in order <==> id in Members(s, objectID)) && (forall id :: id in order ==> id in s)
    ensures AreWrites(s, objectID, rules, t, Writes(Reduced(s, rules, order), s, RulesFor(s, Members(s, objectID), rules, rules, t)))
  {
    var frs := RulesFor(s, Members(s, objectID), rules, rules, t);
    var ws := Writes(Reduced(s, rules, order), s, frs);
    forall op ensures Reducible(op, rules) <==> Counts(op, rules) { CountsMeans(op, rules); }
    forall op, r ensures OpMatchesRule(op, r) <==> Governs(r, op) { GovernsMeans(r, op); }
    forall r ensures r in frs <==> r in rules && Feeds(r, t) && Relevant(s, Members(s, objectID), rules, r) {
      RulesForMembers(s, Members(s, objectID), rules, rules, t, r);
    }
    hide Reducible, Counts, OpMatchesRule, Governs, HasWrite, RulesFor, Feeds;
    forall id, r | Says(s, objectID, rules, t, id, r) && HasWrite(s[id], r) ensures s[id].id == id && Write(s[id], r) in ws {
      assert id in Members(s, objectID) && id in Reduced(s, rules, order);
      assert Relevant(s, Members(s, objectID), rules, r);
    }
  }

  /** The arm of key `t` and what it gets, under the strategy all its rules use. */
  lemma {:induction false} ArmOf(s: OpSet, objectID: string, rules: seq<FieldRule>, norm: Normalizer, res: FoldResult, t: string, strategy: Strategy)
    returns (primary: FieldRule, ws: seq<Write>)
    requires IsFold(s, objectID, rules, norm, res) && WellKeyed(s) && AllUse(rules, t, strategy)
    ensures AreWrites(s, objectID, rules, t, ws) && (ws != [] ==> primary in rules && Feeds(primary, t))
    ensures primary.strategy == strategy && ArmSpec(DagOf(s, objectID), primary, ws, norm, At(res.state, t))
  {
    hide IsFold, WellKeyed, AllUse, ArmSpec, Feeds;
    var order := FoldLaws.FoldOrder(s, objectID, rules, norm, res);
    primary, ws := ArmIn(s, objectID, rules, norm, order, res.state, t, strategy);
  }

  lemma {:induction false} ArmIn(s: OpSet, objectID: string, rules: seq<FieldRule>, norm: Normalizer, order: seq<Id>, state: State, t: string, strategy: Strategy)
    returns (primary: FieldRule, ws: seq<Write>)
    requires OrderOf(s, objectID, order) && (forall id :: id in order ==> id in s) && WellKeyed(s) && AllUse(rules, t, strategy)
    requires IsState(s, objectID, rules, norm, order, state)
    ensures AreWrites(s, objectID, rules, t, ws) && (ws != [] ==> primary in rules && Feeds(primary, t))
    ensures primary.strategy == strategy && ArmSpec(DagOf(s, objectID), primary, ws, norm, At(state, t))
    ensures ws == Writes(Reduced(s, rules, order), s, RulesFor(s, Members(s, objectID), rules, rules, t))
  {
    var frs := RulesFor(s, Members(s, objectID), rules, rules, t);
    OrderInside(s, objectID, order);
    WritesMean(s, objectID, rules, t, order);
    ws := Writes(Reduced(s, rules, order), s, frs);
    hide OrderOf, WellKeyed, ArmSpec, AreWrites, Writes, Reduced, RulesFor, DagOf;
    assert KeySpec(s, objectID, rules, norm, order, t, At(state, t));
    if frs != [] {
      primary := frs[0];
      assert primary in frs && primary.TargetKey() == t;
    } else {
      primary := FieldRule("", 0, "", t, strategy, [], [], false, false, []);
      NothingFromNoRules(s, Reduced(s, rules, order));
      NothingFromNothing(DagOf(s, objectID), primary, norm);
    }
  }

  lemma {:induction false} NothingFromNoRules(s: OpSet, order: seq<Id>)
    requires forall id :: id in order ==> id in s
    ensures Writes(order, s, []) == []
  {
    if order == [] {
    } else {
      NothingFromNoRules(s, order[..|order| - 1]);
    }
  }

  lemma {:induction false} NothingFromNothing(g: Graph, primary: FieldRule, norm: Normalizer)
    ensures ArmSpec(g, primary, [], norm, None)
  {
    if primary.strategy == Append { assert !exists w: Write :: w in [] && w.Present(); }
  }

  // ---- Sets ----

  /** A list of texts, sorted, none twice. */
  predicate SortedTexts(v: Value) {
    && v.List? && (forall i :: 0 <= i < |v.items| ==> v.items[i].Str?)
    && forall i, j :: 0 <= i < j < |v.items| ==> Strings.Less(v.items[i].s, v.items[j].s)
  }

  lemma {:induction false} ListedTexts(texts: set<string>)
    ensures var v := StringList(Strings.Sorted(texts)); SortedTexts(v) && forall x :: Str(x) in v.items <==> x in texts
  {
    var list := Strings.Sorted(texts);
    var v := StringList(list);
    hide Strings.Less;
    forall x ensures Str(x) in v.items <==> x in list {
      if x in list {
        var i :| 0 <= i < |list| && list[i] == x;
        assert v.items[i] == Str(x);
      }
    }
  }

  function Cleansed(r: FieldRule, norm: Normalizer, y: string): string { if r.normalizeItems then norm(y) else y }

  /** Some op carries `x` under the key, as a text or in a list. */
  ghost predicate Carried(s: OpSet, objectID: string, rules: seq<FieldRule>, norm: Normalizer, t: string, x: string) {
    exists id, r, y :: Says(s, objectID, rules, t, id, r) && Mentioned(s[id].body, r.field, y) && x == Cleansed(r, norm, y)
  }

  /** set-union: the key is there when some op writes it, and lists every non-empty item any op carries. */
  lemma {:induction false} UnionMeans(s: OpSet, objectID: string, rules: seq<FieldRule>, norm: Normalizer, res: FoldResult, t: string)
    requires IsFold(s, objectID, rules, norm, res) && WellKeyed(s) && AllUse(rules, t, SetUnion)
    ensures t in res.state <==> exists id, r :: Says(s, objectID, rules, t, id, r) && r.field in s[id].body
    ensures t in res.state ==> SortedTexts(res.state[t])
    ensures t in res.state ==> forall x :: Str(x) in res.state[t].items <==> x != "" && Carried(s, objectID, rules, norm, t, x)
  {
    var primary, ws := ArmOf(s, objectID, rules, norm, res, t, SetUnion);
    WrittenFields(s, objectID, rules, t, ws);
    UnionList(ws, norm, At(res.state, t));
    hide IsFold, WellKeyed, AllUse, AreWrites, SetUnionSpec, InUnion, Carried, SortedTexts, DagOf, Says;
    forall x ensures InUnion(ws, norm, x) <==> x != "" && Carried(s, objectID, rules, norm, t, x) {
      UnionItem(s, objectID, rules, norm, t, ws, x);
    }
  }

  ghost predicate InUnion(ws: seq<Write>, norm: Normalizer, x: string) { exists w :: w in ws && x in UnionOf(w, norm) }

  lemma {:induction false} UnionList(ws: seq<Write>, norm: Normalizer, r: Option<Value>)
    requires SetUnionSpec(ws, norm, r)
    ensures r.Some? <==> exists w :: w in ws && w.Present()
    ensures r.Some? ==> SortedTexts(r.value) && forall x :: Str(x) in r.value.items <==> InUnion(ws, norm, x)
  {
    hide UnionOf, StringList, SortedTexts;
    if r.Some? {
      var items :| IsUnion(ws, norm, items) && r.value == StringList(Strings.Sorted(items));
      ListedTexts(items);
    }
  }

  lemma {:induction false} WrittenFields(s: OpSet, objectID: string, rules: seq<FieldRule>, t: string, ws: seq<Write>)
    requires AreWrites(s, objectID, rules, t, ws)
    ensures (exists w :: w in ws && w.Present()) <==> exists id, r :: Says(s, objectID, rules, t, id, r) && r.field in s[id].body
  {
    hide Counts, Governs, Feeds;
    if w :| w in ws && w.Present() {
      assert Says(s, objectID, rules, t, w.op.id, w.rule) && w.rule.field in s[w.op.id].body;
    }
    if id, r :| Says(s, objectID, rules, t, id, r) && r.field in s[id].body {
      assert HasWrite(s[id], r) && Write(s[id], r).Present();
    }
  }

  lemma {:induction false} UnionItem(s: OpSet, objectID: string, rules: seq<FieldRule>, norm: Normalizer, t: string, ws: seq<Write>, x: string)
    requires AreWrites(s, objectID, rules, t, ws)
    ensures InUnion(ws, norm, x) <==> x != "" && Carried(s, objectID, rules, norm, t, x)
  {
    hide Counts, Governs, Feeds;
    if InUnion(ws, norm, x) {
      var w :| w in ws && x in UnionOf(w, norm);
      var y :| y in ItemsOf(w.Raw()) && NormalizeItem(w.rule, norm, y) == x;
      FieldItems(w.op.body, w.rule.field, y);
      assert Says(s, objectID, rules, t, w.op.id, w.rule) && Mentioned(s[w.op.id].body, w.rule.field, y) && x == Cleansed(w.rule, norm, y);
    }
    if x != "" && Carried(s, objectID, rules, norm, t, x) {
      var id, r, y :| Says(s, objectID, rules, t, id, r) && Mentioned(s[id].body, r.field, y) && x == Cleansed(r, norm, y);
      FieldItems(s[id].body, r.field, y);
      var w := Write(s[id], r);
      assert HasWrite(s[id], r) && w in ws;
      assert y in ItemsOf(w.Raw()) && x == NormalizeItem(r, norm, y);
      assert x in UnionOf(w, norm);
    }
  }

  // ---- Sets with removes ----

  /** Op `id` adds `x` to the key. */
  ghost predicate AddsTo(s: OpSet, objectID: string, rules: seq<FieldRule>, norm: Normalizer, t: string, id: Id, x: string) {
    exists r, y :: Says(s, objectID, rules, t, id, r) && AddsItem(s[id], r.field, y) && x == Cleansed(r, norm, y)
  }

  ghost predicate RemovesFrom(s: OpSet, objectID: string, rules: seq<FieldRule>, norm: Normalizer, t: string, id: Id, x: string) {
    exists r, y :: Says(s, objectID, rules, t, id, r) && RemovesItem(s[id], r.field, y) && x == Cleansed(r, norm, y)
  }

  /** Some op adds it, and the author of no remove of it had seen that op. */
  ghost predicate StandsIn(s: OpSet, objectID: string, rules: seq<FieldRule>, norm: Normalizer, t: string, x: string) {
    exists a :: AddsTo(s, objectID, rules, norm, t, a, x) && !RemovedSince(s, objectID, rules, norm, t, a, x)
  }

  ghost predicate RemovedSince(s: OpSet, objectID: string, rules: seq<FieldRule>, norm: Normalizer, t: string, a: Id, x: string) {
    exists b :: RemovesFrom(s, objectID, rules, norm, t, b, x) && Saw(s, objectID, b, a)
  }

  ghost predicate SidesWritten(s: OpSet, objectID: string, rules: seq<FieldRule>, t: string) {
    exists id, r, y :: Says(s, objectID, rules, t, id, r) && (AddsItem(s[id], r.field, y) || RemovesItem(s[id], r.field, y))
  }

  /** set-observed-remove: the key is there when some op adds or removes something, and lists every non-empty item that
    * some op adds and no op that had seen that one removes.
    */
  lemma {:induction false} ObservedMeans(s: OpSet, objectID: string, rules: seq<FieldRule>, norm: Normalizer, res: FoldResult, t: string)
    requires IsFold(s, objectID, rules, norm, res) && WellKeyed(s) && AllUse(rules, t, ObservedRemove)
    ensures t in res.state <==> SidesWritten(s, objectID, rules, t)
    ensures t in res.state ==> SortedTexts(res.state[t])
    ensures t in res.state ==> forall x :: Str(x) in res.state[t].items <==> x != "" && StandsIn(s, objectID, rules, norm, t, x)
  {
    var primary, ws := ArmOf(s, objectID, rules, norm, res, t, ObservedRemove);
    SidesWrittenMeans(s, objectID, rules, t, ws);
    ObservedList(DagOf(s, objectID), ws, norm, At(res.state, t));
    hide IsFold, WellKeyed, AllUse, WritesSide, AreWrites, SidesWritten, ObservedRemoveSpec, InObservedSet, StandsIn, SortedTexts, DagOf;
    forall x ensures InObservedSet(DagOf(s, objectID), ws, norm, x) <==> x != "" && StandsIn(s, objectID, rules, norm, t, x) {
      ObservedItemMeans(s, objectID, rules, norm, t, ws, x);
    }
  }

  lemma {:induction false} ObservedList(g: Graph, ws: seq<Write>, norm: Normalizer, r: Option<Value>)
    requires ObservedRemoveSpec(g, ws, norm, r)
    ensures r.Some? <==> exists w :: w in ws && WritesSide(w)
    ensures r.Some? ==> SortedTexts(r.value) && forall x :: Str(x) in r.value.items <==> InObservedSet(g, ws, norm, x)
  {
    hide InObservedSet, WritesSide, StringList, SortedTexts;
    if r.Some? {
      var items :| IsObservedSet(g, ws, norm, items) && r.value == StringList(Strings.Sorted(items));
      ListedTexts(items);
    }
  }

  lemma {:induction false} AddMeans(s: OpSet, objectID: string, rules: seq<FieldRule>, norm: Normalizer, t: string, ws: seq<Write>, id: Id, x: string)
    requires AreWrites(s, objectID, rules, t, ws) && AllUse(rules, t, ObservedRemove)
    ensures (exists w :: w in ws && w.op.id == id && x in Adds(w, norm)) <==> x != "" && AddsTo(s, objectID, rules, norm, t, id, x)
    ensures (exists w :: w in ws && w.op.id == id && x in Removes(w, norm)) <==> x != "" && RemovesFrom(s, objectID, rules, norm, t, id, x)
  {
    hide Counts, Governs, AddsItem, RemovesItem, SidesOf;
    if w :| w in ws && w.op.id == id && x in Adds(w, norm) {
      var y :| y in SidesOf(w.op, w.rule).0 && NormalizeItem(w.rule, norm, y) == x;
      SidesMean(w.op, w.rule, y);
    }
    if w :| w in ws && w.op.id == id && x in Removes(w, norm) {
      var y :| y in SidesOf(w.op, w.rule).1 && NormalizeItem(w.rule, norm, y) == x;
      SidesMean(w.op, w.rule, y);
    }
    if x != "" && AddsTo(s, objectID, rules, norm, t, id, x) {
      var r, y :| Says(s, objectID, rules, t, id, r) && AddsItem(s[id], r.field, y) && x == Cleansed(r, norm, y);
      SidesMean(s[id], r, y);
      SideIsWrite(s[id], r, y);
      assert x in Adds(Write(s[id], r), norm);
    }
    if x != "" && RemovesFrom(s, objectID, rules, norm, t, id, x) {
      var r, y :| Says(s, objectID, rules, t, id, r) && RemovesItem(s[id], r.field, y) && x == Cleansed(r, norm, y);
      SidesMean(s[id], r, y);
      SideIsWrite(s[id], r, y);
      assert x in Removes(Write(s[id], r), norm);
    }
  }

  lemma {:induction false} SideIsWrite(op: MergeOp, r: FieldRule, y: string)
    requires r.strategy == ObservedRemove && (AddsItem(op, r.field, y) || RemovesItem(op, r.field, y))
    ensures HasWrite(op, r)
  {}

  lemma {:induction false} SidesWrittenMeans(s: OpSet, objectID: string, rules: seq<FieldRule>, t: string, ws: seq<Write>)
    requires AreWrites(s, objectID, rules, t, ws) && AllUse(rules, t, ObservedRemove)
    ensures (exists w :: w in ws && WritesSide(w)) <==> SidesWritten(s, objectID, rules, t)
  {
    hide Counts, Governs, AddsItem, RemovesItem, SidesOf;
    if w :| w in ws && WritesSide(w) {
      var sides := SidesOf(w.op, w.rule);
      var y := if sides.0 != [] then sides.0[0] else sides.1[0];
      SidesMean(w.op, w.rule, y);
      assert Says(s, objectID, rules, t, w.op.id, w.rule);
    }
    if SidesWritten(s, objectID, rules, t) {
      var id, r, y :| Says(s, objectID, rules, t, id, r) && (AddsItem(s[id], r.field, y) || RemovesItem(s[id], r.field, y));
      SidesMean(s[id], r, y);
      SideIsWrite(s[id], r, y);
      assert WritesSide(Write(s[id], r));
    }
  }

  lemma {:induction false} ObservedItemMeans(s: OpSet, objectID: string, rules: seq<FieldRule>, norm: Normalizer, t: string, ws: seq<Write>, x: string)
    requires AreWrites(s, objectID, rules, t, ws) && AllUse(rules, t, ObservedRemove)
    ensures InObservedSet(DagOf(s, objectID), ws, norm, x) <==> x != "" && StandsIn(s, objectID, rules, norm, t, x)
  {
    var g := DagOf(s, objectID);
    forall id
      ensures (exists w :: w in ws && w.op.id == id && x in Adds(w, norm)) <==> x != "" && AddsTo(s, objectID, rules, norm, t, id, x)
      ensures (exists w :: w in ws && w.op.id == id && x in Removes(w, norm)) <==> x != "" && RemovesFrom(s, objectID, rules, norm, t, id, x)
    {
      AddMeans(s, objectID, rules, norm, t, ws, id, x);
    }
    forall a, b ensures Precedes(g, a, b) <==> Saw(s, objectID, b, a) { SawMeans(s, objectID, b, a); }
    hide AreWrites, AllUse, Adds, Removes, AddsTo, RemovesFrom, Saw, Precedes, DagOf;
    forall a ensures x != "" ==> (Survives(g, ws, norm, x, a) <==> !RemovedSince(s, objectID, rules, norm, t, a, x)) {}
    hide RemovedSince, Survives;
  }

  // ---- Tombstones ----

  predicate Deletes(op: MergeOp, field: string) { op.opType == "delete" || (field in op.body && op.body[field] == Bool(true)) }

  predicate Undeletes(op: MergeOp, field: string) {
    !Deletes(op, field) && (op.opType == "undelete" || (field in op.body && op.body[field] == Bool(false)))
  }

  ghost predicate DeletedBy(s: OpSet, objectID: string, rules: seq<FieldRule>, t: string, d: Id) {
    exists r :: Says(s, objectID, rules, t, d, r) && Deletes(s[d], r.field)
  }

  ghost predicate UndeletedBy(s: OpSet, objectID: string, rules: seq<FieldRule>, t: string, u: Id) {
    exists r :: Says(s, objectID, rules, t, u, r) && Undeletes(s[u], r.field)
  }

  ghost predicate UndeletedSince(s: OpSet, objectID: string, rules: seq<FieldRule>, t: string, d: Id) {
    exists u :: UndeletedBy(s, objectID, rules, t, u) && Saw(s, objectID, u, d)
  }

  /** tombstone: the key is there when some op deletes or undeletes, and true exactly when the author of no undelete had
    * seen some delete.
    */
  lemma {:induction false} TombstoneMeans(s: OpSet, objectID: string, rules: seq<FieldRule>, norm: Normalizer, res: FoldResult, t: string)
    requires IsFold(s, objectID, rules, norm, res) && WellKeyed(s) && AllUse(rules, t, Tombstone)
    ensures t in res.state <==> exists id :: DeletedBy(s, objectID, rules, t, id) || UndeletedBy(s, objectID, rules, t, id)
    ensures t in res.state ==>
              res.state[t] == Bool(exists d :: DeletedBy(s, objectID, rules, t, d) && !UndeletedSince(s, objectID, rules, t, d))
  {
    var primary, ws := ArmOf(s, objectID, rules, norm, res, t, Tombstone);
    hide IsFold, WellKeyed, AllUse, AreWrites, TombstoneSpec, DeletedBy, UndeletedBy, UndeletedSince, DagOf;
    TombstoneFrom(s, objectID, rules, t, ws, At(res.state, t));
  }

  lemma {:induction false} TombstoneFrom(s: OpSet, objectID: string, rules: seq<FieldRule>, t: string, ws: seq<Write>, r: Option<Value>)
    requires AreWrites(s, objectID, rules, t, ws) && TombstoneSpec(DagOf(s, objectID), ws, r)
    ensures r.Some? <==> exists id :: DeletedBy(s, objectID, rules, t, id) || UndeletedBy(s, objectID, rules, t, id)
    ensures r.Some? ==> r.value == Bool(exists d :: DeletedBy(s, objectID, rules, t, d) && !UndeletedSince(s, objectID, rules, t, d))
  {
    hide AreWrites, IsDelete, IsUndelete, DeletedBy, UndeletedBy, UndeletedSince, DagOf, Cleared, DeleteIn, UndeleteIn;
    forall id ensures (DeleteIn(ws, id) <==> DeletedBy(s, objectID, rules, t, id)) && (UndeleteIn(ws, id) <==> UndeletedBy(s, objectID, rules, t, id)) {
      MarksMean(s, objectID, rules, t, ws, id);
    }
    forall d ensures Cleared(DagOf(s, objectID), ws, d) <==> UndeletedSince(s, objectID, rules, t, d) {
      ClearedSince(s, objectID, rules, t, ws, d);
    }
    MarksIn(ws);
    MarksGive(DagOf(s, objectID), ws, r);
  }

  ghost predicate DeleteIn(ws: seq<Write>, id: Id) { exists w :: w in ws && w.op.id == id && IsDelete(w) }

  ghost predicate UndeleteIn(ws: seq<Write>, id: Id) { exists w :: w in ws && w.op.id == id && IsUndelete(w) }

  lemma {:induction false} MarksIn(ws: seq<Write>)
    ensures (exists w :: w in ws && (IsDelete(w) || IsUndelete(w))) <==> exists id :: DeleteIn(ws, id) || UndeleteIn(ws, id)
  {
    hide IsDelete, IsUndelete;
    if w :| w in ws && (IsDelete(w) || IsUndelete(w)) { assert DeleteIn(ws, w.op.id) || UndeleteIn(ws, w.op.id); }
  }

  lemma {:induction false} MarksGive(g: Graph, ws: seq<Write>, r: Option<Value>)
    requires TombstoneSpec(g, ws, r)
    ensures r.Some? <==> exists w :: w in ws && (IsDelete(w) || IsUndelete(w))
    ensures r.Some? ==> r.value == Bool(exists d :: DeleteIn(ws, d) && !Cleared(g, ws, d))
  {
    hide IsDelete, IsUndelete, Cleared;
    if d :| DeleteIn(ws, d) && !Cleared(g, ws, d) {
      var w :| w in ws && w.op.id == d && IsDelete(w);
    }
  }

  lemma {:induction false} ClearedSince(s: OpSet, objectID: string, rules: seq<FieldRule>, t: string, ws: seq<Write>, d: Id)
    requires AreWrites(s, objectID, rules, t, ws)
    ensures Cleared(DagOf(s, objectID), ws, d) <==> UndeletedSince(s, objectID, rules, t, d)
  {
    forall u ensures UndeleteIn(ws, u) <==> UndeletedBy(s, objectID, rules, t, u) { MarksMean(s, objectID, rules, t, ws, u); }
    forall u ensures Precedes(DagOf(s, objectID), d, u) <==> Saw(s, objectID, u, d) { SawMeans(s, objectID, u, d); }
    hide AreWrites, IsUndelete, UndeletedBy, Precedes, Saw, DagOf;
    if u :| UndeletedBy(s, objectID, rules, t, u) && Saw(s, objectID, u, d) {
      var w :| w in ws && w.op.id == u && IsUndelete(w);
    }
    if w :| w in ws && IsUndelete(w) && Precedes(DagOf(s, objectID), d, w.op.id) {
      assert UndeleteIn(ws, w.op.id);
    }
  }

  lemma {:induction false} MarksMean(s: OpSet, objectID: string, rules: seq<FieldRule>, t: string, ws: seq<Write>, id: Id)
    requires AreWrites(s, objectID, rules, t, ws)
    ensures DeleteIn(ws, id) <==> DeletedBy(s, objectID, rules, t, id)
    ensures UndeleteIn(ws, id) <==> UndeletedBy(s, objectID, rules, t, id)
  {
    hide Counts, Governs, Feeds;
    if DeletedBy(s, objectID, rules, t, id) {
      var r :| Says(s, objectID, rules, t, id, r) && Deletes(s[id], r.field);
      assert HasWrite(s[id], r) && IsDelete(Write(s[id], r));
    }
    if UndeletedBy(s, objectID, rules, t, id) {
      var r :| Says(s, objectID, rules, t, id, r) && Undeletes(s[id], r.field);
      assert HasWrite(s[id], r) && IsUndelete(Write(s[id], r));
    }
  }

  // ---- Lattices ----

  /** Some op writes `x`, an element of the lattice, to the key. */
  ghost predicate Names(s: OpSet, objectID: string, rules: seq<FieldRule>, t: string, lattice: seq<string>, x: string) {
    x in lattice && exists id, r :: Says(s, objectID, rules, t, id, r) && r.field in s[id].body && s[id].body[r.field] == Str(x)
  }

  /** Wherever the lattice declares `y`, it declares `x` there or further up. */
  predicate AtLeast(lattice: seq<string>, x: string, y: string) {
    forall j :: 0 <= j < |lattice| && lattice[j] == y ==> exists i :: j <= i < |lattice| && lattice[i] == x
  }

  /** lattice: the key holds the highest element written. */
  lemma {:induction false} LatticeMeans(s: OpSet, objectID: string, rules: seq<FieldRule>, norm: Normalizer, res: FoldResult, t: string, lattice: seq<string>)
    requires IsFold(s, objectID, rules, norm, res) && WellKeyed(s) && AllUse(rules, t, Lattice)
    requires forall r :: r in rules && Feeds(r, t) ==> r.lattice == lattice
    ensures t in res.state <==> exists x :: Names(s, objectID, rules, t, lattice, x)
    ensures t in res.state ==>
              && res.state[t].Str? && Names(s, objectID, rules, t, lattice, res.state[t].s)
              && forall y :: Names(s, objectID, rules, t, lattice, y) ==> AtLeast(lattice, res.state[t].s, y)
  {
    var primary, ws := ArmOf(s, objectID, rules, norm, res, t, Lattice);
    var r := At(res.state, t);
    assert LatticeSpec(ws, lattice, r) by {
      hide IsFold, WellKeyed, AllUse, AreWrites, Feeds, Rank;
      if ws == [] { EmptyLattice(primary.lattice, lattice, r); }
    }
    hide *;
    LatticeFrom(s, objectID, rules, t, ws, lattice, r);
    StateAt(res.state, t);
  }

  lemma {:induction false} StateAt(state: State, t: string)
    ensures At(state, t).Some? <==> t in state
    ensures t in state ==> At(state, t).value == state[t]
  {}

  lemma {:induction false} LatticeFrom(s: OpSet, objectID: string, rules: seq<FieldRule>, t: string, ws: seq<Write>, lattice: seq<string>, r: Option<Value>)
    requires AreWrites(s, objectID, rules, t, ws) && LatticeSpec(ws, lattice, r)
    ensures r.Some? <==> exists x :: Names(s, objectID, rules, t, lattice, x)
    ensures r.Some? ==>
              && r.value.Str? && Names(s, objectID, rules, t, lattice, r.value.s)
              && forall y :: Names(s, objectID, rules, t, lattice, y) ==> AtLeast(lattice, r.value.s, y)
  {
    hide AreWrites, Names, Ranked, AtLeast, NamedIn, LatticeSpec;
    forall x ensures NamedIn(ws, lattice, x) <==> Names(s, objectID, rules, t, lattice, x) { NamesMean(s, objectID, rules, t, ws, lattice, x); }
    TopNamed(ws, lattice, r);
  }

  ghost predicate NamedIn(ws: seq<Write>, lattice: seq<string>, x: string) { exists w :: w in ws && Ranked(w, lattice) && w.Raw() == Str(x) }

  lemma {:induction false} TopNamed(ws: seq<Write>, lattice: seq<string>, r: Option<Value>)
    requires LatticeSpec(ws, lattice, r)
    ensures r.Some? <==> exists x :: NamedIn(ws, lattice, x)
    ensures r.Some? ==> r.value.Str? && NamedIn(ws, lattice, r.value.s) && forall y :: NamedIn(ws, lattice, y) ==> AtLeast(lattice, r.value.s, y)
  {
    hide Rank, AtLeast;
    if r.Some? {
      var top :| top in ws && Ranked(top, lattice) && r.value == top.Raw();
      assert NamedIn(ws, lattice, r.value.s);
      forall y | NamedIn(ws, lattice, y) ensures AtLeast(lattice, r.value.s, y) {
        var w :| w in ws && Ranked(w, lattice) && w.Raw() == Str(y);
        RankMeans(lattice, r.value.s, y);
      }
    }
  }

  lemma {:induction false} EmptyLattice(some: seq<string>, lattice: seq<string>, r: Option<Value>)
    requires LatticeSpec([], some, r)
    ensures LatticeSpec([], lattice, r)
  {}

  lemma {:induction false} NamesMean(s: OpSet, objectID: string, rules: seq<FieldRule>, t: string, ws: seq<Write>, lattice: seq<string>, x: string)
    requires AreWrites(s, objectID, rules, t, ws)
    ensures NamedIn(ws, lattice, x) <==> Names(s, objectID, rules, t, lattice, x)
  {
    hide Counts, Governs, Feeds;
    if Names(s, objectID, rules, t, lattice, x) {
      var id, r :| Says(s, objectID, rules, t, id, r) && r.field in s[id].body && s[id].body[r.field] == Str(x);
      assert HasWrite(s[id], r) && Ranked(Write(s[id], r), lattice);
    }
  }

  /** The rank of an element is the last place that declares it. */
  lemma {:induction false} LastRank(lattice: seq<string>, x: string)
    ensures forall i :: 0 <= i < |lattice| && lattice[i] == x ==> i <= Rank(lattice, x)
  {
    if lattice == [] {
    } else {
      LastRank(lattice[..|lattice| - 1], x);
    }
  }

  lemma {:induction false} RankMeans(lattice: seq<string>, x: string, y: string)
    requires 0 <= Rank(lattice, y) <= Rank(lattice, x)
    ensures AtLeast(lattice, x, y)
  {
    LastRank(lattice, y);
    forall j | 0 <= j < |lattice| && lattice[j] == y ensures exists i :: j <= i < |lattice| && lattice[i] == x {
      assert lattice[Rank(lattice, x)] == x;
    }
  }

  // ---- Registers of concurrent texts ----

  /** Op `id` writes text `x` to the key. */
  ghost predicate WritesText(s: OpSet, objectID: string, rules: seq<FieldRule>, t: string, id: Id, x: string) {
    exists r :: Says(s, objectID, rules, t, id, r) && r.field in s[id].body && s[id].body[r.field] == Str(x)
  }

  ghost predicate AnyText(s: OpSet, objectID: string, rules: seq<FieldRule>, t: string) { exists id, x :: WritesText(s, objectID, rules, t, id, x) }

  /** Some op's author wrote a text after seeing op `id`. */
  ghost predicate WrittenOver(s: OpSet, objectID: string, rules: seq<FieldRule>, t: string, id: Id) {
    exists other, y :: WritesText(s, objectID, rules, t, other, y) && Saw(s, objectID, other, id)
  }

  ghost predicate Stands(s: OpSet, objectID: string, rules: seq<FieldRule>, t: string, x: string) {
    exists id :: WritesText(s, objectID, rules, t, id, x) && !WrittenOver(s, objectID, rules, t, id)
  }

  /** multi-value: the key holds the texts nobody wrote over, one as itself and several as a sorted list. */
  lemma {:induction false} MultiValueMeans(s: OpSet, objectID: string, rules: seq<FieldRule>, norm: Normalizer, res: FoldResult, t: string)
    requires IsFold(s, objectID, rules, norm, res) && WellKeyed(s) && AllUse(rules, t, MultiValue)
    ensures t in res.state <==> AnyText(s, objectID, rules, t)
    ensures t in res.state && res.state[t].Str? ==> forall x :: Stands(s, objectID, rules, t, x) <==> x == res.state[t].s
    ensures t in res.state && !res.state[t].Str? ==>
              && SortedTexts(res.state[t]) && |res.state[t].items| != 1
              && forall x :: Stands(s, objectID, rules, t, x) <==> Str(x) in res.state[t].items
  {
    var primary, ws := ArmOf(s, objectID, rules, norm, res, t, MultiValue);
    var r := At(res.state, t);
    assert MultiValueSpec(DagOf(s, objectID), ws, r) by { hide IsFold, WellKeyed, AllUse, AreWrites, MultiValueSpec, DagOf; }
    hide *;
    StateAt(res.state, t);
    MultiValueFrom(s, objectID, rules, t, ws, r);
  }

  lemma {:induction false} MultiValueFrom(s: OpSet, objectID: string, rules: seq<FieldRule>, t: string, ws: seq<Write>, r: Option<Value>)
    requires AreWrites(s, objectID, rules, t, ws) && MultiValueSpec(DagOf(s, objectID), ws, r)
    ensures r.Some? <==> AnyText(s, objectID, rules, t)
    ensures r.Some? && r.value.Str? ==> forall x :: Stands(s, objectID, rules, t, x) <==> x == r.value.s
    ensures r.Some? && !r.value.Str? ==>
              SortedTexts(r.value) && |r.value.items| != 1 && forall x :: Stands(s, objectID, rules, t, x) <==> Str(x) in r.value.items
  {
    hide *;
    RegisterTexts(DagOf(s, objectID), ws, r);
    SomeText(s, objectID, rules, t, ws);
    forall x ensures IsMaximalText(DagOf(s, objectID), ws, x) <==> Stands(s, objectID, rules, t, x) {
      StandsMeans(s, objectID, rules, t, ws, x);
    }
  }

  ghost predicate TextIn(ws: seq<Write>, id: Id, x: string) { exists w :: w in ws && w.op.id == id && Versions(w) && w.Raw() == Str(x) }

  lemma {:induction false} TextMeans(s: OpSet, objectID: string, rules: seq<FieldRule>, t: string, ws: seq<Write>, id: Id, x: string)
    requires AreWrites(s, objectID, rules, t, ws)
    ensures TextIn(ws, id, x) <==> WritesText(s, objectID, rules, t, id, x)
  {
    hide Counts, Governs, Feeds;
    if WritesText(s, objectID, rules, t, id, x) {
      var r :| Says(s, objectID, rules, t, id, r) && r.field in s[id].body && s[id].body[r.field] == Str(x);
      assert HasWrite(s[id], r) && Versions(Write(s[id], r));
    }
  }

  lemma {:induction false} SomeText(s: OpSet, objectID: string, rules: seq<FieldRule>, t: string, ws: seq<Write>)
    requires AreWrites(s, objectID, rules, t, ws)
    ensures (exists w :: w in ws && Versions(w)) <==> AnyText(s, objectID, rules, t)
  {
    hide AreWrites, WritesText;
    if w :| w in ws && Versions(w) {
      assert TextIn(ws, w.op.id, w.Raw().s);
      TextMeans(s, objectID, rules, t, ws, w.op.id, w.Raw().s);
    }
    if id, x :| WritesText(s, objectID, rules, t, id, x) { TextMeans(s, objectID, rules, t, ws, id, x); }
  }

  lemma {:induction false} StandsMeans(s: OpSet, objectID: string, rules: seq<FieldRule>, t: string, ws: seq<Write>, x: string)
    requires AreWrites(s, objectID, rules, t, ws)
    ensures IsMaximalText(DagOf(s, objectID), ws, x) <==> Stands(s, objectID, rules, t, x)
  {
    hide DagOf, WritesText, AreWrites, Superseded, WrittenOver;
    forall id ensures TextIn(ws, id, x) <==> WritesText(s, objectID, rules, t, id, x) { TextMeans(s, objectID, rules, t, ws, id, x); }
    forall id ensures Superseded(DagOf(s, objectID), ws, id) <==> WrittenOver(s, objectID, rules, t, id) {
      OverMeans(s, objectID, rules, t, ws, id);
    }
    if id :| WritesText(s, objectID, rules, t, id, x) && !WrittenOver(s, objectID, rules, t, id) { assert TextIn(ws, id, x); }
    if w :| w in ws && Versions(w) && w.Raw() == Str(x) && !Superseded(DagOf(s, objectID), ws, w.op.id) { assert TextIn(ws, w.op.id, x); }
  }

  lemma {:induction false} OverMeans(s: OpSet, objectID: string, rules: seq<FieldRule>, t: string, ws: seq<Write>, id: Id)
    requires AreWrites(s, objectID, rules, t, ws)
    ensures Superseded(DagOf(s, objectID), ws, id) <==> WrittenOver(s, objectID, rules, t, id)
  {
    hide DagOf, WritesText, AreWrites, Precedes, Saw;
    if w :| w in ws && Versions(w) && Precedes(DagOf(s, objectID), id, w.op.id) {
      assert TextIn(ws, w.op.id, w.Raw().s);
      TextMeans(s, objectID, rules, t, ws, w.op.id, w.Raw().s);
      SawMeans(s, objectID, w.op.id, id);
    }
    if other, y :| WritesText(s, objectID, rules, t, other, y) && Saw(s, objectID, other, id) {
      TextMeans(s, objectID, rules, t, ws, other, y);
      SawMeans(s, objectID, other, id);
      var w :| w in ws && w.op.id == other && Versions(w) && w.Raw() == Str(y);
    }
  }

  lemma {:induction false} RegisterTexts(g: Graph, ws: seq<Write>, r: Option<Value>)
    requires MultiValueSpec(g, ws, r)
    ensures r.Some? <==> exists w :: w in ws && Versions(w)
    ensures r.Some? && r.value.Str? ==> forall x :: IsMaximalText(g, ws, x) <==> x == r.value.s
    ensures r.Some? && !r.value.Str? ==>
              SortedTexts(r.value) && |r.value.items| != 1 && forall x :: IsMaximalText(g, ws, x) <==> Str(x) in r.value.items
  {
    hide IsMaximalText, Versions, SortedTexts;
    if r.Some? {
      var texts :| AreMaximalTexts(g, ws, texts) && r.value == Register(Strings.Sorted(texts));
      ListedTexts(texts);
      var list := Strings.Sorted(texts);
      if |list| == 1 { assert forall x :: x in texts <==> x == list[0]; }
    }
  }

  // ---- What is set aside ----

  lemma {:induction false} QuarantinedMembers(s: OpSet, rules: seq<FieldRule>, order: seq<Id>, u: UnknownOp)
    requires forall id :: id in order ==> id in s
    ensures u in Quarantined(s, rules, order) <==> exists id :: id in order && !Reducible(s[id], rules) && u == Record(s[id])
  {
    hide Reducible, Record;
    if order == [] {
    } else {
      var n := |order| - 1;
      assert order == order[..n] + [order[n]];
      QuarantinedMembers(s, rules, order[..n], u);
    }
  }

  /** Recorded as unknown are exactly the object's ops that do not count, with their commit, type and version. */
  lemma {:induction false} UnknownMeans(s: OpSet, objectID: string, rules: seq<FieldRule>, norm: Normalizer, res: FoldResult, u: UnknownOp)
    requires IsFold(s, objectID, rules, norm, res)
    ensures u in res.unknownOps <==>
              exists id :: id in s && s[id].objectID == objectID && !Counts(s[id], rules)
                           && u == UnknownOp(s[id].id, s[id].objectType, s[id].opType, s[id].opVersion)
  {
    hide *;
    var order := FoldLaws.FoldOrder(s, objectID, rules, norm, res);
    OrderInside(s, objectID, order);
    QuarantinedMembers(s, rules, order, u);
    MembersAside(s, objectID, rules, order, u);
  }

  lemma {:induction false} MembersAside(s: OpSet, objectID: string, rules: seq<FieldRule>, order: seq<Id>, u: UnknownOp)
    requires (forall id :: id in order <==> id in Members(s, objectID)) && forall id :: id in order ==> id in s
    ensures (exists id :: id in order && !Reducible(s[id], rules) && u == Record(s[id])) <==>
              exists id :: id in s && s[id].objectID == objectID && !Counts(s[id], rules)
                           && u == UnknownOp(s[id].id, s[id].objectType, s[id].opType, s[id].opVersion)
  {
    hide Counts, Reducible;
    if id :| id in order && !Reducible(s[id], rules) && u == Record(s[id]) { CountsMeans(s[id], rules); }
    if id :| id in s && s[id].objectID == objectID && !Counts(s[id], rules)
             && u == UnknownOp(s[id].id, s[id].objectType, s[id].opType, s[id].opVersion) {
      CountsMeans(s[id], rules);
      assert id in order;
    }
  }
}
