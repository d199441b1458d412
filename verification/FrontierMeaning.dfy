/** What an op appended on the frontier does to a fold, read off its body. */
module FrontierMeaning {
  import opened CausalGraph
  import opened Options
  import opened FoldRules
  import Strategies
  import opened Fold
  import opened Frontier
  import opened OpBodies
  import opened FoldMeaning
  import opened FoldSequence
  import Strings

  /** By the rule at `j` the op carries a value for the key, and by no later rule. */
  predicate LastCarriedBy(op: MergeOp, rules: seq<FieldRule>, t: string, j: nat) {
    && j < |rules| && CarriedBy(op, rules[j], t)
    && forall k :: j < k < |rules| ==> !CarriedBy(op, rules[k], t)
  }

  predicate CarriedBy(op: MergeOp, r: FieldRule, t: string) { Feeds(r, t) && Governs(r, op) && r.field in op.body && op.body[r.field] != Null }

  lemma {:induction false} OrderWithTop(s: OpSet, objectID: string, op: MergeOp, rules: seq<FieldRule>,
                                        norm: Strategies.Normalizer, before: FoldResult)
    returns (order: seq<Id>)
    requires OnFrontier(s, objectID, op) && IsFold(s, objectID, rules, norm, before)
    ensures OrderOf(s, objectID, order) && OrderOf(Appended(s, op), objectID, order + [op.id])
  {
    hide OnFrontier, OrderOf, Quarantined, IsState;
    order :| OrderOf(s, objectID, order) && (forall id :: id in order ==> id in s)
          && before.unknownOps == Quarantined(s, rules, order) && IsState(s, objectID, rules, norm, order, before.state);
    AppendedComesLast(s, objectID, op, order);
  }

  lemma {:induction false} StillKeyed(s: OpSet, op: MergeOp)
    requires WellKeyed(s)
    ensures WellKeyed(Appended(s, op))
  {}

  lemma {:induction false} TopCarriesLast(s: OpSet, objectID: string, op: MergeOp, rules: seq<FieldRule>, t: string, order: seq<Id>, j: nat)
    requires op.objectID == objectID && Counts(op, rules) && LastCarriedBy(op, rules, t, j)
    ensures LastToCarry(Appended(s, op), objectID, rules, t, order + [op.id], |order|, j)
  {
    hide Counts, Governs, Feeds;
    var longer := order + [op.id];
    assert longer[|order|] == op.id && Appended(s, op)[op.id] == op;
    forall k, m ensures CarriesAt(Appended(s, op), objectID, rules, t, longer, k, m) ==> !Sooner(|order|, j, k, m) {
      if j < m < |rules| { assert !CarriedBy(op, rules[m], t); }
    }
  }

  /** A last-writer-wins key takes the last value the op carries, whatever its clock says and whatever stood there. */
  lemma {:induction false} LwwOnTop(s: OpSet, objectID: string, op: MergeOp, rules: seq<FieldRule>, norm: Strategies.Normalizer,
                                    before: FoldResult, after: FoldResult,
                                    t: string, j: nat)
    requires OnFrontier(s, objectID, op) && WellKeyed(s) && op.objectID == objectID
    requires IsFold(s, objectID, rules, norm, before) && IsFold(Appended(s, op), objectID, rules, norm, after)
    requires AllUse(rules, t, Lww) && Counts(op, rules) && LastCarriedBy(op, rules, t, j)
    ensures var v := op.body[rules[j].field];
            At(after.state, t) == Some(if v.Str? && rules[j].normalizeValue then Str(norm(v.s)) else v)
  {
    TopIsStored(s, op);
    hide *;
    var order := OrderWithTop(s, objectID, op, rules, norm, before);
    StillKeyed(s, op);
    TopCarriesLast(s, objectID, op, rules, t, order, j);
    assert (order + [op.id])[|order|] == op.id;
    LwwMeans(Appended(s, op), objectID, rules, norm, after, t, order + [op.id], |order|, j);
  }

  lemma {:induction false} TopIsStored(s: OpSet, op: MergeOp)
    ensures op.id in Appended(s, op) && Appended(s, op)[op.id] == op
  {}

  /** The op writes this text to the key and no other. */
  ghost predicate OnlyText(op: MergeOp, rules: seq<FieldRule>, t: string, x: string) {
    && (exists r :: r in rules && Feeds(r, t) && Governs(r, op) && r.field in op.body && op.body[r.field] == Str(x))
    && forall r, y :: r in rules && Feeds(r, t) && Governs(r, op) && r.field in op.body && op.body[r.field] == Str(y) ==> y == x
  }

  /** Nobody has seen the op on top, and it has seen everything. */
  lemma {:induction false} TopSawAll(s: OpSet, objectID: string, op: MergeOp, order: seq<Id>)
    requires OnFrontier(s, objectID, op) && OrderOf(s, objectID, order)
    ensures forall v :: v in s && s[v].objectID == objectID ==> Saw(Appended(s, op), objectID, op.id, v)
    ensures forall v :: v in Appended(s, op) && Appended(s, op)[v].objectID == objectID ==> !Saw(Appended(s, op), objectID, v, op.id)
  {
    OrderInside(s, objectID, order);
    AllBelow(s, objectID, op, order);
    hide OnFrontier, OrderOf, DagOf, Precedes, Saw;
    forall v | v in s && s[v].objectID == objectID ensures Saw(Appended(s, op), objectID, op.id, v) {
      assert v in order;
      SawMeans(Appended(s, op), objectID, op.id, v);
    }
    forall v | v in Appended(s, op) && Appended(s, op)[v].objectID == objectID ensures !Saw(Appended(s, op), objectID, v, op.id) {
      assert v in order + [op.id];
      SawMeans(Appended(s, op), objectID, v, op.id);
    }
  }

  lemma {:induction false} OnlyTextStands(s: OpSet, objectID: string, op: MergeOp, rules: seq<FieldRule>, t: string, x: string, y: string)
    requires op.id !in s && op.objectID == objectID && Counts(op, rules) && OnlyText(op, rules, t, x)
    requires forall v :: v in s && s[v].objectID == objectID ==> Saw(Appended(s, op), objectID, op.id, v)
    requires forall v :: v in Appended(s, op) && Appended(s, op)[v].objectID == objectID ==> !Saw(Appended(s, op), objectID, v, op.id)
    ensures Stands(Appended(s, op), objectID, rules, t, y) <==> y == x
  {
    hide Counts, Governs, Feeds, Saw;
    var s' := Appended(s, op);
    var r :| r in rules && Feeds(r, t) && Governs(r, op) && r.field in op.body && op.body[r.field] == Str(x);
    assert Says(s', objectID, rules, t, op.id, r);
    assert WritesText(s', objectID, rules, t, op.id, x);
    assert !WrittenOver(s', objectID, rules, t, op.id);
    if id :| WritesText(s', objectID, rules, t, id, y) && !WrittenOver(s', objectID, rules, t, id) {
      assert id == op.id;
    }
  }

  /** The rules that feed a key once the op is on top are those of that key that some op touches. */
  lemma {:induction false} KeyRulesMean(s: OpSet, objectID: string, op: MergeOp, rules: seq<FieldRule>, t: string, r: FieldRule)
    ensures r in KeyRules(s, objectID, op, rules, t) <==>
              r in rules && Feeds(r, t) && Touched(Appended(s, op), objectID, rules, t, r)
  {
    RulesForMembers(Appended(s, op), Members(Appended(s, op), objectID), rules, rules, t, r);
    hide Relevant, Members, RulesFor, Touched, Feeds;
    if r in rules && Feeds(r, t) { TouchedMeans(Appended(s, op), objectID, rules, t, r); }
  }

  /** A conflicted register collapses to the one text the op carries. */
  lemma {:induction false} MultiValueOnTop(s: OpSet, objectID: string, op: MergeOp, rules: seq<FieldRule>,
                                           norm: Strategies.Normalizer, before: FoldResult, after: FoldResult,
                                           t: string, x: string)
    requires OnFrontier(s, objectID, op) && WellKeyed(s) && op.objectID == objectID
    requires IsFold(s, objectID, rules, norm, before) && IsFold(Appended(s, op), objectID, rules, norm, after)
    requires AllUse(rules, t, MultiValue) && Counts(op, rules) && OnlyText(op, rules, t, x)
    ensures At(after.state, t) == Some(Str(x))
  {
    NotStored(s, objectID, op);
    hide *;
    var order := OrderWithTop(s, objectID, op, rules, norm, before);
    StillKeyed(s, op);
    TopSawAll(s, objectID, op, order);
    forall y ensures Stands(Appended(s, op), objectID, rules, t, y) <==> y == x { OnlyTextStands(s, objectID, op, rules, t, x, y); }
    MultiValueMeans(Appended(s, op), objectID, rules, norm, after, t);
    SomeStands(Appended(s, op), objectID, rules, t, x);
    OneText(after.state, t, x);
  }

  lemma {:induction false} SomeStands(s: OpSet, objectID: string, rules: seq<FieldRule>, t: string, x: string)
    requires Stands(s, objectID, rules, t, x)
    ensures AnyText(s, objectID, rules, t)
  {
    hide WritesText, WrittenOver;
  }

  lemma {:induction false} OneText(state: State, t: string, x: string)
    requires t in state && (state[t].Str? ==> x == state[t].s)
    requires !state[t].Str? ==> SortedTexts(state[t]) && |state[t].items| != 1 && forall y :: y == x <==> Str(y) in state[t].items
    ensures At(state, t) == Some(Str(x))
  {
    if !state[t].Str? {
      var items := state[t].items;
      assert Str(x) in items;
      assert |items| > 1 && items[0] in items && items[1] in items;
      assert items[0] == Str(x) && items[1] == Str(x);
      Strings.LessIrreflexive(x);
      assert false;
    }
  }

  /** The rows of an object's ops, as they are listed, are the rows the frontier query reads. */
  lemma {:induction false} RowsOfList(ops: seq<MergeOp>, objectID: string)
    requires DistinctOps(ops) && forall op :: op in ops ==> op.objectID == objectID
    ensures RowsOf(seq(|ops|, i requires 0 <= i < |ops| => Row(ops[i].id, ops[i].parents)), OpSetOf(ops), objectID)
  {
    OpSetMeans(ops);
    hide OpSetOf, DistinctOps;
    var rows := seq(|ops|, i requires 0 <= i < |ops| => Row(ops[i].id, ops[i].parents));
    forall id | id in Members(OpSetOf(ops), objectID) ensures exists r :: r in rows && r.opID == id {
      var i :| 0 <= i < |ops| && ops[i].id == id;
      assert rows[i] in rows;
    }
    forall r | r in rows ensures r.opID in Members(OpSetOf(ops), objectID) && r.parents == OpSetOf(ops)[r.opID].parents {
      var i :| 0 <= i < |rows| && rows[i] == r;
      assert ops[i] in ops;
    }
  }
}
