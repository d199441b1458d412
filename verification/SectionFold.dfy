/** The typed fold of a section, and what editing or moving a section from its frontier does to it. */
module SectionFold {
  import opened CausalGraph
  import EngineOrder
  import opened EngineReach
  import opened Options
  import opened FoldRules
  import opened Strings
  import opened Fold
  import opened Frontier
  import opened OrderedOps

  /** A body is unset, settled, or several concurrent texts side by side. */
  datatype Text = Unset | Settled(text: string) | Conflicted(texts: seq<string>)

  datatype Section = Section(documentId: string, position: string, title: string, body: Text, deleted: bool, unknownOps: seq<UnknownOp>)

  const SECTION_RULES := [
    Rule("create", "document_id", CreateOnce),
    Rule("create", "position", Lww),
    Rule("create", "title", Lww),
    Rule("create", "body", MultiValue),
    Rule("edit", "body", MultiValue),
    Rule("move", "position", Lww),
    Rule("update", "title", Lww),
    Rule("update", "position", Lww),
    Rule("delete", "deleted", Tombstone)
  ]

  const OP_TYPES := {"create", "edit", "move", "update", "delete"}

  /** Ops of another type or version, with a value a rule cannot consume, or of an unknown kind are set aside. */
  predicate Accepted(op: MergeOp) {
    && op.objectType == "section" && op.opVersion == 1
    && !Uninterpretable(op, SECTION_RULES)
    && op.opType in OP_TYPES
  }

  /** What an accepted op of one of `kinds` says under `field`. */
  function Says(op: MergeOp, kinds: set<string>, field: string): Option<string> {
    if Accepted(op) && op.opType in kinds && field in op.body && op.body[field].Str? then Some(op.body[field].s) else None
  }

  function DocumentId(op: MergeOp): Option<string> { Says(op, {"create"}, "document_id") }

  function Position(op: MergeOp): Option<string> { Says(op, {"create", "move", "update"}, "position") }

  function Title(op: MergeOp): Option<string> { Says(op, {"create", "update"}, "title") }

  function Body(op: MergeOp): Option<string> { Says(op, {"create", "edit"}, "body") }

  predicate SilentBefore(ops: seq<MergeOp>, f: Reading, i: int) {
    forall j :: 0 <= j < |ops| && j < i ==> f(ops[j]).None? || f(ops[j]) == Some("")
  }

  /** The first thing said that is not empty. */
  predicate FirstNonEmpty(ops: seq<MergeOp>, f: Reading, r: string) {
    if forall i :: 0 <= i < |ops| ==> f(ops[i]).None? || f(ops[i]) == Some("") then r == ""
    else
      r != "" && exists i :: 0 <= i < |ops| && f(ops[i]) == Some(r) && SilentBefore(ops, f, i)
  }

  predicate Deleted(ops: seq<MergeOp>) {
    exists i :: 0 <= i < |ops| && Accepted(ops[i]) && ops[i].opType == "delete"
  }

  /** A body written after seeing this one. */
  ghost predicate Overwritten(g: Graph, ops: seq<MergeOp>, id: Id) {
    exists j :: 0 <= j < |ops| && Body(ops[j]).Some? && Precedes(g, id, ops[j].id)
  }

  ghost predicate Current(g: Graph, ops: seq<MergeOp>, text: string) {
    exists i :: 0 <= i < |ops| && Body(ops[i]) == Some(text) && !Overwritten(g, ops, ops[i].id)
  }

  ghost predicate AreCurrent(g: Graph, ops: seq<MergeOp>, texts: set<string>) {
    forall x :: x in texts <==> Current(g, ops, x)
  }

  function TextOf(texts: seq<string>): Text {
    if texts == [] then Unset else if |texts| == 1 then Settled(texts[0]) else Conflicted(texts)
  }

  /** The body holds exactly the texts nobody has written over, each once, sorted. */
  ghost predicate IsBody(g: Graph, ops: seq<MergeOp>, body: Text) {
    exists texts: set<string> :: AreCurrent(g, ops, texts) && body == TextOf(Sorted(texts))
  }

  ghost predicate IsSection(g: Graph, ops: seq<MergeOp>, s: Section) {
    && FirstNonEmpty(ops, DocumentId, s.documentId)
    && Latest(ops, Position, s.position) && Latest(ops, Title, s.title)
    && IsBody(g, ops, s.body)
    && s.deleted == Deleted(ops) && s.unknownOps == SetAside(ops, Accepted)
  }

  // ---- The fold ----

  datatype BodyWrite = BodyWrite(opId: Id, val: string)

  /** The state after the first ops, bodies still to be settled. */
  ghost predicate Collected(ops: seq<MergeOp>, n: nat, s: Section, writes: seq<BodyWrite>) {
    && n <= |ops|
    && FirstNonEmpty(ops[..n], DocumentId, s.documentId)
    && Latest(ops[..n], Position, s.position) && Latest(ops[..n], Title, s.title)
    && s.body == Unset && s.deleted == Deleted(ops[..n]) && s.unknownOps == SetAside(ops[..n], Accepted)
    && Written(ops, n, writes)
  }

  ghost predicate Written(ops: seq<MergeOp>, n: nat, writes: seq<BodyWrite>) {
    && n <= |ops|
    && forall w :: w in writes <==> exists i :: 0 <= i < n && ops[i].id == w.opId && Body(ops[i]) == Some(w.val)
  }

  lemma {:induction false} FirstStep(ops: seq<MergeOp>, n: nat, f: Reading, r: string)
    requires n < |ops| && FirstNonEmpty(ops[..n], f, r)
    ensures FirstNonEmpty(ops[..n + 1], f, if r == "" && f(ops[n]).Some? then f(ops[n]).value else r)
  {
    var init, longer := ops[..n], ops[..n + 1];
    assert forall i :: 0 <= i < n ==> longer[i] == init[i];
    assert longer[n] == ops[n];
    if r != "" {
      var i :| 0 <= i < |init| && f(init[i]) == Some(r) && SilentBefore(init, f, i);
      assert f(longer[i]) == Some(r) && SilentBefore(longer, f, i);
    }
  }

  lemma {:induction false} SimpleSteps(ops: seq<MergeOp>, n: nat)
    requires n < |ops|
    ensures Deleted(ops[..n + 1]) == (Deleted(ops[..n]) || (Accepted(ops[n]) && ops[n].opType == "delete"))
    ensures SetAside(ops[..n + 1], Accepted) == SetAside(ops[..n], Accepted) + (if Accepted(ops[n]) then [] else [Record(ops[n])])
  {
    SetAsideStep(ops, n, Accepted);
    hide Accepted, SetAside;
    var init, longer := ops[..n], ops[..n + 1];
    assert longer[..n] == init && longer[n] == ops[n];
    assert forall i :: 0 <= i < n ==> longer[i] == init[i];
  }

  lemma {:induction false} WrittenStep(ops: seq<MergeOp>, n: nat, writes: seq<BodyWrite>)
    requires n < |ops| && Written(ops, n, writes)
    ensures Written(ops, n + 1, writes + (if Body(ops[n]).Some? then [BodyWrite(ops[n].id, Body(ops[n]).value)] else []))
  {
    hide Body;
  }

  /** What one op changes, arm by arm. */
  method Apply(op: MergeOp, s: Section, writes: seq<BodyWrite>) returns (s': Section, writes': seq<BodyWrite>)
    ensures s' == Section(
                    if s.documentId == "" && DocumentId(op).Some? then DocumentId(op).value else s.documentId,
                    if Position(op).Some? then Position(op).value else s.position,
                    if Title(op).Some? then Title(op).value else s.title,
                    s.body,
                    s.deleted || (Accepted(op) && op.opType == "delete"),
                    s.unknownOps + if Accepted(op) then [] else [Record(op)])
    ensures writes' == writes + if Body(op).Some? then [BodyWrite(op.id, Body(op).value)] else []
  {
    s', writes' := s, writes;
    if op.objectType != "section" || op.opVersion != 1 {
      s' := s'.(unknownOps := s.unknownOps + [Record(op)]);
      return;
    }
    if Uninterpretable(op, SECTION_RULES) {
      s' := s'.(unknownOps := s.unknownOps + [Record(op)]);
      return;
    }
    hide Uninterpretable;
    match op.opType {
      case "create" =>
        if "document_id" in op.body && op.body["document_id"].Str? && s'.documentId == "" {
          s' := s'.(documentId := op.body["document_id"].s);
        }
        if "position" in op.body && op.body["position"].Str? { s' := s'.(position := op.body["position"].s); }
        if "title" in op.body && op.body["title"].Str? { s' := s'.(title := op.body["title"].s); }
        if "body" in op.body && op.body["body"].Str? { writes' := writes' + [BodyWrite(op.id, op.body["body"].s)]; }
      case "edit" =>
        if "body" in op.body && op.body["body"].Str? { writes' := writes' + [BodyWrite(op.id, op.body["body"].s)]; }
      case "move" =>
        if "position" in op.body && op.body["position"].Str? { s' := s'.(position := op.body["position"].s); }
      case "update" =>
        if "position" in op.body && op.body["position"].Str? { s' := s'.(position := op.body["position"].s); }
        if "title" in op.body && op.body["title"].Str? { s' := s'.(title := op.body["title"].s); }
      case "delete" =>
        s' := s'.(deleted := true);
      case _ =>
        s' := s'.(unknownOps := s.unknownOps + [Record(op)]);
    }
  }

  lemma {:induction false} SupersededIsOverwritten(g: Graph, reach: Reach, ops: seq<MergeOp>, writes: seq<BodyWrite>, i: nat)
    requires Tells(g, reach, ops) && Written(ops, |ops|, writes) && i < |writes|
    ensures (exists j :: 0 <= j < |writes| && i != j && IsAncestor(reach, writes[i].opId, writes[j].opId))
       <==> Overwritten(g, ops, writes[i].opId)
  {
    hide Precedes, IsAncestor, Body;
    assert writes[i] in writes;
    var m :| 0 <= m < |ops| && ops[m].id == writes[i].opId && Body(ops[m]) == Some(writes[i].val);
    if j :| 0 <= j < |writes| && i != j && IsAncestor(reach, writes[i].opId, writes[j].opId) {
      assert writes[j] in writes;
      var k :| 0 <= k < |ops| && ops[k].id == writes[j].opId && Body(ops[k]) == Some(writes[j].val);
      assert Precedes(g, ops[m].id, ops[k].id);
    }
    if Overwritten(g, ops, writes[i].opId) {
      var k :| 0 <= k < |ops| && Body(ops[k]).Some? && Precedes(g, writes[i].opId, ops[k].id);
      var w := BodyWrite(ops[k].id, Body(ops[k]).value);
      assert w in writes;
      var j :| 0 <= j < |writes| && writes[j] == w;
      assert IsAncestor(reach, ops[m].id, ops[k].id) && !Precedes(g, ops[m].id, ops[m].id);
    }
  }

  method Settle(ghost g: Graph, reach: Reach, ghost ops: seq<MergeOp>, writes: seq<BodyWrite>) returns (body: Text)
    requires Tells(g, reach, ops) && Written(ops, |ops|, writes)
    ensures IsBody(g, ops, body)
  {
    hide Tells, Overwritten, Body, Written, IsAncestor;
    var vals: set<string> := {};
    for i := 0 to |writes|
      invariant forall x :: x in vals <==> exists k :: 0 <= k < i && writes[k].val == x && !Overwritten(g, ops, writes[k].opId)
    {
      var superseded := exists j :: 0 <= j < |writes| && i != j && IsAncestor(reach, writes[i].opId, writes[j].opId);
      SupersededIsOverwritten(g, reach, ops, writes, i);
      if !superseded { vals := vals + {writes[i].val}; }
    }
    CurrentTexts(g, ops, writes, vals);
    var sorted := SortStrings(vals);
    body := TextOf(sorted);
  }

  lemma {:induction false} CurrentTexts(g: Graph, ops: seq<MergeOp>, writes: seq<BodyWrite>, vals: set<string>)
    requires Written(ops, |ops|, writes)
    requires forall x :: x in vals <==> exists k :: 0 <= k < |writes| && writes[k].val == x && !Overwritten(g, ops, writes[k].opId)
    ensures AreCurrent(g, ops, vals)
  {
    hide Body, Overwritten;
    forall x ensures x in vals <==> Current(g, ops, x) {
      if x in vals {
        var k :| 0 <= k < |writes| && writes[k].val == x && !Overwritten(g, ops, writes[k].opId);
        assert writes[k] in writes;
      }
      if Current(g, ops, x) {
        var i :| 0 <= i < |ops| && Body(ops[i]) == Some(x) && !Overwritten(g, ops, ops[i].id);
        var w := BodyWrite(ops[i].id, x);
        assert w in writes;
        var k :| 0 <= k < |writes| && writes[k] == w;
      }
    }
  }

  /** Folds the ops of one section, in total order. */
  method FoldOrdered(ghost g: Graph, reach: Reach, ops: seq<MergeOp>) returns (s: Section)
    requires Tells(g, reach, ops)
    ensures IsSection(g, ops, s)
  {
    s := Section("", "", "", Unset, false, []);
    var writes: seq<BodyWrite> := [];
    for i := 0 to |ops|
      invariant Collected(ops, i, s, writes)
    {
      hide DocumentId, Position, Title, Body, Accepted, Deleted, SetAside, Written, Latest, FirstNonEmpty;
      FirstStep(ops, i, DocumentId, s.documentId);
      LatestStep(ops, i, Position, s.position);
      LatestStep(ops, i, Title, s.title);
      SimpleSteps(ops, i);
      WrittenStep(ops, i, writes);
      s, writes := Apply(ops[i], s, writes);
    }
    assert ops[..|ops|] == ops;
    hide Latest, FirstNonEmpty, Written, Tells, IsBody;
    var body := Settle(g, reach, ops, writes);
    s := s.(body := body);
  }

  // ---- What the fold says ----

  lemma {:induction false} FirstUnique(ops: seq<MergeOp>, f: Reading, a: string, b: string)
    requires FirstNonEmpty(ops, f, a) && FirstNonEmpty(ops, f, b)
    ensures a == b
  {
    if a != "" && b != "" {
      var i :| 0 <= i < |ops| && f(ops[i]) == Some(a) && SilentBefore(ops, f, i);
      var j :| 0 <= j < |ops| && f(ops[j]) == Some(b) && SilentBefore(ops, f, j);
      assert i >= j;
    }
  }

  lemma {:induction false} BodyUnique(g: Graph, ops: seq<MergeOp>, a: Text, b: Text)
    requires IsBody(g, ops, a) && IsBody(g, ops, b)
    ensures a == b
  {
    hide Current;
    var x :| AreCurrent(g, ops, x) && a == TextOf(Sorted(x));
    var y :| AreCurrent(g, ops, y) && b == TextOf(Sorted(y));
    assert x == y;
  }

  lemma {:induction false} OneSection(g: Graph, ops: seq<MergeOp>, a: Section, b: Section)
    requires IsSection(g, ops, a) && IsSection(g, ops, b)
    ensures a == b
  {
    hide Latest, FirstNonEmpty, IsBody;
    FirstUnique(ops, DocumentId, a.documentId, b.documentId);
    OneLatest(ops, Position, a.position, b.position);
    OneLatest(ops, Title, a.title, b.title);
    BodyUnique(g, ops, a.body, b.body);
  }

  lemma {:induction false} LastBody(ops: seq<MergeOp>, i: nat) returns (last: nat)
    requires i < |ops| && Body(ops[i]).Some?
    ensures i <= last < |ops| && Body(ops[last]).Some? && SilentAfter(ops, Body, last)
  {
    hide Body;
    last := i;
    var k := i + 1;
    while k < |ops|
      invariant i <= last < k <= |ops| && Body(ops[last]).Some? && forall j :: last < j < k ==> Body(ops[j]).None?
    {
      if Body(ops[k]).Some? { last := k; }
      k := k + 1;
    }
  }

  /** A body once written stays: the last write in total order is overwritten by none. */
  lemma {:induction false} BodyStays(g: Graph, s: OpSet, order: seq<Id>, i: nat, body: Text)
    requires (forall id :: id in order ==> id in s && s[id].id == id) && LinearExtension(g, order)
    requires i < |order| && Body(s[order[i]]).Some? && IsBody(g, OpsOf(s, order), body)
    ensures body != Unset
  {
    var ops := OpsOf(s, order);
    forall j | 0 <= j < |ops| ensures ops[j].id == order[j] { assert order[j] in order; }
    var last := LastBody(ops, i);
    LastNotOverwritten(g, order, ops, last);
    hide *;
    NotUnset(g, ops, last, body);
  }

  lemma {:induction false} LastNotOverwritten(g: Graph, order: seq<Id>, ops: seq<MergeOp>, last: nat)
    requires |ops| == |order| && (forall j :: 0 <= j < |ops| ==> ops[j].id == order[j]) && LinearExtension(g, order)
    requires last < |ops| && SilentAfter(ops, Body, last)
    ensures !Overwritten(g, ops, ops[last].id)
  {
    hide Body, Precedes, LinearExtension;
    forall j | 0 <= j < |ops| && Body(ops[j]).Some? ensures !Precedes(g, ops[last].id, ops[j].id) {
      LaterNotBefore(g, order, last, j);
    }
  }

  lemma {:induction false} NotUnset(g: Graph, ops: seq<MergeOp>, last: nat, body: Text)
    requires last < |ops| && Body(ops[last]).Some? && !Overwritten(g, ops, ops[last].id) && IsBody(g, ops, body)
    ensures body != Unset
  {
    hide Body, Overwritten;
    var text := Body(ops[last]).value;
    assert Current(g, ops, text);
    var texts :| AreCurrent(g, ops, texts) && body == TextOf(Sorted(texts));
    assert text in texts && text in Sorted(texts);
  }

  /** A section's ops in total order, and the state they fold to. */
  ghost predicate SectionOf(s: OpSet, objectID: string, order: seq<Id>, x: Section) {
    && OrderOf(s, objectID, order) && (forall id :: id in order ==> id in s && s[id].id == id)
    && IsSection(DagOf(s, objectID), OpsOf(s, order), x)
  }

  lemma {:induction false} SilentAppend(ops: seq<MergeOp>, op: MergeOp, r: string)
    requires Accepted(op) && DocumentId(op).None? && op.opType != "delete" && FirstNonEmpty(ops, DocumentId, r)
    ensures FirstNonEmpty(ops + [op], DocumentId, r)
    ensures Deleted(ops + [op]) == Deleted(ops) && SetAside(ops + [op], Accepted) == SetAside(ops, Accepted)
  {
    hide Accepted, DocumentId, FirstNonEmpty;
    var longer := ops + [op];
    assert longer[..|ops|] == ops && longer[..|ops| + 1] == longer;
    FirstStep(longer, |ops|, DocumentId, r);
    SimpleSteps(longer, |ops|);
  }

  /** The appended op's text overwrites every other; if it has none, the texts stay as they were. */
  lemma {:induction false} TextsAfterAppend(g: Graph, g': Graph, ops: seq<MergeOp>, op: MergeOp, x: string)
    requires OnTopOf(g, g', ops, op)
    ensures Body(op).Some? ==> (Current(g', ops + [op], x) <==> x == Body(op).value)
    ensures Body(op).None? ==> (Current(g', ops + [op], x) <==> Current(g, ops, x))
  {
    hide Precedes, Body;
    var longer := ops + [op];
    assert longer[|ops|] == op && forall i :: 0 <= i < |ops| ==> longer[i] == ops[i];
    forall i | 0 <= i < |ops|
      ensures Body(op).Some? ==> Overwritten(g', longer, ops[i].id)
      ensures Body(op).None? ==> (Overwritten(g', longer, ops[i].id) <==> Overwritten(g, ops, ops[i].id))
    {
      if Overwritten(g, ops, ops[i].id) {
        var j :| 0 <= j < |ops| && Body(ops[j]).Some? && Precedes(g, ops[i].id, ops[j].id);
        assert Body(longer[j]).Some? && Precedes(g', longer[i].id, longer[j].id);
      }
    }
    assert !Overwritten(g', longer, op.id);
    hide Overwritten;
    if Current(g, ops, x) {
      var i :| 0 <= i < |ops| && Body(ops[i]) == Some(x) && !Overwritten(g, ops, ops[i].id);
      assert Body(longer[i]) == Some(x);
    }
  }

  lemma {:induction false} BodyOnTop(g: Graph, g': Graph, ops: seq<MergeOp>, op: MergeOp, body: Text)
    requires OnTopOf(g, g', ops, op) && IsBody(g, ops, body)
    ensures IsBody(g', ops + [op], if Body(op).Some? then Settled(Body(op).value) else body)
  {
    hide OnTopOf, Body, Current;
    forall x
      ensures Body(op).Some? ==> (Current(g', ops + [op], x) <==> x == Body(op).value)
      ensures Body(op).None? ==> (Current(g', ops + [op], x) <==> Current(g, ops, x))
    {
      TextsAfterAppend(g, g', ops, op, x);
    }
    if Body(op).Some? {
      var texts := {Body(op).value};
      Singleton(Body(op).value);
      assert AreCurrent(g', ops + [op], texts);
    } else {
      var texts :| AreCurrent(g, ops, texts) && body == TextOf(Sorted(texts));
      assert AreCurrent(g', ops + [op], texts);
    }
  }

  /** What an accepted edit or move reads as. */
  lemma {:induction false} EditOrMove(op: MergeOp)
    requires op.opType == "edit" || op.opType == "move"
    ensures DocumentId(op).None? && Title(op).None? && op.opType != "delete"
    ensures op.opType == "edit" ==> Position(op).None?
    ensures op.opType == "move" ==> Body(op).None?
  {
    hide Accepted;
  }

  lemma {:induction false} SectionOnto(g: Graph, g': Graph, ops: seq<MergeOp>, op: MergeOp, x: Section)
    requires OnTopOf(g, g', ops, op) && IsSection(g, ops, x) && Accepted(op)
    requires DocumentId(op).None? && Title(op).None? && op.opType != "delete"
    ensures IsSection(g', ops + [op], x.(body := if Body(op).Some? then Settled(Body(op).value) else x.body,
                                         position := if Position(op).Some? then Position(op).value else x.position))
  {
    hide OnTopOf, IsBody, Latest, FirstNonEmpty, Accepted, DocumentId, Title, Body, Position;
    BodyOnTop(g, g', ops, op, x.body);
    LatestAppend(ops, op, Position, x.position);
    LatestAppend(ops, op, Title, x.title);
    SilentAppend(ops, op, x.documentId);
  }

  /** An edit from the frontier settles the body to exactly its text, whatever conflicted before and whatever
    * its clock says, and leaves the rest of the section alone; a move from the frontier changes the position
    * and nothing else.
    */
  lemma {:induction false} EditOrMoveOnTop(s: OpSet, objectID: string, op: MergeOp, order: seq<Id>, x: Section, y: Section)
    requires OnFrontier(s, objectID, op) && SectionOf(s, objectID, order, x)
    requires Accepted(op) && SectionOf(Appended(s, op), objectID, order + [op.id], y)
    ensures op.opType == "edit" && Body(op).Some? ==> y == x.(body := Settled(Body(op).value))
    ensures op.opType == "move" && Position(op).Some? ==> y == x.(position := Position(op).value)
  {
    if op.opType == "edit" || op.opType == "move" {
      NotStored(s, objectID, op);
      OpsAfterAppend(s, op, order);
      AppendOnTop(s, objectID, op, order);
      hide OnFrontier, OrderOf, OnTopOf, DagOf, IsSection, Body, DocumentId, Position, Title, Accepted;
      EditOrMove(op);
      var g, g', ops := DagOf(s, objectID), DagOf(Appended(s, op), objectID), OpsOf(s, order);
      SectionOnto(g, g', ops, op, x);
      OneSection(g', ops + [op], y, x.(body := if Body(op).Some? then Settled(Body(op).value) else x.body,
                                       position := if Position(op).Some? then Position(op).value else x.position));
    }
  }

  // ---- From the ops as they are listed ----

  datatype Outcome = Folded(value: Section) | Failed(failure: EngineOrder.Failure)

  const EMPTY := Section("", "", "", Unset, false, [])

  /** What a section's ops fold to, however they are listed. */
  ghost predicate IsFolded(ops: seq<MergeOp>, r: Outcome) {
    if ops == [] then r == Folded(EMPTY)
    else
      && (r.Folded? <==> Orderable(ops))
      && match r
         case Folded(x) => exists order :: SectionOf(OpSetOf(ops), ops[0].objectID, order, x)
         case Failed(failure) => EngineOrder.IsOutcome(OrderOps(ops), EngineOrder.Failed(failure))
  }

  /** Folds a section's ops, listed in any order: it fails for the first foreign or repeated op, or on a cycle. */
  method FoldSection(ops: seq<MergeOp>) returns (r: Outcome)
    ensures IsFolded(ops, r)
  {
    if |ops| == 0 {
      return Folded(EMPTY);
    }
    hide *;
    var prepared := OrderAndReach(ops);
    if prepared.Unordered? {
      r := Failed(prepared.failure);
    } else {
      ghost var order :| ReadyAs(ops, order, prepared.ops, prepared.reach);
      ghost var g := DagOf(OpSetOf(ops), ops[0].objectID);
      ReadyTells(ops, order, prepared.ops, prepared.reach);
      var x := FoldOrdered(g, prepared.reach, prepared.ops);
      FoldedAs(ops, order, prepared.ops, prepared.reach, x);
      r := Folded(x);
    }
    Concludes(ops, r);
  }

  lemma {:induction false} Concludes(ops: seq<MergeOp>, r: Outcome)
    requires ops != [] && (r.Folded? <==> Orderable(ops))
    requires r.Folded? ==> exists order :: SectionOf(OpSetOf(ops), ops[0].objectID, order, r.value)
    requires r.Failed? ==> EngineOrder.IsOutcome(OrderOps(ops), EngineOrder.Failed(r.failure))
    ensures IsFolded(ops, r)
  {
    hide SectionOf, Orderable, EngineOrder.IsOutcome;
  }

  lemma {:induction false} FoldedAs(ops: seq<MergeOp>, order: seq<Id>, ordered: seq<MergeOp>, reach: Reach, x: Section)
    requires ops != [] && ReadyAs(ops, order, ordered, reach) && IsSection(DagOf(OpSetOf(ops), ops[0].objectID), ordered, x)
    ensures exists order :: SectionOf(OpSetOf(ops), ops[0].objectID, order, x)
  {
    hide OpSetOf, DagOf, OrderOf, IsSection, Tells;
    assert SectionOf(OpSetOf(ops), ops[0].objectID, order, x);
  }

  /** Replicas that list the same ops in different orders fold the same section, or both fail. */
  lemma {:induction false} SectionConverges(a: seq<MergeOp>, b: seq<MergeOp>, ra: Outcome, rb: Outcome)
    requires DistinctOps(a) && DistinctOps(b) && multiset(a) == multiset(b)
    requires IsFolded(a, ra) && IsFolded(b, rb)
    ensures ra.Folded? <==> rb.Folded?
    ensures ra.Folded? ==> ra == rb
  {
    SameEmptiness(a, b);
    hide OpSetOf, DagOf, DistinctOps, Orderable, SectionOf, EngineOrder.IsOutcome;
    if Orderable(a) { SameVerdict(a, b); }
    if Orderable(b) { SameVerdict(b, a); }
    if a != [] && Orderable(a) {
      var x :| SectionOf(OpSetOf(a), a[0].objectID, x, ra.value);
      var y :| SectionOf(OpSetOf(b), b[0].objectID, y, rb.value);
      OneSectionOf(OpSetOf(a), a[0].objectID, x, y, ra.value, rb.value);
    }
  }

  lemma {:induction false} OneSectionOf(s: OpSet, objectID: string, x: seq<Id>, y: seq<Id>, a: Section, b: Section)
    requires SectionOf(s, objectID, x, a) && SectionOf(s, objectID, y, b)
    ensures a == b
  {
    hide OrderOf, IsSection, DagOf;
    OrderUnique(s, objectID, x, y);
    OneSection(DagOf(s, objectID), OpsOf(s, x), a, b);
  }
}
