/** What a section's ops fold to, read off their types and bodies. */
module SectionMeaning {
  import opened CausalGraph
  import opened Options
  import opened FoldRules
  import opened Fold
  import opened Frontier
  import opened OrderedOps
  import opened TypedReading
  import opened OpBodies
  import opened SectionFold
  import EngineOrder
  import Strings

  /** Absent or not null, as a plain value must be. */
  predicate Given(body: Body, field: string) { field in body ==> body[field] != Null }

  predicate TextOnly(body: Body, field: string) { field in body ==> body[field].Str? }

  /** A section op of the one version there is, of a known type, with values of the right kind. */
  predicate Plain(op: MergeOp) {
    && op.objectType == "section" && op.opVersion == 1
    && match op.opType
       case "create" => Given(op.body, "document_id") && Given(op.body, "position") && Given(op.body, "title") && TextOnly(op.body, "body")
       case "edit" => TextOnly(op.body, "body")
       case "move" => Given(op.body, "position")
       case "update" => Given(op.body, "title") && Given(op.body, "position")
       case "delete" => "deleted" in op.body ==> op.body["deleted"].Bool?
       case _ => false
  }

  /** What a rule asks of an op of this version and type, by strategy. */
  lemma {:induction false} RuleMeans(op: MergeOp, opType: string, field: string, strategy: Strategy)
    requires op.opVersion == 1 && opType != "" && strategy in {Lww, CreateOnce, MultiValue, Tombstone}
    ensures var r := Rule(opType, field, strategy);
            (OpMatchesRule(op, r) ==> RuleAccepts(r, op.body)) <==>
              (op.opType == opType && field in op.body ==>
                 if strategy == MultiValue then op.body[field].Str? else if strategy == Tombstone then op.body[field].Bool? else op.body[field] != Null)
  {}

  predicate Asks(op: MergeOp, i: int) { 0 <= i < |SECTION_RULES| && (OpMatchesRule(op, SECTION_RULES[i]) ==> RuleAccepts(SECTION_RULES[i], op.body)) }

  lemma {:induction false} NineRules(op: MergeOp)
    ensures !Uninterpretable(op, SECTION_RULES) <==>
              && Asks(op, 0) && Asks(op, 1) && Asks(op, 2) && Asks(op, 3) && Asks(op, 4) && Asks(op, 5) && Asks(op, 6) && Asks(op, 7) && Asks(op, 8)
  {
    hide OpMatchesRule, RuleAccepts;
    assert |SECTION_RULES| == 9;
    if Uninterpretable(op, SECTION_RULES) {
      var i :| 0 <= i < |SECTION_RULES| && OpMatchesRule(op, SECTION_RULES[i]) && !RuleAccepts(SECTION_RULES[i], op.body);
      assert !Asks(op, i);
    }
  }

  /** Accepted are exactly the plain ops; the others are set aside. */
  lemma {:induction false} AcceptedMeans(op: MergeOp)
    ensures Accepted(op) <==> Plain(op)
  {
    if op.opVersion == 1 {
      NineRules(op);
      RuleMeans(op, "create", "document_id", CreateOnce);
      RuleMeans(op, "create", "position", Lww);
      RuleMeans(op, "create", "title", Lww);
      RuleMeans(op, "create", "body", MultiValue);
      RuleMeans(op, "edit", "body", MultiValue);
      RuleMeans(op, "move", "position", Lww);
      RuleMeans(op, "update", "title", Lww);
      RuleMeans(op, "update", "position", Lww);
      RuleMeans(op, "delete", "deleted", Tombstone);
      hide OpMatchesRule, RuleAccepts, Uninterpretable;
    }
  }

  /** A plain op of one of these types carries `text` in this field. */
  predicate Wrote(op: MergeOp, types: set<string>, field: string, text: string) {
    Plain(op) && op.opType in types && field in op.body && op.body[field] == Str(text)
  }

  predicate WroteDocument(op: MergeOp, text: string) { Wrote(op, {"create"}, "document_id", text) }

  predicate WrotePosition(op: MergeOp, text: string) { Wrote(op, {"create", "move", "update"}, "position", text) }

  predicate WroteTitle(op: MergeOp, text: string) { Wrote(op, {"create", "update"}, "title", text) }

  predicate WroteBody(op: MergeOp, text: string) { Wrote(op, {"create", "edit"}, "body", text) }

  lemma {:induction false} FieldsMean(op: MergeOp, text: string)
    ensures DocumentId(op) == Some(text) <==> WroteDocument(op, text)
    ensures Position(op) == Some(text) <==> WrotePosition(op, text)
    ensures Title(op) == Some(text) <==> WroteTitle(op, text)
    ensures SectionFold.Body(op) == Some(text) <==> WroteBody(op, text)
  {
    AcceptedMeans(op);
    hide Accepted, Plain;
  }

  // ---- What the section shows ----

  lemma {:induction false} AllRead()
    ensures Reads(DocumentId, WroteDocument) && Reads(Position, WrotePosition) && Reads(Title, WroteTitle)
  {
    forall op, t
      ensures DocumentId(op) == Some(t) <==> WroteDocument(op, t)
      ensures Position(op) == Some(t) <==> WrotePosition(op, t)
      ensures Title(op) == Some(t) <==> WroteTitle(op, t)
    {
      FieldsMean(op, t);
    }
    hide DocumentId, Position, Title, WroteDocument, WrotePosition, WroteTitle;
  }

  lemma {:induction false} FirstIs(ops: seq<MergeOp>, f: Reading, r: string, i: nat)
    requires FirstNonEmpty(ops, f, r) && i < |ops| && f(ops[i]).Some? && f(ops[i]).value != ""
    requires forall j :: 0 <= j < i ==> f(ops[j]).None? || f(ops[j]) == Some("")
    ensures f(ops[i]) == Some(r)
  {
    assert SilentBefore(ops, f, i);
  }

  /** The section's position and title are those written last, and its document is the first one written that is not
    * empty.
    */
  lemma {:induction false} FieldsShown(s: OpSet, objectID: string, order: seq<Id>, x: Section, i: nat, text: string)
    requires SectionOf(s, objectID, order, x)
    ensures SaidLast(s, order, WrotePosition, i, text) ==> x.position == text
    ensures SaidLast(s, order, WroteTitle, i, text) ==> x.title == text
    ensures SaidFirst(s, order, WroteDocument, i, text) ==> x.documentId == text
  {
    AllRead();
    hide DocumentId, Position, Title, Latest, FirstNonEmpty, OrderOf, IsBody, Reads, SaidLast, SaidFirst;
    if SaidLast(s, order, WrotePosition, i, text) { LastShown(s, order, Position, WrotePosition, x.position, i, text); }
    if SaidLast(s, order, WroteTitle, i, text) { LastShown(s, order, Title, WroteTitle, x.title, i, text); }
    if SaidFirst(s, order, WroteDocument, i, text) {
      var ops := OpsOf(s, order);
      forall k | 0 <= k < |ops| && DocumentId(ops[k]).Some? && DocumentId(ops[k]).value != ""
                 && (forall j :: 0 <= j < k ==> DocumentId(ops[j]).None? || DocumentId(ops[j]) == Some(""))
        ensures DocumentId(ops[k]) == Some(x.documentId)
      {
        FirstIs(ops, DocumentId, x.documentId, k);
      }
      FirstShown(s, order, WroteDocument, DocumentId, x.documentId, i, text);
    }
  }

  /** What nobody wrote is empty. */
  lemma {:induction false} FieldsUnset(s: OpSet, objectID: string, order: seq<Id>, x: Section)
    requires SectionOf(s, objectID, order, x)
    ensures NeverSaid(s, order, WrotePosition) ==> x.position == ""
    ensures NeverSaid(s, order, WroteTitle) ==> x.title == ""
    ensures (forall i, t :: SaidAt(s, order, WroteDocument, i, t) ==> t == "") ==> x.documentId == ""
  {
    AllRead();
    if forall i, t :: SaidAt(s, order, WroteDocument, i, t) ==> t == "" {
      hide DocumentId, Latest, OrderOf, IsBody, Reads, SaidAt, Deleted, SetAside;
      forall k: nat | k < |OpsOf(s, order)| ensures DocumentId(OpsOf(s, order)[k]).None? || DocumentId(OpsOf(s, order)[k]) == Some("") {
        ReadAt(s, order, DocumentId, WroteDocument, k);
      }
    }
    hide DocumentId, Position, Title, Latest, FirstNonEmpty, OrderOf, IsBody, Reads, NeverSaid, SaidAt;
    if NeverSaid(s, order, WrotePosition) { NoneShown(s, order, Position, WrotePosition, x.position); }
    if NeverSaid(s, order, WroteTitle) { NoneShown(s, order, Title, WroteTitle, x.title); }
  }

  // ---- Body, deletion, and what is set aside ----

  /** Op `id` of the section writes this body. */
  ghost predicate BodyBy(s: OpSet, objectID: string, id: Id, text: string) {
    id in s && s[id].objectID == objectID && WroteBody(s[id], text)
  }

  /** Some author wrote a body after seeing op `id`. */
  ghost predicate BodyOver(s: OpSet, objectID: string, id: Id) {
    exists other, t :: BodyBy(s, objectID, other, t) && Saw(s, objectID, other, id)
  }

  ghost predicate StandingBody(s: OpSet, objectID: string, text: string) {
    exists id :: BodyBy(s, objectID, id, text) && !BodyOver(s, objectID, id)
  }

  lemma {:induction false} BodyPlace(s: OpSet, objectID: string, order: seq<Id>, id: Id, text: string) returns (i: nat)
    requires InTotalOrder(s, objectID, order) && (forall id :: id in order ==> id in s) && BodyBy(s, objectID, id, text)
    ensures i < |OpsOf(s, order)| && OpsOf(s, order)[i].id == id && SectionFold.Body(OpsOf(s, order)[i]) == Some(text)
  {
    hide InTotalOrder, SectionFold.Body, WroteBody;
    i := PlaceFor(s, objectID, order, id);
    OpAt(s, objectID, order, i);
    FieldsMean(s[id], text);
  }

  lemma {:induction false} BodyFrom(s: OpSet, objectID: string, order: seq<Id>, i: nat, text: string)
    requires InTotalOrder(s, objectID, order) && (forall id :: id in order ==> id in s)
    requires i < |OpsOf(s, order)| && SectionFold.Body(OpsOf(s, order)[i]) == Some(text)
    ensures BodyBy(s, objectID, OpsOf(s, order)[i].id, text)
  {
    hide InTotalOrder, SectionFold.Body, WroteBody;
    OpAt(s, objectID, order, i);
    FieldsMean(OpsOf(s, order)[i], text);
  }

  lemma {:induction false} OverIsOverwritten(s: OpSet, objectID: string, order: seq<Id>, id: Id)
    requires InTotalOrder(s, objectID, order) && (forall id :: id in order ==> id in s) && BodyOver(s, objectID, id)
    ensures Overwritten(DagOf(s, objectID), OpsOf(s, order), id)
  {
    hide InTotalOrder, SectionFold.Body, BodyBy, Saw, Precedes, DagOf, OpsOf;
    var other, t :| BodyBy(s, objectID, other, t) && Saw(s, objectID, other, id);
    var j := BodyPlace(s, objectID, order, other, t);
    SawMeans(s, objectID, other, id);
    IsOverwritten(DagOf(s, objectID), OpsOf(s, order), id, j);
  }

  lemma {:induction false} IsOverwritten(g: Graph, ops: seq<MergeOp>, id: Id, j: nat)
    requires j < |ops| && SectionFold.Body(ops[j]).Some? && Precedes(g, id, ops[j].id)
    ensures Overwritten(g, ops, id)
  {
    hide SectionFold.Body, Precedes;
  }

  lemma {:induction false} OverwrittenIsOver(s: OpSet, objectID: string, order: seq<Id>, id: Id)
    requires InTotalOrder(s, objectID, order) && (forall id :: id in order ==> id in s) && Overwritten(DagOf(s, objectID), OpsOf(s, order), id)
    ensures BodyOver(s, objectID, id)
  {
    hide InTotalOrder, SectionFold.Body, BodyBy, Saw, Precedes, DagOf, OpsOf;
    var ops := OpsOf(s, order);
    var j :| 0 <= j < |ops| && SectionFold.Body(ops[j]).Some? && Precedes(DagOf(s, objectID), id, ops[j].id);
    BodyFrom(s, objectID, order, j, SectionFold.Body(ops[j]).value);
    SawMeans(s, objectID, ops[j].id, id);
  }

  lemma {:induction false} OverPlaces(s: OpSet, objectID: string, order: seq<Id>, id: Id)
    requires InTotalOrder(s, objectID, order) && (forall id :: id in order ==> id in s)
    ensures BodyOver(s, objectID, id) <==> Overwritten(DagOf(s, objectID), OpsOf(s, order), id)
  {
    hide *;
    if BodyOver(s, objectID, id) { OverIsOverwritten(s, objectID, order, id); }
    if Overwritten(DagOf(s, objectID), OpsOf(s, order), id) { OverwrittenIsOver(s, objectID, order, id); }
  }

  lemma {:induction false} StandingIsCurrent(s: OpSet, objectID: string, order: seq<Id>, text: string)
    requires InTotalOrder(s, objectID, order) && (forall id :: id in order ==> id in s) && StandingBody(s, objectID, text)
    ensures Current(DagOf(s, objectID), OpsOf(s, order), text)
  {
    hide InTotalOrder, SectionFold.Body, BodyBy, BodyOver, Overwritten, DagOf, OpsOf;
    var id :| BodyBy(s, objectID, id, text) && !BodyOver(s, objectID, id);
    var i := BodyPlace(s, objectID, order, id, text);
    OverPlaces(s, objectID, order, id);
  }

  lemma {:induction false} CurrentIsStanding(s: OpSet, objectID: string, order: seq<Id>, text: string)
    requires InTotalOrder(s, objectID, order) && (forall id :: id in order ==> id in s) && Current(DagOf(s, objectID), OpsOf(s, order), text)
    ensures StandingBody(s, objectID, text)
  {
    hide InTotalOrder, SectionFold.Body, BodyBy, BodyOver, Overwritten, DagOf, OpsOf;
    var ops := OpsOf(s, order);
    var i :| 0 <= i < |ops| && SectionFold.Body(ops[i]) == Some(text) && !Overwritten(DagOf(s, objectID), ops, ops[i].id);
    BodyFrom(s, objectID, order, i, text);
    OverPlaces(s, objectID, order, ops[i].id);
  }

  /** What a section's state is made of. */
  lemma {:induction false} SectionParts(s: OpSet, objectID: string, order: seq<Id>, x: Section)
    requires SectionOf(s, objectID, order, x)
    ensures InTotalOrder(s, objectID, order) && forall id :: id in order ==> id in s
    ensures IsBody(DagOf(s, objectID), OpsOf(s, order), x.body)
    ensures x.deleted == Deleted(OpsOf(s, order)) && x.unknownOps == SetAside(OpsOf(s, order), Accepted)
  {
    hide IsBody, Deleted, Accepted, SetAside, OrderOf, Latest, FirstNonEmpty;
  }

  lemma {:induction false} BodyTexts(g: Graph, ops: seq<MergeOp>, body: Text)
    requires IsBody(g, ops, body)
    ensures body.Unset? ==> forall t :: !Current(g, ops, t)
    ensures body.Settled? ==> forall t :: Current(g, ops, t) <==> t == body.text
    ensures body.Conflicted? ==>
              && |body.texts| > 1 && (forall t :: Current(g, ops, t) <==> t in body.texts)
              && forall i, j :: 0 <= i < j < |body.texts| ==> Strings.Less(body.texts[i], body.texts[j])
  {
    hide Current, Strings.Less;
    var texts: set<string> :| AreCurrent(g, ops, texts) && body == TextOf(Strings.Sorted(texts));
    var list := Strings.Sorted(texts);
    if |list| == 1 { assert forall t :: t in texts <==> t == list[0]; }
    if |list| == 0 { assert forall t :: t !in list; }
  }

  /** The body shows exactly the texts nobody has written over: none, one, or several side by side, sorted. */
  lemma {:induction false} BodyShown(s: OpSet, objectID: string, order: seq<Id>, x: Section)
    requires SectionOf(s, objectID, order, x)
    ensures x.body.Unset? ==> forall t :: !StandingBody(s, objectID, t)
    ensures x.body.Settled? ==> forall t :: StandingBody(s, objectID, t) <==> t == x.body.text
    ensures x.body.Conflicted? ==>
              && |x.body.texts| > 1 && (forall t :: StandingBody(s, objectID, t) <==> t in x.body.texts)
              && forall i, j :: 0 <= i < j < |x.body.texts| ==> Strings.Less(x.body.texts[i], x.body.texts[j])
  {
    hide *;
    SectionParts(s, objectID, order, x);
    BodyTexts(DagOf(s, objectID), OpsOf(s, order), x.body);
    forall t ensures StandingBody(s, objectID, t) <==> Current(DagOf(s, objectID), OpsOf(s, order), t) {
      if StandingBody(s, objectID, t) { StandingIsCurrent(s, objectID, order, t); }
      if Current(DagOf(s, objectID), OpsOf(s, order), t) { CurrentIsStanding(s, objectID, order, t); }
    }
  }

  ghost predicate DeletedBy(s: OpSet, objectID: string, id: Id) { id in s && s[id].objectID == objectID && Plain(s[id]) && s[id].opType == "delete" }

  lemma {:induction false} DeletedPlace(s: OpSet, objectID: string, order: seq<Id>, id: Id)
    requires InTotalOrder(s, objectID, order) && (forall id :: id in order ==> id in s) && DeletedBy(s, objectID, id)
    ensures Deleted(OpsOf(s, order))
  {
    AcceptedMeans(s[id]);
    hide InTotalOrder, Accepted, Plain, OpsOf;
    var i := PlaceFor(s, objectID, order, id);
  }

  lemma {:induction false} DeletedFrom(s: OpSet, objectID: string, order: seq<Id>) returns (id: Id)
    requires InTotalOrder(s, objectID, order) && (forall id :: id in order ==> id in s) && Deleted(OpsOf(s, order))
    ensures DeletedBy(s, objectID, id)
  {
    hide InTotalOrder, Accepted, Plain, OpsOf;
    var ops := OpsOf(s, order);
    var i :| 0 <= i < |ops| && Accepted(ops[i]) && ops[i].opType == "delete";
    OpAt(s, objectID, order, i);
    AcceptedMeans(ops[i]);
    id := order[i];
  }

  /** Deleted is a section that some op deletes. */
  lemma {:induction false} DeletedShown(s: OpSet, objectID: string, order: seq<Id>, x: Section)
    requires SectionOf(s, objectID, order, x)
    ensures x.deleted <==> exists id :: DeletedBy(s, objectID, id)
  {
    hide *;
    SectionParts(s, objectID, order, x);
    if id :| DeletedBy(s, objectID, id) { DeletedPlace(s, objectID, order, id); }
    if x.deleted { var id := DeletedFrom(s, objectID, order); }
  }

  /** The record of an op of the section that is not plain. */
  ghost predicate Unplain(s: OpSet, objectID: string, id: Id, u: UnknownOp) {
    id in s && s[id].objectID == objectID && !Plain(s[id]) && u == UnknownOp(id, s[id].objectType, s[id].opType, s[id].opVersion)
  }

  lemma {:induction false} UnplainPlace(s: OpSet, objectID: string, order: seq<Id>, id: Id, u: UnknownOp)
    requires InTotalOrder(s, objectID, order) && (forall id :: id in order ==> id in s) && Unplain(s, objectID, id, u)
    ensures u in SetAside(OpsOf(s, order), Accepted)
  {
    AcceptedMeans(s[id]);
    hide InTotalOrder, Accepted, Plain, OpsOf, SetAside;
    var i := PlaceFor(s, objectID, order, id);
    OpAt(s, objectID, order, i);
    assert u == Record(OpsOf(s, order)[i]);
    SetAsideMembers(OpsOf(s, order), Accepted, u);
  }

  lemma {:induction false} UnplainFrom(s: OpSet, objectID: string, order: seq<Id>, u: UnknownOp) returns (id: Id)
    requires InTotalOrder(s, objectID, order) && (forall id :: id in order ==> id in s) && u in SetAside(OpsOf(s, order), Accepted)
    ensures Unplain(s, objectID, id, u)
  {
    hide InTotalOrder, Accepted, Plain, OpsOf, SetAside;
    var ops := OpsOf(s, order);
    SetAsideMembers(ops, Accepted, u);
    var i :| 0 <= i < |ops| && !Accepted(ops[i]) && u == Record(ops[i]);
    OpAt(s, objectID, order, i);
    AcceptedMeans(ops[i]);
    id := order[i];
  }

  /** Recorded as unknown are exactly the ops that are not plain. */
  lemma {:induction false} UnknownShown(s: OpSet, objectID: string, order: seq<Id>, x: Section, u: UnknownOp)
    requires SectionOf(s, objectID, order, x)
    ensures u in x.unknownOps <==> exists id :: Unplain(s, objectID, id, u)
  {
    hide *;
    SectionParts(s, objectID, order, x);
    if id :| Unplain(s, objectID, id, u) { UnplainPlace(s, objectID, order, id, u); }
    if u in x.unknownOps { var id := UnplainFrom(s, objectID, order, u); }
  }

  // ---- Editing and moving ----

  /** An edit from the frontier settles the body to exactly the text it carries, whatever conflicted before and whatever
    * its clock says, and leaves the rest of the section alone; a move from the frontier changes the position to the one it
    * carries and nothing else.
    */
  lemma {:induction false} EditAndMove(s: OpSet, objectID: string, op: MergeOp, order: seq<Id>, x: Section, y: Section, text: string)
    requires OnFrontier(s, objectID, op) && SectionOf(s, objectID, order, x)
    requires SectionOf(Appended(s, op), objectID, order + [op.id], y)
    requires op.objectType == "section" && op.opVersion == 1
    ensures op.opType == "edit" && "body" in op.body && op.body["body"] == Str(text) ==> y == x.(body := Settled(text))
    ensures op.opType == "move" && "position" in op.body && op.body["position"] == Str(text) ==> y == x.(position := text)
  {
    AcceptedMeans(op);
    FieldsMean(op, text);
    hide OnFrontier, SectionOf, Accepted, SectionFold.Body, Position, Appended;
    if op.opType in {"edit", "move"} && Plain(op) { EditOrMoveOnTop(s, objectID, op, order, x, y); }
  }

  /** The same for lists of ops: folding the section with one more op on top. */
  lemma {:induction false} EditedOrMoved(ops: seq<MergeOp>, op: MergeOp, rx: Outcome, ry: Outcome, text: string)
    requires IsFolded(ops, rx) && rx.Folded? && OnTopOfAll(ops, op) && IsFolded(ops + [op], ry)
    requires op.objectType == "section" && op.opVersion == 1
    ensures ry.Folded?
    ensures op.opType == "edit" && "body" in op.body && op.body["body"] == Str(text) ==> ry.value == rx.value.(body := Settled(text))
    ensures op.opType == "move" && "position" in op.body && op.body["position"] == Str(text) ==> ry.value == rx.value.(position := text)
  {
    var objectID := ops[0].objectID;
    var order :| SectionOf(OpSetOf(ops), objectID, order, rx.value);
    assert OrderOf(OpSetOf(ops), objectID, order);
    hide SectionOf, Orderable, OnTopOfAll, OpSetOf, OrderOf, EngineOrder.IsOutcome;
    StillOrderable(ops, op, order);
    ListOnFrontier(ops, op);
    var longer :| SectionOf(OpSetOf(ops + [op]), objectID, longer, ry.value);
    SectionAlong(Appended(OpSetOf(ops), op), objectID, longer, ry.value);
    hide IsFolded;
    AppendedComesLast(OpSetOf(ops), objectID, op, order);
    OrderUnique(Appended(OpSetOf(ops), op), objectID, order + [op.id], longer);
    EditAndMove(OpSetOf(ops), objectID, op, order, rx.value, ry.value, text);
  }

  lemma {:induction false} SectionAlong(s: OpSet, objectID: string, order: seq<Id>, x: Section)
    requires SectionOf(s, objectID, order, x)
    ensures OrderOf(s, objectID, order)
  {}
}
