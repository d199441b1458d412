/** What a document's ops fold to, read off their types and bodies. */
module DocumentMeaning {
  import opened CausalGraph
  import opened Options
  import opened FoldRules
  import opened Fold
  import opened Frontier
  import opened OrderedOps
  import opened TypedReading
  import opened OpBodies
  import opened DocumentFold
  import EngineOrder
  import Strings

  predicate Given(body: Body, field: string) { field in body ==> body[field] != Null }

  /** A document op of the one version there is, of a known type, with values of the right kind. */
  predicate Plain(op: MergeOp) {
    && op.objectType == "document" && op.opVersion == 1
    && match op.opType
       case "create" => Given(op.body, "title")
       case "update" => Given(op.body, "title")
       case "link" => ("target" in op.body ==> op.body["target"].Str?) && Given(op.body, "target_type") && Given(op.body, "relation")
       case "label" => ("add" in op.body ==> SetSide(op.body["add"])) && ("remove" in op.body ==> SetSide(op.body["remove"]))
       case _ => false
  }

  predicate Asks(op: MergeOp, i: int) { 0 <= i < |DOCUMENT_RULES| && (OpMatchesRule(op, DOCUMENT_RULES[i]) ==> RuleAccepts(DOCUMENT_RULES[i], op.body)) }

  lemma {:induction false} SevenRules(op: MergeOp)
    ensures !Uninterpretable(op, DOCUMENT_RULES) <==>
              Asks(op, 0) && Asks(op, 1) && Asks(op, 2) && Asks(op, 3) && Asks(op, 4) && Asks(op, 5) && Asks(op, 6)
  {
    hide OpMatchesRule, RuleAccepts;
    assert |DOCUMENT_RULES| == 7;
    if Uninterpretable(op, DOCUMENT_RULES) {
      var i :| 0 <= i < |DOCUMENT_RULES| && OpMatchesRule(op, DOCUMENT_RULES[i]) && !RuleAccepts(DOCUMENT_RULES[i], op.body);
      assert !Asks(op, i);
    }
  }

  lemma {:induction false} TitleRule(op: MergeOp, opType: string)
    requires op.opVersion == 1 && opType != ""
    ensures var r := Rule(opType, "title", Lww);
            (OpMatchesRule(op, r) ==> RuleAccepts(r, op.body)) <==> (op.opType == opType ==> Given(op.body, "title"))
  {}

  lemma {:induction false} LinkRuleMeans(op: MergeOp, field: string)
    requires op.opVersion == 1
    ensures (OpMatchesRule(op, LinkRule(field)) ==> RuleAccepts(LinkRule(field), op.body)) <==>
              (op.opType == "link" ==> Given(op.body, field) && ("target" in op.body ==> op.body["target"].Str?))
  {
    assert LinkRule(field).key[0] == "target";
  }

  lemma {:induction false} LabelRule(op: MergeOp, field: string)
    requires op.opVersion == 1 && (field == "add" || field == "remove")
    ensures var r := Rule("label", field, ObservedRemove);
            (OpMatchesRule(op, r) ==> RuleAccepts(r, op.body)) <==>
              (op.opType == "label" ==> ("add" in op.body ==> SetSide(op.body["add"])) && ("remove" in op.body ==> SetSide(op.body["remove"])))
  {
    ReadableMeans(Rule("label", field, ObservedRemove), op.body);
    hide RuleAccepts, SetSide;
  }

  /** Accepted are exactly the plain ops. */
  lemma {:induction false} AcceptedMeans(op: MergeOp)
    ensures Accepted(op) <==> Plain(op)
  {
    if op.opVersion == 1 {
      SevenRules(op);
      TitleRule(op, "create");
      TitleRule(op, "update");
      LinkRuleMeans(op, "target");
      LinkRuleMeans(op, "target_type");
      LinkRuleMeans(op, "relation");
      LabelRule(op, "add");
      LabelRule(op, "remove");
      hide OpMatchesRule, RuleAccepts, Uninterpretable, SetSide;
    }
  }

  // ---- Title and links ----

  predicate WroteTitle(op: MergeOp, text: string) {
    Plain(op) && (op.opType == "create" || op.opType == "update") && "title" in op.body && op.body["title"] == Str(text)
  }

  /** A link op names this target, which is not empty. */
  predicate LinksTo(op: MergeOp, target: string) {
    Plain(op) && op.opType == "link" && target != "" && "target" in op.body && op.body["target"] == Str(target)
  }

  function WroteType(target: string): Saying {
    (op: MergeOp, text: string) => LinksTo(op, target) && "target_type" in op.body && op.body["target_type"] == Str(text)
  }

  function WroteRelation(target: string): Saying {
    (op: MergeOp, text: string) => LinksTo(op, target) && "relation" in op.body && op.body["relation"] == Str(text)
  }

  lemma {:induction false} AllRead(target: string)
    ensures Reads(Title, WroteTitle) && Reads(TypeTo(target), WroteType(target)) && Reads(RelationTo(target), WroteRelation(target))
  {
    forall op ensures Accepted(op) <==> Plain(op) { AcceptedMeans(op); }
    hide Accepted, Plain;
  }

  lemma {:induction false} DocumentParts(s: OpSet, objectID: string, order: seq<Id>, d: Document)
    requires DocumentOf(s, objectID, order, d)
    ensures InTotalOrder(s, objectID, order) && forall id :: id in order ==> id in s
    ensures Latest(OpsOf(s, order), Title, d.title) && IsLabelList(DagOf(s, objectID), OpsOf(s, order), d.labels)
    ensures AreLinks(OpsOf(s, order), d.links) && d.unknownOps == SetAside(OpsOf(s, order), Accepted)
  {
    hide IsLabelList, AreLinks, Accepted, SetAside, OrderOf, Latest;
  }

  /** The title is the one written last. */
  lemma {:induction false} TitleShown(s: OpSet, objectID: string, order: seq<Id>, d: Document, i: nat, text: string)
    requires DocumentOf(s, objectID, order, d)
    ensures SaidLast(s, order, WroteTitle, i, text) ==> d.title == text
    ensures NeverSaid(s, order, WroteTitle) ==> d.title == ""
  {
    AllRead("");
    hide *;
    DocumentParts(s, objectID, order, d);
    if SaidLast(s, order, WroteTitle, i, text) { LastShown(s, order, Title, WroteTitle, d.title, i, text); }
    if NeverSaid(s, order, WroteTitle) { NoneShown(s, order, Title, WroteTitle, d.title); }
  }

  /** A link is listed exactly when the last relation written to its target is neither empty nor `none`; it has that
    * relation and the last type written. Links are in the order of their targets, each once.
    */
  lemma {:induction false} LinksShown(s: OpSet, objectID: string, order: seq<Id>, d: Document, link: Link)
    requires DocumentOf(s, objectID, order, d)
    ensures link in d.links <==>
              && link.relation != "" && link.relation != "none" && (exists i :: SaidLast(s, order, WroteRelation(link.target), i, link.relation))
              && if NeverSaid(s, order, WroteType(link.target)) then link.targetType == ""
                 else exists i :: SaidLast(s, order, WroteType(link.target), i, link.targetType)
  {
    AllRead(link.target);
    hide *;
    DocumentParts(s, objectID, order, d);
    LinkListed(OpsOf(s, order), d.links, link);
    LatestMeans(s, order, TypeTo(link.target), WroteType(link.target), link.targetType);
    LatestMeans(s, order, RelationTo(link.target), WroteRelation(link.target), link.relation);
    LastIsSaid(s, order, WroteRelation(link.target), link.relation);
  }

  lemma {:induction false} LastIsSaid(s: OpSet, order: seq<Id>, says: Saying, r: string)
    ensures (exists i :: SaidLast(s, order, says, i, r)) ==> !NeverSaid(s, order, says)
  {
    hide SaidAt;
  }

  lemma {:induction false} LinkListed(ops: seq<MergeOp>, links: seq<Link>, link: Link)
    requires AreLinks(ops, links)
    ensures link in links <==>
              && Latest(ops, TypeTo(link.target), link.targetType) && Latest(ops, RelationTo(link.target), link.relation)
              && link.relation != "none" && link.relation != ""
  {
    hide Latest, TypeTo, RelationTo;
  }

  /** The latest reading is what was said last. */
  lemma {:induction false} LatestMeans(s: OpSet, order: seq<Id>, f: Reading, says: Saying, r: string)
    requires Reads(f, says) && forall id :: id in order ==> id in s
    ensures Latest(OpsOf(s, order), f, r) <==> if NeverSaid(s, order, says) then r == "" else exists i :: SaidLast(s, order, says, i, r)
  {
    var latest := LatestExists(OpsOf(s, order), f);
    hide Latest, SaidLast, NeverSaid, Reads, SaidAt;
    if NeverSaid(s, order, says) {
      NoneShown(s, order, f, says, latest);
    } else {
      var i := SomeLast(s, order, f, says, latest);
      if k :| SaidLast(s, order, says, k, r) { SaidOnce(s, order, says, i, latest, k, r, f); }
    }
    if Latest(OpsOf(s, order), f, r) { OneLatest(OpsOf(s, order), f, r, latest); }
  }

  lemma {:induction false} SaidOnce(s: OpSet, order: seq<Id>, says: Saying, i: int, a: string, k: int, b: string, f: Reading)
    requires Reads(f, says) && SaidLast(s, order, says, i, a) && SaidLast(s, order, says, k, b)
    ensures a == b
  {
    assert i == k;
    assert f(s[order[i]]) == Some(a) && f(s[order[i]]) == Some(b);
  }

  lemma {:induction false} LinksInOrder(s: OpSet, objectID: string, order: seq<Id>, d: Document, i: nat, j: nat)
    requires DocumentOf(s, objectID, order, d) && i < j < |d.links|
    ensures Strings.Less(d.links[i].target, d.links[j].target)
  {
    DocumentParts(s, objectID, order, d);
    hide DocumentOf, InTotalOrder, Latest, OpsOf, IsLabelList, IsLink, Strings.Less;
  }

  // ---- Labels ----

  /** Op `id` of the document adds this label. */
  ghost predicate AddsLabel(s: OpSet, objectID: string, id: Id, x: string) {
    id in s && s[id].objectID == objectID && Plain(s[id]) && s[id].opType == "label" && AddsItem(s[id], "add", x)
  }

  ghost predicate RemovesLabel(s: OpSet, objectID: string, id: Id, x: string) {
    id in s && s[id].objectID == objectID && Plain(s[id]) && s[id].opType == "label" && RemovesItem(s[id], "remove", x)
  }

  /** Some author removed the label after seeing op `id`. */
  ghost predicate RemovedSince(s: OpSet, objectID: string, id: Id, x: string) {
    exists other :: RemovesLabel(s, objectID, other, x) && Saw(s, objectID, other, id)
  }

  ghost predicate HasLabel(s: OpSet, objectID: string, x: string) {
    x != "" && exists id :: AddsLabel(s, objectID, id, x) && !RemovedSince(s, objectID, id, x)
  }

  lemma {:induction false} SidesRead(op: MergeOp, x: string)
    ensures x in Adds(op) <==> Plain(op) && op.opType == "label" && x != "" && AddsItem(op, "add", x)
    ensures x in Removes(op) <==> Plain(op) && op.opType == "label" && x != "" && RemovesItem(op, "remove", x)
  {
    AcceptedMeans(op);
    SidesMean(op, Rule("label", "add", ObservedRemove), x);
    hide Accepted, Plain, SidesOf, AddsItem;
    assert RemovesItem(op, "remove", x) <==> RemovesItem(op, "add", x);
  }

  lemma {:induction false} SideAt(s: OpSet, objectID: string, order: seq<Id>, i: nat, x: string)
    requires InTotalOrder(s, objectID, order) && (forall id :: id in order ==> id in s) && i < |OpsOf(s, order)| && x != ""
    ensures x in Adds(OpsOf(s, order)[i]) <==> AddsLabel(s, objectID, OpsOf(s, order)[i].id, x)
    ensures x in Removes(OpsOf(s, order)[i]) <==> RemovesLabel(s, objectID, OpsOf(s, order)[i].id, x)
  {
    hide InTotalOrder, Adds, Removes, AddsItem, RemovesItem, Plain;
    OpAt(s, objectID, order, i);
    SidesRead(OpsOf(s, order)[i], x);
  }

  lemma {:induction false} SinceMeans(s: OpSet, objectID: string, order: seq<Id>, id: Id, x: string)
    requires InTotalOrder(s, objectID, order) && (forall id :: id in order ==> id in s) && x != ""
    ensures RemovedSince(s, objectID, id, x) ==> RemovedAfter(DagOf(s, objectID), OpsOf(s, order), id, x)
    ensures RemovedAfter(DagOf(s, objectID), OpsOf(s, order), id, x) ==> RemovedSince(s, objectID, id, x)
  {
    hide *;
    if RemovedSince(s, objectID, id, x) { SinceIsAfter(s, objectID, order, id, x); }
    if RemovedAfter(DagOf(s, objectID), OpsOf(s, order), id, x) { AfterIsSince(s, objectID, order, id, x); }
  }

  lemma {:induction false} SinceIsAfter(s: OpSet, objectID: string, order: seq<Id>, id: Id, x: string)
    requires InTotalOrder(s, objectID, order) && (forall id :: id in order ==> id in s) && x != "" && RemovedSince(s, objectID, id, x)
    ensures RemovedAfter(DagOf(s, objectID), OpsOf(s, order), id, x)
  {
    hide InTotalOrder, RemovesItem, Plain, Saw, Precedes, DagOf, OpsOf, Removes;
    var other :| RemovesLabel(s, objectID, other, x) && Saw(s, objectID, other, id);
    var j := PlaceFor(s, objectID, order, other);
    OpAt(s, objectID, order, j);
    SideAt(s, objectID, order, j, x);
    SawMeans(s, objectID, other, id);
  }

  lemma {:induction false} AfterIsSince(s: OpSet, objectID: string, order: seq<Id>, id: Id, x: string)
    requires InTotalOrder(s, objectID, order) && (forall id :: id in order ==> id in s) && x != ""
    requires RemovedAfter(DagOf(s, objectID), OpsOf(s, order), id, x)
    ensures RemovedSince(s, objectID, id, x)
  {
    hide InTotalOrder, RemovesLabel, Saw, Precedes, DagOf, OpsOf, Removes;
    var ops := OpsOf(s, order);
    var j :| 0 <= j < |ops| && x in Removes(ops[j]) && Precedes(DagOf(s, objectID), id, ops[j].id);
    SideAt(s, objectID, order, j, x);
    SawMeans(s, objectID, ops[j].id, id);
  }

  lemma {:induction false} LabelPlace(s: OpSet, objectID: string, order: seq<Id>, x: string)
    requires InTotalOrder(s, objectID, order) && (forall id :: id in order ==> id in s) && HasLabel(s, objectID, x)
    ensures Labelled(DagOf(s, objectID), OpsOf(s, order), x)
  {
    hide InTotalOrder, AddsItem, Plain, RemovedSince, RemovedAfter, DagOf, OpsOf, Adds;
    var id :| AddsLabel(s, objectID, id, x) && !RemovedSince(s, objectID, id, x);
    var i := PlaceFor(s, objectID, order, id);
    OpAt(s, objectID, order, i);
    SideAt(s, objectID, order, i, x);
    SinceMeans(s, objectID, order, id, x);
  }

  lemma {:induction false} LabelFrom(s: OpSet, objectID: string, order: seq<Id>, x: string)
    requires InTotalOrder(s, objectID, order) && (forall id :: id in order ==> id in s) && Labelled(DagOf(s, objectID), OpsOf(s, order), x)
    ensures HasLabel(s, objectID, x)
  {
    hide InTotalOrder, AddsLabel, RemovedSince, RemovedAfter, DagOf, OpsOf, Adds;
    var ops := OpsOf(s, order);
    var i :| 0 <= i < |ops| && x in Adds(ops[i]) && !RemovedAfter(DagOf(s, objectID), ops, ops[i].id, x);
    NotEmpty(ops[i], x);
    SideAt(s, objectID, order, i, x);
    SinceMeans(s, objectID, order, ops[i].id, x);
  }

  lemma {:induction false} NotEmpty(op: MergeOp, x: string)
    requires x in Adds(op)
    ensures x != ""
  {
    hide Accepted, SidesOf;
  }

  /** Listed are exactly the labels that some op adds and no op that had seen that one removes, sorted, each once. */
  lemma {:induction false} LabelsShown(s: OpSet, objectID: string, order: seq<Id>, d: Document)
    requires DocumentOf(s, objectID, order, d)
    ensures forall x :: x in d.labels <==> HasLabel(s, objectID, x)
    ensures forall i, j :: 0 <= i < j < |d.labels| ==> Strings.Less(d.labels[i], d.labels[j])
  {
    hide *;
    DocumentParts(s, objectID, order, d);
    LabelListMembers(DagOf(s, objectID), OpsOf(s, order), d.labels);
    LabelsSorted(DagOf(s, objectID), OpsOf(s, order), d.labels);
    forall x ensures Labelled(DagOf(s, objectID), OpsOf(s, order), x) <==> HasLabel(s, objectID, x) {
      if HasLabel(s, objectID, x) { LabelPlace(s, objectID, order, x); }
      if Labelled(DagOf(s, objectID), OpsOf(s, order), x) { LabelFrom(s, objectID, order, x); }
    }
  }

  lemma {:induction false} LabelsSorted(g: Graph, ops: seq<MergeOp>, list: seq<string>)
    requires IsLabelList(g, ops, list)
    ensures forall i, j :: 0 <= i < j < |list| ==> Strings.Less(list[i], list[j])
  {
    hide Labelled, Strings.Less;
  }

  // ---- One more op on top ----

  /** `b` holds the links of `a`, but for those to target `t`. */
  ghost predicate SameLinksBut(a: seq<Link>, b: seq<Link>, t: string) { forall link: Link :: link.target != t ==> (link in b <==> link in a) }

  /** A title is the title; a label op adds and removes its labels; and a link op gives the link its relation or, with
    * `none`, takes it away. Everything else is as it was.
    */
  ghost predicate DoesWhatItSays(op: MergeOp, x: Document, y: Document) {
    && (forall t :: WroteTitle(op, t) ==> y.title == t)
    && (Plain(op) && op.opType == "label" ==>
          forall l :: l in y.labels <==> (l != "" && AddsItem(op, "add", l)) || (l in x.labels && !(l != "" && RemovesItem(op, "remove", l))))
    && (op.opType != "label" ==> forall l :: l in y.labels <==> l in x.labels)
    && (forall t, r :: LinksTo(op, t) && WroteRelation(t)(op, r) ==>
          && SameLinksBut(x.links, y.links, t) && (forall link :: link in y.links && link.target == t ==> link.relation == r)
          && ((exists link :: link in y.links && link.target == t) <==> r != "none" && r != ""))
    && (op.opType != "link" ==> forall link :: link in y.links <==> link in x.links)
  }

  /** An op from the frontier does what its body says, whatever its clock and whatever went on before. */
  lemma {:induction false} OpOnTop(s: OpSet, objectID: string, op: MergeOp, order: seq<Id>, x: Document, y: Document)
    requires OnFrontier(s, objectID, op) && DocumentOf(s, objectID, order, x)
    requires DocumentOf(Appended(s, op), objectID, order + [op.id], y)
    ensures DoesWhatItSays(op, x, y)
  {
    hide *;
    LabelAndLink(s, objectID, op, order, x, y);
    Follows(op, x, y);
  }

  lemma {:induction false} Follows(op: MergeOp, x: Document, y: Document)
    requires y.title == if Title(op).Some? then Title(op).value else x.title
    requires LabelsFollow(op, x.labels, y.labels) && LinksFollow(op, x.links, y.links)
    ensures DoesWhatItSays(op, x, y)
  {
    hide WroteTitle, Plain, AddsItem, RemovesItem, LinksTo, WroteRelation, SameLinksBut, LabelsFollow, LinksFollow, Title;
    TitleFollows(op, x, y);
    LabelsRead(op, x.labels, y.labels);
    LinksRead(op, x.links, y.links);
  }

  lemma {:induction false} TitleFollows(op: MergeOp, x: Document, y: Document)
    requires y.title == if Title(op).Some? then Title(op).value else x.title
    ensures forall t :: WroteTitle(op, t) ==> y.title == t
  {
    AllRead("");
    hide Title, WroteTitle;
  }

  lemma {:induction false} LabelsRead(op: MergeOp, before: seq<string>, after: seq<string>)
    requires LabelsFollow(op, before, after)
    ensures Plain(op) && op.opType == "label" ==>
              forall l :: l in after <==> (l != "" && AddsItem(op, "add", l)) || (l in before && !(l != "" && RemovesItem(op, "remove", l)))
    ensures op.opType != "label" ==> forall l :: l in after <==> l in before
  {
    forall l
      ensures l in Adds(op) <==> Plain(op) && op.opType == "label" && l != "" && AddsItem(op, "add", l)
      ensures l in Removes(op) <==> Plain(op) && op.opType == "label" && l != "" && RemovesItem(op, "remove", l)
    {
      SidesRead(op, l);
    }
    hide Adds, Removes, Plain, AddsItem, RemovesItem;
  }

  lemma {:induction false} LinksRead(op: MergeOp, before: seq<Link>, after: seq<Link>)
    requires LinksFollow(op, before, after)
    ensures forall t, r :: LinksTo(op, t) && WroteRelation(t)(op, r) ==>
              && SameLinksBut(before, after, t) && (forall link :: link in after && link.target == t ==> link.relation == r)
              && ((exists link :: link in after && link.target == t) <==> r != "none" && r != "")
    ensures op.opType != "link" ==> forall link :: link in after <==> link in before
  {
    OtherTypes(op);
    forall t, r | LinksTo(op, t) && WroteRelation(t)(op, r)
      ensures SameLinksBut(before, after, t) && (forall link :: link in after && link.target == t ==> link.relation == r)
      ensures (exists link :: link in after && link.target == t) <==> r != "none" && r != ""
    {
      RelationRead(op, t, r);
      hide Targets, RelationTo, LinksTo, WroteRelation;
      assert Related(after, t, r);
    }
  }

  lemma {:induction false} RelationRead(op: MergeOp, t: string, r: string)
    requires WroteRelation(t)(op, r)
    ensures RelationTo(t)(op) == Some(r) && Targets(op, t) && forall u :: u != t ==> !Targets(op, u)
  {
    AcceptedMeans(op);
    hide Accepted, Plain;
  }

  lemma {:induction false} OtherTypes(op: MergeOp)
    ensures op.opType != "link" ==> forall t :: !Targets(op, t)
  {}

  /** The same for lists of ops: folding the document with one more op on top. */
  lemma {:induction false} OpInList(ops: seq<MergeOp>, op: MergeOp, rx: Outcome, ry: Outcome)
    requires IsFolded(ops, rx) && rx.Folded? && OnTopOfAll(ops, op) && IsFolded(ops + [op], ry)
    ensures ry.Folded? && DoesWhatItSays(op, rx.value, ry.value)
  {
    var objectID := ops[0].objectID;
    var order :| DocumentOf(OpSetOf(ops), objectID, order, rx.value);
    assert OrderOf(OpSetOf(ops), objectID, order);
    hide DocumentOf, Orderable, OnTopOfAll, OpSetOf, OrderOf, EngineOrder.IsOutcome, DoesWhatItSays;
    StillOrderable(ops, op, order);
    ListOnFrontier(ops, op);
    var longer :| DocumentOf(OpSetOf(ops + [op]), objectID, longer, ry.value);
    DocumentAlong(Appended(OpSetOf(ops), op), objectID, longer, ry.value);
    hide IsFolded;
    AppendedComesLast(OpSetOf(ops), objectID, op, order);
    OrderUnique(Appended(OpSetOf(ops), op), objectID, order + [op.id], longer);
    OpOnTop(OpSetOf(ops), objectID, op, order, rx.value, ry.value);
  }

  lemma {:induction false} DocumentAlong(s: OpSet, objectID: string, order: seq<Id>, x: Document)
    requires DocumentOf(s, objectID, order, x)
    ensures OrderOf(s, objectID, order)
  {}

  // ---- What is set aside ----

  /** The record of an op of the document that is not plain. */
  ghost predicate Unplain(s: OpSet, objectID: string, id: Id, u: UnknownOp) {
    id in s && s[id].objectID == objectID && !Plain(s[id]) && u == UnknownOp(id, s[id].objectType, s[id].opType, s[id].opVersion)
  }

  lemma {:induction false} UnplainPlace(s: OpSet, objectID: string, order: seq<Id>, id: Id, u: UnknownOp)
    requires InTotalOrder(s, objectID, order) && (forall id :: id in order ==> id in s) && Unplain(s, objectID, id, u)
    ensures u in SetAside(OpsOf(s, order), Accepted)
  {
    AcceptedMeans(s[id]);
    hide InTotalOrder, Accepted, Plain, OpsOf, SetAside;
    var i := PlaceFor(s, objectID, order, id);
    OpAt(s, objectID, order, i);
    assert u == Record(OpsOf(s, order)[i]);
    SetAsideMembers(OpsOf(s, order), Accepted, u);
  }

  lemma {:induction false} UnplainFrom(s: OpSet, objectID: string, order: seq<Id>, u: UnknownOp) returns (id: Id)
    requires InTotalOrder(s, objectID, order) && (forall id :: id in order ==> id in s) && u in SetAside(OpsOf(s, order), Accepted)
    ensures Unplain(s, objectID, id, u)
  {
    hide InTotalOrder, Accepted, Plain, OpsOf, SetAside;
    var ops := OpsOf(s, order);
    SetAsideMembers(ops, Accepted, u);
    var i :| 0 <= i < |ops| && !Accepted(ops[i]) && u == Record(ops[i]);
    OpAt(s, objectID, order, i);
    AcceptedMeans(ops[i]);
    id := order[i];
  }

  /** Recorded as unknown are exactly the ops that are not plain. */
  lemma {:induction false} UnknownShown(s: OpSet, objectID: string, order: seq<Id>, d: Document, u: UnknownOp)
    requires DocumentOf(s, objectID, order, d)
    ensures u in d.unknownOps <==> exists id :: Unplain(s, objectID, id, u)
  {
    hide *;
    DocumentParts(s, objectID, order, d);
    if id :| Unplain(s, objectID, id, u) { UnplainPlace(s, objectID, order, id, u); }
    if u in d.unknownOps { var id := UnplainFrom(s, objectID, order, u); }
  }
}
