/** The typed fold of a document: title, labels as an observed-remove set, links keyed by target, and what an
  * op appended from the document's frontier does to them.
  */
module DocumentFold {
  import opened CausalGraph
  import EngineOrder
  import opened EngineReach
  import opened Options
  import opened FoldRules
  import opened Strings
  import opened Sorting
  import opened Fold
  import opened Frontier
  import opened OrderedOps

  datatype Link = Link(target: string, targetType: string, relation: string)

  datatype Document = Document(title: string, labels: seq<string>, links: seq<Link>, unknownOps: seq<UnknownOp>)

  function LinkRule(field: string): FieldRule {
    FieldRule("link", 1, field, "", KeyedLww, ["target"], [], false, false, [])
  }

  const DOCUMENT_RULES := [
    Rule("create", "title", Lww),
    Rule("update", "title", Lww),
    LinkRule("target"),
    LinkRule("target_type"),
    LinkRule("relation"),
    Rule("label", "add", ObservedRemove),
    Rule("label", "remove", ObservedRemove)
  ]

  const OP_TYPES := {"create", "update", "link", "label"}

  predicate Accepted(op: MergeOp) {
    && op.objectType == "document" && op.opVersion == 1
    && !Uninterpretable(op, DOCUMENT_RULES)
    && op.opType in OP_TYPES
  }

  function Text(op: MergeOp, field: string): Option<string> {
    if field in op.body && op.body[field].Str? then Some(op.body[field].s) else None
  }

  function Title(op: MergeOp): Option<string> {
    if Accepted(op) && op.opType in {"create", "update"} then Text(op, "title") else None
  }

  /** The link an op writes to: the target it names, if that is not empty. */
  predicate Targets(op: MergeOp, target: string) {
    Accepted(op) && op.opType == "link" && target != "" && Text(op, "target") == Some(target)
  }

  function TypeTo(target: string): Reading { (op: MergeOp) => if Targets(op, target) then Text(op, "target_type") else None }

  function RelationTo(target: string): Reading { (op: MergeOp) => if Targets(op, target) then Text(op, "relation") else None }

  /** The labels an op adds and removes; empty ones are dropped. */
  function Adds(op: MergeOp): set<string> {
    if Accepted(op) && op.opType == "label" then set x | x in SidesOf(op, Rule("label", "add", ObservedRemove)).0 && x != "" else {}
  }

  function Removes(op: MergeOp): set<string> {
    if Accepted(op) && op.opType == "label" then set x | x in SidesOf(op, Rule("label", "add", ObservedRemove)).1 && x != "" else {}
  }

  // ---- The document the ops fold to ----

  /** Some add of the label was seen by no remove of it. */
  ghost predicate Labelled(g: Graph, ops: seq<MergeOp>, x: string) {
    exists i :: 0 <= i < |ops| && x in Adds(ops[i]) && !RemovedAfter(g, ops, ops[i].id, x)
  }

  ghost predicate RemovedAfter(g: Graph, ops: seq<MergeOp>, id: Id, x: string) {
    exists j :: 0 <= j < |ops| && x in Removes(ops[j]) && Precedes(g, id, ops[j].id)
  }

  ghost predicate AreLabels(g: Graph, ops: seq<MergeOp>, labels: set<string>) {
    forall x :: x in labels <==> Labelled(g, ops, x)
  }

  ghost predicate IsLabelList(g: Graph, ops: seq<MergeOp>, list: seq<string>) {
    exists labels: set<string> :: AreLabels(g, ops, labels) && list == Sorted(labels)
  }

  /** A link holds the last type and the last relation written to its target. */
  predicate IsLink(ops: seq<MergeOp>, link: Link) {
    Latest(ops, TypeTo(link.target), link.targetType) && Latest(ops, RelationTo(link.target), link.relation)
  }

  predicate Shown(relation: string) { relation != "none" && relation != "" }

  /** Every target whose last relation is a real one is listed once, in order of target. */
  ghost predicate AreLinks(ops: seq<MergeOp>, links: seq<Link>) {
    && (forall i, j :: 0 <= i < j < |links| ==> Less(links[i].target, links[j].target))
    && forall link :: link in links <==> IsLink(ops, link) && Shown(link.relation)
  }

  ghost predicate IsDocument(g: Graph, ops: seq<MergeOp>, d: Document) {
    && Latest(ops, Title, d.title)
    && IsLabelList(g, ops, d.labels) && AreLinks(ops, d.links)
    && d.unknownOps == SetAside(ops, Accepted)
  }

  // ---- The fold ----

  datatype Tag = Tag(opId: Id, item: string)

  function TypeIn(links: map<string, Link>, t: string): string { if t in links then links[t].targetType else "" }

  function RelationIn(links: map<string, Link>, t: string): string { if t in links then links[t].relation else "" }

  ghost predicate Collected(ops: seq<MergeOp>, n: nat, title: string, unknownOps: seq<UnknownOp>) {
    n <= |ops| && Latest(ops[..n], Title, title) && unknownOps == SetAside(ops[..n], Accepted)
  }

  ghost predicate Linked(ops: seq<MergeOp>, n: nat, links: map<string, Link>) {
    && n <= |ops| && (forall t :: t in links ==> links[t].target == t)
    && forall t :: Latest(ops[..n], TypeTo(t), TypeIn(links, t)) && Latest(ops[..n], RelationTo(t), RelationIn(links, t))
  }

  ghost predicate Tagged(ops: seq<MergeOp>, n: nat, adds: set<Tag>, removes: set<Tag>) {
    && n <= |ops|
    && (forall t :: t in adds <==> exists i :: 0 <= i < n && ops[i].id == t.opId && t.item in Adds(ops[i]))
    && forall t :: t in removes <==> exists i :: 0 <= i < n && ops[i].id == t.opId && t.item in Removes(ops[i])
  }

  lemma LinkedStep(ops: seq<MergeOp>, n: nat, links: map<string, Link>, more: map<string, Link>)
    requires n < |ops| && Linked(ops, n, links) && forall t :: t in more ==> more[t].target == t
    requires forall t :: TypeIn(more, t) == if TypeTo(t)(ops[n]).Some? then TypeTo(t)(ops[n]).value else TypeIn(links, t)
    requires forall t :: RelationIn(more, t) == if RelationTo(t)(ops[n]).Some? then RelationTo(t)(ops[n]).value else RelationIn(links, t)
    ensures Linked(ops, n + 1, more)
  {
    hide Latest, TypeTo, RelationTo, TypeIn, RelationIn;
    forall t ensures Latest(ops[..n + 1], TypeTo(t), TypeIn(more, t)) && Latest(ops[..n + 1], RelationTo(t), RelationIn(more, t)) {
      LatestStep(ops, n, TypeTo(t), TypeIn(links, t));
      LatestStep(ops, n, RelationTo(t), RelationIn(links, t));
    }
  }

  lemma TaggedStep(ops: seq<MergeOp>, n: nat, adds: set<Tag>, removes: set<Tag>)
    requires n < |ops| && Tagged(ops, n, adds, removes)
    ensures Tagged(ops, n + 1, adds + Tags(ops[n].id, Adds(ops[n])), removes + Tags(ops[n].id, Removes(ops[n])))
  {
    hide Adds, Removes;
  }

  function Tags(id: Id, items: set<string>): set<Tag> { set x | x in items :: Tag(id, x) }

  /** What one accepted link op writes to its link. */
  method ApplyLink(op: MergeOp, links: map<string, Link>) returns (more: map<string, Link>)
    requires forall t :: t in links ==> links[t].target == t
    ensures forall t :: t in more ==> more[t].target == t
    ensures forall t :: TypeIn(more, t) == if TypeTo(t)(op).Some? then TypeTo(t)(op).value else TypeIn(links, t)
    ensures forall t :: RelationIn(more, t) == if RelationTo(t)(op).Some? then RelationTo(t)(op).value else RelationIn(links, t)
  {
    hide Accepted;
    more := links;
    if !Accepted(op) || op.opType != "link" {
      return;
    }
    var target := if "target" in op.body && op.body["target"].Str? then op.body["target"].s else "";
    if target != "" {
      var entry := if target in links then links[target] else Link(target, "", "");
      if "target_type" in op.body && op.body["target_type"].Str? { entry := entry.(targetType := op.body["target_type"].s); }
      if "relation" in op.body && op.body["relation"].Str? { entry := entry.(relation := op.body["relation"].s); }
      more := links[target := entry];
    }
  }

  method Labels(ghost g: Graph, reach: Reach, ghost ops: seq<MergeOp>, adds: set<Tag>, removes: set<Tag>) returns (list: seq<string>)
    requires Tells(g, reach, ops) && Tagged(ops, |ops|, adds, removes)
    ensures IsLabelList(g, ops, list)
  {
    var present := set a | a in adds && !(exists r :: r in removes && r.item == a.item && IsAncestor(reach, a.opId, r.opId)) :: a.item;
    PresentLabels(g, reach, ops, adds, removes, present);
    hide *;
    list := SortStrings(present);
    assert exists labels: set<string> :: AreLabels(g, ops, labels) && list == Sorted(labels);
    LabelList(g, ops, list);
  }

  lemma LabelList(g: Graph, ops: seq<MergeOp>, list: seq<string>)
    requires exists labels: set<string> :: AreLabels(g, ops, labels) && list == Sorted(labels)
    ensures IsLabelList(g, ops, list)
  {}

  lemma RemovedMeans(g: Graph, reach: Reach, ops: seq<MergeOp>, adds: set<Tag>, removes: set<Tag>, a: Tag)
    requires Tells(g, reach, ops) && Tagged(ops, |ops|, adds, removes) && a in adds
    ensures (exists r :: r in removes && r.item == a.item && IsAncestor(reach, a.opId, r.opId)) <==> RemovedAfter(g, ops, a.opId, a.item)
  {
    hide Adds, Removes, Precedes, IsAncestor;
    var i :| 0 <= i < |ops| && ops[i].id == a.opId && a.item in Adds(ops[i]);
    if r :| r in removes && r.item == a.item && IsAncestor(reach, a.opId, r.opId) {
      var j :| 0 <= j < |ops| && ops[j].id == r.opId && r.item in Removes(ops[j]);
      assert Precedes(g, ops[i].id, ops[j].id);
    }
    if RemovedAfter(g, ops, a.opId, a.item) {
      var j :| 0 <= j < |ops| && a.item in Removes(ops[j]) && Precedes(g, a.opId, ops[j].id);
      assert IsAncestor(reach, ops[i].id, ops[j].id);
      assert Tag(ops[j].id, a.item) in removes;
    }
  }

  lemma PresentLabels(g: Graph, reach: Reach, ops: seq<MergeOp>, adds: set<Tag>, removes: set<Tag>, present: set<string>)
    requires Tells(g, reach, ops) && Tagged(ops, |ops|, adds, removes)
    requires forall x :: x in present <==>
               exists a :: a in adds && a.item == x && !(exists r :: r in removes && r.item == a.item && IsAncestor(reach, a.opId, r.opId))
    ensures AreLabels(g, ops, present)
  {
    hide Adds, Removes, IsAncestor, Tells;
    forall a | a in adds
      ensures (exists r :: r in removes && r.item == a.item && IsAncestor(reach, a.opId, r.opId)) <==> RemovedAfter(g, ops, a.opId, a.item)
    {
      RemovedMeans(g, reach, ops, adds, removes, a);
    }
    hide RemovedAfter;
    forall x ensures x in present <==> Labelled(g, ops, x) {
      if x in present {
        var a :| a in adds && a.item == x && !RemovedAfter(g, ops, a.opId, a.item);
        var i :| 0 <= i < |ops| && ops[i].id == a.opId && a.item in Adds(ops[i]);
      }
      if Labelled(g, ops, x) {
        var i :| 0 <= i < |ops| && x in Adds(ops[i]) && !RemovedAfter(g, ops, ops[i].id, x);
        assert Tag(ops[i].id, x) in adds;
      }
    }
  }

  method ListLinks(ghost ops: seq<MergeOp>, links: map<string, Link>) returns (list: seq<Link>)
    requires Linked(ops, |ops|, links)
    ensures AreLinks(ops, list)
  {
    var targets := SortStrings(set t | t in links && Shown(links[t].relation));
    hide Latest, Less;
    list := [];
    for i := 0 to |targets|
      invariant |list| == i && forall k :: 0 <= k < i ==> targets[k] in links && list[k] == links[targets[k]]
    {
      assert targets[i] in targets;
      list := list + [links[targets[i]]];
    }
    LinksListed(ops, links, targets, list);
  }

  /** A link is in the map exactly as the ops say it. */
  lemma LinkIsEntry(ops: seq<MergeOp>, links: map<string, Link>, link: Link)
    requires Linked(ops, |ops|, links) && IsLink(ops, link) && Shown(link.relation)
    ensures link.target in links && links[link.target] == link
  {
    assert ops[..|ops|] == ops;
    hide Latest;
    OneLatest(ops, TypeTo(link.target), link.targetType, TypeIn(links, link.target));
    OneLatest(ops, RelationTo(link.target), link.relation, RelationIn(links, link.target));
  }

  lemma EntryIsLink(ops: seq<MergeOp>, links: map<string, Link>, t: string)
    requires Linked(ops, |ops|, links) && t in links
    ensures links[t].target == t && IsLink(ops, links[t])
  {
    assert ops[..|ops|] == ops;
    hide Latest;
    assert Latest(ops[..|ops|], TypeTo(t), TypeIn(links, t));
  }

  lemma LinksListed(ops: seq<MergeOp>, links: map<string, Link>, targets: seq<string>, list: seq<Link>)
    requires Linked(ops, |ops|, links) && targets == Sorted(set t | t in links && Shown(links[t].relation))
    requires |list| == |targets| && forall k :: 0 <= k < |list| ==> targets[k] in links && list[k] == links[targets[k]]
    ensures AreLinks(ops, list)
  {
    var kept := set t | t in links && Shown(links[t].relation);
    assert SortedListOf(Less, targets, kept);
    forall k | 0 <= k < |list| ensures list[k].target == targets[k] && IsLink(ops, list[k]) && Shown(list[k].relation) {
      assert targets[k] in targets;
      EntryIsLink(ops, links, targets[k]);
    }
    hide Less, Shown, Linked, IsLink;
    forall link | IsLink(ops, link) && Shown(link.relation) ensures link in list {
      LinkIsEntry(ops, links, link);
      assert link.target in kept && link.target in targets;
      var k :| 0 <= k < |targets| && targets[k] == link.target;
      assert list[k] == link;
    }
  }

  /** Folds the ops of one document, in total order. */
  method FoldOrdered(ghost g: Graph, reach: Reach, ops: seq<MergeOp>) returns (d: Document)
    requires Tells(g, reach, ops)
    ensures IsDocument(g, ops, d)
  {
    var title, unknownOps, links := "", [], map[];
    var adds: set<Tag>, removes: set<Tag> := {}, {};
    for i := 0 to |ops|
      invariant Collected(ops, i, title, unknownOps) && Linked(ops, i, links) && Tagged(ops, i, adds, removes)
    {
      var op := ops[i];
      hide Latest, SetAside, Linked, Tagged, Adds, Removes, Tells, TypeTo, RelationTo, TypeIn, RelationIn, Uninterpretable;
      LatestStep(ops, i, Title, title);
      SetAsideStep(ops, i, Accepted);
      TaggedStep(ops, i, adds, removes);
      LinkTargets(ops, i, links);
      var more := ApplyLink(op, links);
      LinkedStep(ops, i, links, more);
      links := more;
      adds, removes := adds + Tags(op.id, Adds(op)), removes + Tags(op.id, Removes(op));
      if !Accepted(op) {
        unknownOps := unknownOps + [Record(op)];
      } else if op.opType in {"create", "update"} && "title" in op.body && op.body["title"].Str? {
        title := op.body["title"].s;
      }
    }
    assert ops[..|ops|] == ops;
    hide Linked, Tagged, Tells, IsLabelList, AreLinks, Latest;
    var labels := Labels(g, reach, ops, adds, removes);
    var list := ListLinks(ops, links);
    d := Document(title, labels, list, unknownOps);
  }

  lemma LinkTargets(ops: seq<MergeOp>, n: nat, links: map<string, Link>)
    requires Linked(ops, n, links)
    ensures forall t :: t in links ==> links[t].target == t
  {}

  // ---- What the fold says ----

  lemma OneDocument(g: Graph, ops: seq<MergeOp>, a: Document, b: Document)
    requires IsDocument(g, ops, a) && IsDocument(g, ops, b)
    ensures a == b
  {
    hide Latest, Labelled, IsLink;
    OneLatest(ops, Title, a.title, b.title);
    var x: set<string> :| AreLabels(g, ops, x) && a.labels == Sorted(x);
    var y: set<string> :| AreLabels(g, ops, y) && b.labels == Sorted(y);
    assert x == y;
    LinksUnique(ops, a.links, b.links);
  }

  predicate LinkLess(a: Link, b: Link) { Less(a.target, b.target) }

  lemma LinksUnique(ops: seq<MergeOp>, a: seq<Link>, b: seq<Link>)
    requires AreLinks(ops, a) && AreLinks(ops, b)
    ensures a == b
  {
    var items := set link | link in a;
    LinksTotal(a, items);
    hide Less, IsLink, Shown, StrictTotal;
    assert SortedListOf(LinkLess, a, items) && SortedListOf(LinkLess, b, items);
    SortedListUnique(LinkLess, a, b, items);
  }

  lemma LinksTotal(list: seq<Link>, items: set<Link>)
    requires (forall i, j :: 0 <= i < j < |list| ==> Less(list[i].target, list[j].target)) && items == set link | link in list
    ensures StrictTotal(LinkLess, items)
  {
    hide Less;
    forall a, b | a in items && b in items ensures !LinkLess(a, a) && (a != b ==> LinkLess(a, b) || LinkLess(b, a)) {
      LessIrreflexive(a.target);
      var i :| 0 <= i < |list| && list[i] == a;
      var j :| 0 <= j < |list| && list[j] == b;
    }
    forall a, b, c | LinkLess(a, b) && LinkLess(b, c) ensures LinkLess(a, c) {
      LessTransitive(a.target, b.target, c.target);
    }
  }

  /** A document's ops in total order, and the state they fold to. */
  ghost predicate DocumentOf(s: OpSet, objectID: string, order: seq<Id>, d: Document) {
    && OrderOf(s, objectID, order) && (forall id :: id in order ==> id in s && s[id].id == id)
    && IsDocument(DagOf(s, objectID), OpsOf(s, order), d)
  }

  /** The appended op saw every add, so what it removes is gone unless it adds it itself; nothing saw the
    * appended op, so what it adds is there.
    */
  lemma LabelsAfterAppend(g: Graph, g': Graph, ops: seq<MergeOp>, op: MergeOp, x: string)
    requires OnTopOf(g, g', ops, op)
    ensures Labelled(g', ops + [op], x) <==> x in Adds(op) || (Labelled(g, ops, x) && x !in Removes(op))
  {
    hide Precedes, Adds, Removes;
    var longer := ops + [op];
    assert longer[|ops|] == op && forall i :: 0 <= i < |ops| ==> longer[i] == ops[i];
    forall i | 0 <= i < |ops| ensures RemovedAfter(g', longer, ops[i].id, x) <==> RemovedAfter(g, ops, ops[i].id, x) || x in Removes(op) {
      if x in Removes(op) { assert Precedes(g', longer[i].id, longer[|ops|].id); }
      if RemovedAfter(g, ops, ops[i].id, x) {
        var j :| 0 <= j < |ops| && x in Removes(ops[j]) && Precedes(g, ops[i].id, ops[j].id);
        assert x in Removes(longer[j]) && Precedes(g', longer[i].id, longer[j].id);
      }
    }
    assert !RemovedAfter(g', longer, op.id, x);
    hide RemovedAfter, OnTopOf;
    if Labelled(g, ops, x) {
      var i :| 0 <= i < |ops| && x in Adds(ops[i]) && !RemovedAfter(g, ops, ops[i].id, x);
      assert x in Adds(longer[i]);
    }
  }

  lemma LinkAfterAppend(ops: seq<MergeOp>, op: MergeOp, link: Link)
    requires IsLink(ops, link)
    ensures IsLink(ops + [op], link.(targetType := if TypeTo(link.target)(op).Some? then TypeTo(link.target)(op).value else link.targetType,
                                     relation := if RelationTo(link.target)(op).Some? then RelationTo(link.target)(op).value else link.relation))
  {
    hide Latest, TypeTo, RelationTo;
    LatestAppend(ops, op, TypeTo(link.target), link.targetType);
    LatestAppend(ops, op, RelationTo(link.target), link.relation);
  }

  lemma LabelListMembers(g: Graph, ops: seq<MergeOp>, list: seq<string>)
    requires IsLabelList(g, ops, list)
    ensures forall x :: x in list <==> Labelled(g, ops, x)
  {
    hide Labelled;
    var labels: set<string> :| AreLabels(g, ops, labels) && list == Sorted(labels);
    assert SortedListOf(Less, list, labels);
  }

  lemma LinkExists(ops: seq<MergeOp>, t: string) returns (link: Link)
    ensures link.target == t && IsLink(ops, link)
  {
    var a := LatestExists(ops, TypeTo(t));
    var b := LatestExists(ops, RelationTo(t));
    link := Link(t, a, b);
  }

  lemma OneLink(ops: seq<MergeOp>, a: Link, b: Link)
    requires IsLink(ops, a) && IsLink(ops, b) && a.target == b.target
    ensures a == b
  {
    hide Latest;
    OneLatest(ops, TypeTo(a.target), a.targetType, b.targetType);
    OneLatest(ops, RelationTo(a.target), a.relation, b.relation);
  }

  /** An op that does not write to a target leaves its link as it was. */
  lemma OtherLinksStay(ops: seq<MergeOp>, op: MergeOp, link: Link)
    requires !Targets(op, link.target)
    ensures IsLink(ops + [op], link) <==> IsLink(ops, link)
  {
    var was := LinkExists(ops, link.target);
    LinkAfterAppend(ops, op, was);
    assert TypeTo(link.target)(op).None? && RelationTo(link.target)(op).None?;
    hide IsLink;
    if IsLink(ops, link) { OneLink(ops, was, link); }
    if IsLink(ops + [op], link) { OneLink(ops + [op], was, link); }
  }

  lemma WrittenLink(ops: seq<MergeOp>, op: MergeOp, t: string, r: string) returns (link: Link)
    requires RelationTo(t)(op) == Some(r)
    ensures link.target == t && link.relation == r && IsLink(ops + [op], link)
  {
    var was := LinkExists(ops, t);
    LinkAfterAppend(ops, op, was);
    link := was.(targetType := if TypeTo(t)(op).Some? then TypeTo(t)(op).value else was.targetType, relation := r);
  }

  /** What the op adds is there, what it only removes is gone, and every other label is as it was. */
  ghost predicate LabelsFollow(op: MergeOp, before: seq<string>, after: seq<string>) {
    forall l :: l in after <==> l in Adds(op) || (l in before && l !in Removes(op))
  }

  /** A link the op writes has its relation, or is gone if that is `none` or empty; every other link is as it
    * was.
    */
  ghost predicate LinksFollow(op: MergeOp, before: seq<Link>, after: seq<Link>) {
    && (forall link: Link :: !Targets(op, link.target) ==> (link in after <==> link in before))
    && forall t, r :: RelationTo(t)(op) == Some(r) ==> Related(after, t, r)
  }

  ghost predicate Related(links: seq<Link>, t: string, r: string) {
    && (Shown(r) <==> exists link :: link in links && link.target == t)
    && forall link :: link in links && link.target == t ==> link.relation == r
  }

  /** An op appended from the frontier does what it says, whatever its clock and whatever went on before. */
  lemma LabelAndLink(s: OpSet, objectID: string, op: MergeOp, order: seq<Id>, x: Document, y: Document)
    requires OnFrontier(s, objectID, op) && DocumentOf(s, objectID, order, x)
    requires DocumentOf(Appended(s, op), objectID, order + [op.id], y)
    ensures y.title == if Title(op).Some? then Title(op).value else x.title
    ensures LabelsFollow(op, x.labels, y.labels) && LinksFollow(op, x.links, y.links)
  {
    NotStored(s, objectID, op);
    OpsAfterAppend(s, op, order);
    AppendOnTop(s, objectID, op, order);
    assert IsDocument(DagOf(s, objectID), OpsOf(s, order), x);
    assert IsDocument(DagOf(Appended(s, op), objectID), OpsOf(s, order) + [op], y);
    hide *;
    var g, g', ops := DagOf(s, objectID), DagOf(Appended(s, op), objectID), OpsOf(s, order);
    TitleChange(g, g', ops, op, x, y);
    LabelChange(g, g', ops, op, x, y);
    LinkChange(g, g', ops, op, x, y);
  }

  lemma TitleChange(g: Graph, g': Graph, ops: seq<MergeOp>, op: MergeOp, x: Document, y: Document)
    requires IsDocument(g, ops, x) && IsDocument(g', ops + [op], y)
    ensures y.title == if Title(op).Some? then Title(op).value else x.title
  {
    hide Latest, AreLinks, IsLabelList, Title;
    LatestAppend(ops, op, Title, x.title);
    OneLatest(ops + [op], Title, y.title, if Title(op).Some? then Title(op).value else x.title);
  }

  lemma LabelChange(g: Graph, g': Graph, ops: seq<MergeOp>, op: MergeOp, x: Document, y: Document)
    requires OnTopOf(g, g', ops, op) && IsDocument(g, ops, x) && IsDocument(g', ops + [op], y)
    ensures LabelsFollow(op, x.labels, y.labels)
  {
    hide OnTopOf, Latest, AreLinks, IsLabelList, Labelled, Adds, Removes;
    LabelListMembers(g, ops, x.labels);
    LabelListMembers(g', ops + [op], y.labels);
    forall l ensures l in y.labels <==> l in Adds(op) || (l in x.labels && l !in Removes(op)) {
      LabelsAfterAppend(g, g', ops, op, l);
    }
  }

  lemma LinkChange(g: Graph, g': Graph, ops: seq<MergeOp>, op: MergeOp, x: Document, y: Document)
    requires IsDocument(g, ops, x) && IsDocument(g', ops + [op], y)
    ensures LinksFollow(op, x.links, y.links)
  {
    assert AreLinks(ops, x.links) && AreLinks(ops + [op], y.links);
    hide IsDocument, IsLink, Targets, RelationTo, Shown;
    forall link: Link | !Targets(op, link.target) ensures link in y.links <==> link in x.links {
      OtherLinksStay(ops, op, link);
    }
    forall t, r | RelationTo(t)(op) == Some(r) ensures Related(y.links, t, r) {
      var written := WrittenLink(ops, op, t, r);
      forall link | link in y.links && link.target == t ensures link == written {
        OneLink(ops + [op], link, written);
      }
      if Shown(r) { assert written in y.links; }
    }
  }

  // ---- From the ops as they are listed ----

  datatype Outcome = Folded(value: Document) | Failed(failure: EngineOrder.Failure)

  const EMPTY := Document("", [], [], [])

  /** What a document's ops fold to, however they are listed. */
  ghost predicate IsFolded(ops: seq<MergeOp>, r: Outcome) {
    if ops == [] then r == Folded(EMPTY)
    else
      && (r.Folded? <==> Orderable(ops))
      && match r
         case Folded(x) => exists order :: DocumentOf(OpSetOf(ops), ops[0].objectID, order, x)
         case Failed(failure) => EngineOrder.IsOutcome(OrderOps(ops), EngineOrder.Failed(failure))
  }

  /** Folds a document's ops, listed in any order: it fails for the first foreign or repeated op, or on a cycle. */
  method FoldDocument(ops: seq<MergeOp>) returns (r: Outcome)
    ensures IsFolded(ops, r)
  {
    if |ops| == 0 {
      return Folded(EMPTY);
    }
    hide *;
    var prepared := OrderAndReach(ops);
    if prepared.Unordered? {
      r := Failed(prepared.failure);
    } else {
      ghost var order :| ReadyAs(ops, order, prepared.ops, prepared.reach);
      ghost var g := DagOf(OpSetOf(ops), ops[0].objectID);
      ReadyTells(ops, order, prepared.ops, prepared.reach);
      var x := FoldOrdered(g, prepared.reach, prepared.ops);
      FoldedAs(ops, order, prepared.ops, prepared.reach, x);
      r := Folded(x);
    }
    Concludes(ops, r);
  }

  lemma {:induction false} Concludes(ops: seq<MergeOp>, r: Outcome)
    requires ops != [] && (r.Folded? <==> Orderable(ops))
    requires r.Folded? ==> exists order :: DocumentOf(OpSetOf(ops), ops[0].objectID, order, r.value)
    requires r.Failed? ==> EngineOrder.IsOutcome(OrderOps(ops), EngineOrder.Failed(r.failure))
    ensures IsFolded(ops, r)
  {
    hide DocumentOf, Orderable, EngineOrder.IsOutcome;
  }

  lemma {:induction false} FoldedAs(ops: seq<MergeOp>, order: seq<Id>, ordered: seq<MergeOp>, reach: Reach, x: Document)
    requires ops != [] && ReadyAs(ops, order, ordered, reach) && IsDocument(DagOf(OpSetOf(ops), ops[0].objectID), ordered, x)
    ensures exists order :: DocumentOf(OpSetOf(ops), ops[0].objectID, order, x)
  {
    hide OpSetOf, DagOf, OrderOf, IsDocument, Tells;
    assert DocumentOf(OpSetOf(ops), ops[0].objectID, order, x);
  }

  /** Replicas that list the same ops in different orders fold the same document, or both fail. */
  lemma {:induction false} DocumentConverges(a: seq<MergeOp>, b: seq<MergeOp>, ra: Outcome, rb: Outcome)
    requires DistinctOps(a) && DistinctOps(b) && multiset(a) == multiset(b)
    requires IsFolded(a, ra) && IsFolded(b, rb)
    ensures ra.Folded? <==> rb.Folded?
    ensures ra.Folded? ==> ra == rb
  {
    SameEmptiness(a, b);
    hide OpSetOf, DagOf, DistinctOps, Orderable, DocumentOf, EngineOrder.IsOutcome;
    if Orderable(a) { SameVerdict(a, b); }
    if Orderable(b) { SameVerdict(b, a); }
    if a != [] && Orderable(a) {
      var x :| DocumentOf(OpSetOf(a), a[0].objectID, x, ra.value);
      var y :| DocumentOf(OpSetOf(b), b[0].objectID, y, rb.value);
      OneDocumentOf(OpSetOf(a), a[0].objectID, x, y, ra.value, rb.value);
    }
  }

  lemma {:induction false} OneDocumentOf(s: OpSet, objectID: string, x: seq<Id>, y: seq<Id>, a: Document, b: Document)
    requires DocumentOf(s, objectID, x, a) && DocumentOf(s, objectID, y, b)
    ensures a == b
  {
    hide OrderOf, IsDocument, DagOf;
    OrderUnique(s, objectID, x, y);
    OneDocument(DagOf(s, objectID), OpsOf(s, x), a, b);
  }
}
