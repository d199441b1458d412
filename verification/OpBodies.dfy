/** What an op says, read off its type and its body alone: which rules govern it, which values they can consume,
  * what it adds and removes, and which ops its author had seen.
  */
module OpBodies {
  import opened CausalGraph
  import opened FoldRules
  import opened Fold

  /** A text, alone or as one of a list. */
  predicate Mentions(v: Value, x: string) { v == Str(x) || (v.List? && Str(x) in v.items) }

  /** A text, or a list of nothing but texts. */
  predicate TextOrTexts(v: Value) { v.Str? || (v.List? && forall item :: item in v.items ==> item.Str?) }

  predicate Mentioned(body: Body, field: string, x: string) { field in body && Mentions(body[field], x) }

  /** Mentioned under `side` of the object at `field`. */
  predicate MentionedIn(body: Body, field: string, side: string, x: string) {
    field in body && body[field].Object? && Mentioned(body[field].members, side, x)
  }

  predicate StartsWith(s: string, prefix: string) { |prefix| <= |s| && s[..|prefix|] == prefix }

  /** What an op adds to a set through a rule on `field`. Under a rule on `add` or `remove` both members count; a value
    * at any other field names its sides itself, or the op's type does.
    */
  predicate AddsItem(op: MergeOp, field: string, x: string) {
    if field == "add" || field == "remove" then
      Mentioned(op.body, "add", x) || MentionedIn(op.body, "add", "add", x) || MentionedIn(op.body, "remove", "add", x)
    else
      || MentionedIn(op.body, field, "add", x)
      || (Mentioned(op.body, field, x) && (op.opType == "add" || StartsWith(op.opType, "add-")))
  }

  predicate RemovesItem(op: MergeOp, field: string, x: string) {
    if field == "add" || field == "remove" then
      Mentioned(op.body, "remove", x) || MentionedIn(op.body, "remove", "remove", x) || MentionedIn(op.body, "add", "remove", x)
    else
      || MentionedIn(op.body, field, "remove", x)
      || (Mentioned(op.body, field, x) && (op.opType == "remove" || StartsWith(op.opType, "remove-")))
  }

  lemma {:induction false} TextsMean(items: seq<Value>, x: string)
    ensures x in StringsIn(items) <==> Str(x) in items
  {
    if items == [] {
    } else {
      var n := |items| - 1;
      assert items == items[..n] + [items[n]];
      TextsMean(items[..n], x);
    }
  }

  lemma ItemsMean(v: Value, x: string)
    ensures x in ItemsOf(v) <==> Mentions(v, x)
  {
    if v.List? { TextsMean(v.items, x); }
  }

  lemma FieldItems(body: Body, field: string, x: string)
    ensures x in ItemsOf(Field(body, field)) <==> Mentioned(body, field, x)
  {
    ItemsMean(Field(body, field), x);
    assert ItemsOf(Null) == [];
  }

  /** Both sides an op's write has, item by item. */
  lemma SidesMean(op: MergeOp, r: FieldRule, x: string)
    ensures x in SidesOf(op, r).0 <==> AddsItem(op, r.field, x)
    ensures x in SidesOf(op, r).1 <==> RemovesItem(op, r.field, x)
  {
    SideItems(op.body, "add", x);
    SideItems(op.body, "remove", x);
    SideItems(op.body, r.field, x);
    hide ItemsOf;
    if r.field == "add" || r.field == "remove" {
    } else {
      PrefixMeans(op.opType, "add-");
      PrefixMeans(op.opType, "remove-");
      KindsApart(op.opType);
    }
  }

  lemma PrefixMeans(s: string, prefix: string)
    ensures HasPrefix(s, prefix) <==> StartsWith(s, prefix)
  {}

  lemma KindsApart(s: string)
    ensures !((s == "add" || StartsWith(s, "add-")) && (s == "remove" || StartsWith(s, "remove-")))
  {
    if s == "add" || StartsWith(s, "add-") { assert s[0] == 'a'; }
    if s == "remove" || StartsWith(s, "remove-") { assert s[0] == 'r'; }
  }

  lemma SideItems(body: Body, field: string, x: string)
    ensures x in ItemsOf(Field(body, field)) <==> Mentioned(body, field, x)
    ensures Field(body, field).Object? ==> (x in ItemsOf(Field(Field(body, field).members, "add")) <==> MentionedIn(body, field, "add", x))
    ensures Field(body, field).Object? ==> (x in ItemsOf(Field(Field(body, field).members, "remove")) <==> MentionedIn(body, field, "remove", x))
    ensures Field(body, field).Object? ==> !Mentioned(body, field, x)
    ensures !Field(body, field).Object? ==> !MentionedIn(body, field, "add", x) && !MentionedIn(body, field, "remove", x)
  {
    FieldItems(body, field, x);
    if Field(body, field).Object? {
      FieldItems(Field(body, field).members, "add", x);
      FieldItems(Field(body, field).members, "remove", x);
    }
  }

  // ---- Which ops count ----

  /** The rule is for this type and version of op; an empty type and a zero version stand for any. */
  predicate Governs(r: FieldRule, op: MergeOp) {
    && (r.opType == "" || r.opType == op.opType)
    && (r.opVersion == 0 || op.opVersion == 0 || r.opVersion == op.opVersion)
  }

  /** A side of a set: texts, or an object whose sides are texts. */
  predicate SetSide(v: Value) {
    TextOrTexts(v) || (v.Object? && forall side :: (side == "add" || side == "remove") && side in v.members ==> TextOrTexts(v.members[side]))
  }

  /** The values a strategy can do something with. */
  predicate Fits(strategy: Strategy, v: Value) {
    match strategy
    case Lww => !v.Null?
    case CreateOnce => !v.Null?
    case KeyedLww => !v.Null?
    case Append => !v.Null? && (v.List? ==> Null !in v.items)
    case SetUnion => TextOrTexts(v)
    case ObservedRemove => SetSide(v)
    case Tombstone => v.Bool?
    case Lattice => v.Str?
    case MultiValue => v.Str?
  }

  /** What the rule would read in the body is absent or fits. */
  predicate Readable(r: FieldRule, body: Body) {
    if r.strategy == ObservedRemove && (r.field == "add" || r.field == "remove") then
      ("add" in body ==> SetSide(body["add"])) && ("remove" in body ==> SetSide(body["remove"]))
    else
      && (r.field in body ==> Fits(r.strategy, body[r.field]))
      && (r.strategy == KeyedLww ==> forall f :: f in r.key && f in body ==> body[f].Str?)
  }

  /** An op counts when some rule governs it and it is readable to every rule that does. */
  predicate Counts(op: MergeOp, rules: seq<FieldRule>) {
    (exists r :: r in rules && Governs(r, op)) && forall r :: r in rules && Governs(r, op) ==> Readable(r, op.body)
  }

  lemma GovernsMeans(r: FieldRule, op: MergeOp)
    ensures OpMatchesRule(op, r) <==> Governs(r, op)
  {}

  lemma SideMeans(v: Value)
    ensures MemberAccepts(v) <==> SetSide(v)
  {
    TextsAccepted(v);
    if v.Object? && "add" in v.members { TextsAccepted(v.members["add"]); }
    if v.Object? && "remove" in v.members { TextsAccepted(v.members["remove"]); }
    assert v.Object? ==> !TextOrTexts(v);
    hide IsStringOrStrings, TextOrTexts;
  }

  lemma TextsAccepted(v: Value)
    ensures IsStringOrStrings(v) <==> TextOrTexts(v)
  {
    if v.List? && TextOrTexts(v) {
      forall i | 0 <= i < |v.items| ensures v.items[i].Str? { assert v.items[i] in v.items; }
    }
  }

  lemma ReadableMeans(r: FieldRule, body: Body)
    ensures RuleAccepts(r, body) <==> Readable(r, body)
  {
    if "add" in body { SideMeans(body["add"]); }
    if "remove" in body { SideMeans(body["remove"]); }
    if r.field in body {
      SideMeans(body[r.field]);
      TextsAccepted(body[r.field]);
    }
    hide MemberAccepts, SetSide, IsStringOrStrings, TextOrTexts;
  }

  lemma KnownMeans(op: MergeOp, rules: seq<FieldRule>)
    ensures Known(op, rules) <==> exists r :: r in rules && Governs(r, op)
  {
    if Known(op, rules) {
      var i :| 0 <= i < |rules| && OpMatchesRule(op, rules[i]);
      assert rules[i] in rules;
    }
    if r :| r in rules && Governs(r, op) {
      var i :| 0 <= i < |rules| && rules[i] == r;
    }
  }

  lemma UninterpretableMeans(op: MergeOp, rules: seq<FieldRule>)
    ensures Uninterpretable(op, rules) <==> exists r :: r in rules && Governs(r, op) && !Readable(r, op.body)
  {
    forall r ensures (OpMatchesRule(op, r) <==> Governs(r, op)) && (RuleAccepts(r, op.body) <==> Readable(r, op.body)) {
      GovernsMeans(r, op);
      ReadableMeans(r, op.body);
    }
    hide OpMatchesRule, Governs, RuleAccepts, Readable;
    if r :| r in rules && Governs(r, op) && !Readable(r, op.body) {
      var i :| 0 <= i < |rules| && rules[i] == r;
    }
  }

  /** The op is reduced exactly when it counts; otherwise it is set aside. */
  lemma CountsMeans(op: MergeOp, rules: seq<FieldRule>)
    ensures Reducible(op, rules) <==> Counts(op, rules)
  {
    KnownMeans(op, rules);
    UninterpretableMeans(op, rules);
    hide Known, Uninterpretable, Governs, Readable;
  }

  // ---- What an author had seen ----

  /** Each op of the chain names the next one, of the same object, as a parent. */
  ghost predicate ParentChain(s: OpSet, objectID: string, chain: seq<Id>) {
    && (forall i :: 0 <= i < |chain| ==> chain[i] in s && s[chain[i]].objectID == objectID)
    && forall i :: 0 <= i < |chain| - 1 ==> chain[i + 1] in s[chain[i]].parents
  }

  /** Following parents from `b` leads to `a`. */
  ghost predicate Saw(s: OpSet, objectID: string, b: Id, a: Id) {
    exists chain: seq<Id> :: |chain| > 1 && chain[0] == b && chain[|chain| - 1] == a && ParentChain(s, objectID, chain)
  }

  lemma {:induction false} ChainReaches(s: OpSet, objectID: string, chain: seq<Id>)
    requires chain != [] && ParentChain(s, objectID, chain)
    ensures Reaches(DagOf(s, objectID), chain[|chain| - 1], chain[0], |chain| - 1)
    decreases |chain|
  {
    if |chain| == 1 {
    } else {
      ChainReaches(s, objectID, chain[1..]);
      assert chain[0] in Members(s, objectID) && chain[1] in Members(s, objectID);
      assert chain[1] in s[chain[0]].parents;
      assert chain[1] in DagOf(s, objectID)[chain[0]].parents;
    }
  }

  lemma {:induction false} ReachesChain(s: OpSet, objectID: string, a: Id, b: Id, n: nat) returns (chain: seq<Id>)
    requires Reaches(DagOf(s, objectID), a, b, n) && b in Members(s, objectID)
    ensures |chain| == n + 1 && chain[0] == b && chain[n] == a && ParentChain(s, objectID, chain)
    decreases n
  {
    hide DagOf, Members;
    if n == 0 {
      OnlyOp(s, objectID, b);
      chain := [b];
    } else {
      var p :| p in DagOf(s, objectID)[b].parents && Reaches(DagOf(s, objectID), a, p, n - 1);
      hide Reaches, ParentChain;
      EdgeMeans(s, objectID, b, p);
      var rest := ReachesChain(s, objectID, a, p, n - 1);
      ChainOnto(s, objectID, b, rest);
      chain := [b] + rest;
    }
  }

  lemma OnlyOp(s: OpSet, objectID: string, b: Id)
    requires b in Members(s, objectID)
    ensures ParentChain(s, objectID, [b])
  {}

  lemma EdgeMeans(s: OpSet, objectID: string, b: Id, p: Id)
    requires b in Members(s, objectID)
    ensures b in s && b in DagOf(s, objectID) && (p in DagOf(s, objectID)[b].parents <==> p in s[b].parents && p in Members(s, objectID))
  {}

  lemma ChainOnto(s: OpSet, objectID: string, b: Id, rest: seq<Id>)
    requires b in Members(s, objectID) && rest != [] && rest[0] in s[b].parents && ParentChain(s, objectID, rest)
    ensures ParentChain(s, objectID, [b] + rest)
  {}

  lemma SawMeans(s: OpSet, objectID: string, b: Id, a: Id)
    ensures Precedes(DagOf(s, objectID), a, b) <==> Saw(s, objectID, b, a)
  {
    if chain: seq<Id> :| |chain| > 1 && chain[0] == b && chain[|chain| - 1] == a && ParentChain(s, objectID, chain) {
      ChainReaches(s, objectID, chain);
    }
    if Precedes(DagOf(s, objectID), a, b) {
      var n: nat :| n > 0 && Reaches(DagOf(s, objectID), a, b, n);
      var chain := ReachesChain(s, objectID, a, b, n);
    }
  }
}
