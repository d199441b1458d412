/** Op bodies, the declared field rules, and which ops a fold must set aside. */
module FoldRules {
  import opened CausalGraph

  /** A decoded JSON value. Objects and lists are opaque below their immediate members. */
  datatype Value =
    | Null
    | Bool(b: bool)
    | Number(n: real)
    | Str(s: string)
    | List(items: seq<Value>)
    | Object(members: map<string, Value>)

  type Body = map<string, Value>

  datatype MergeOp = MergeOp(id: Id, parents: seq<Id>, time: int, objectID: string, objectType: string,
                             opType: string, opVersion: int, authorEmail: string, body: Body)

  datatype Strategy = Lww | CreateOnce | SetUnion | ObservedRemove | Append | Tombstone | Lattice | KeyedLww | MultiValue

  datatype FieldRule = FieldRule(opType: string, opVersion: int, field: string, target: string, strategy: Strategy,
                                 key: seq<string>, lattice: seq<string>,
                                 normalizeValue: bool, normalizeItems: bool, normalizeKey: seq<string>)
  {
    function TargetKey(): string { if target != "" then target else field }

    predicate IsSide() { field == "add" || field == "remove" }
  }

  datatype UnknownOp = UnknownOp(commit: Id, objectType: string, opType: string, opVersion: int)

  function Record(op: MergeOp): UnknownOp {
    UnknownOp(op.id, op.objectType, op.opType, op.opVersion)
  }

  /** An empty op type or a zero version on the rule, or a zero version on the op, matches anything. */
  predicate OpMatchesRule(op: MergeOp, r: FieldRule) {
    && (r.opType != "" ==> r.opType == op.opType)
    && (r.opVersion != 0 && op.opVersion != 0 ==> r.opVersion == op.opVersion)
  }

  /** Go's map lookup on a body: an absent field reads as nil. */
  function Field(body: Body, f: string): Value { if f in body then body[f] else Null }

  predicate IsStringOrStrings(v: Value) {
    v.Str? || (v.List? && forall i :: 0 <= i < |v.items| ==> v.items[i].Str?)
  }

  /** One side of an OR-set write, as it may appear under `add` or `remove`. */
  predicate SideAccepts(body: Body, side: string) {
    side in body ==> MemberAccepts(body[side])
  }

  predicate MemberAccepts(v: Value) {
    if v.Object? then
      && ("add" in v.members ==> IsStringOrStrings(v.members["add"]))
      && ("remove" in v.members ==> IsStringOrStrings(v.members["remove"]))
    else IsStringOrStrings(v)
  }

  /** Whether the body carries a value the rule's strategy can consume. */
  predicate RuleAccepts(r: FieldRule, body: Body) {
    && (r.strategy.KeyedLww? ==> forall i :: 0 <= i < |r.key| && r.key[i] in body ==> body[r.key[i]].Str?)
    && if r.strategy.ObservedRemove? && r.IsSide() then
         SideAccepts(body, "add") && SideAccepts(body, "remove")
       else
         r.field in body ==>
           var v := body[r.field];
           match r.strategy
           case Lww => v != Null
           case CreateOnce => v != Null
           case KeyedLww => v != Null
           case Append => v != Null && (v.List? ==> forall i :: 0 <= i < |v.items| ==> v.items[i] != Null)
           case SetUnion => IsStringOrStrings(v)
           case ObservedRemove => MemberAccepts(v)
           case Tombstone => v.Bool?
           case Lattice => v.Str?
           case MultiValue => v.Str?
  }

  predicate Known(op: MergeOp, rules: seq<FieldRule>) {
    exists i :: 0 <= i < |rules| && OpMatchesRule(op, rules[i])
  }

  predicate Uninterpretable(op: MergeOp, rules: seq<FieldRule>) {
    exists i :: 0 <= i < |rules| && OpMatchesRule(op, rules[i]) && !RuleAccepts(rules[i], op.body)
  }

  /** The op's writes are reduced; every other op is quarantined, whole. */
  predicate Reducible(op: MergeOp, rules: seq<FieldRule>) {
    Known(op, rules) && !Uninterpretable(op, rules)
  }

  /** Whether `op` makes rule `r` relevant to the object. */
  predicate HasWrite(op: MergeOp, r: FieldRule) {
    || r.field in op.body
    || op.opType == "delete" || op.opType == "undelete"
    || (if r.strategy.ObservedRemove? then
          || (r.field == "add" && Field(op.body, "remove") != Null)
          || (r.field == "remove" && Field(op.body, "add") != Null)
        else
          r.field == "subject" && op.opType == "approval" && op.authorEmail != "")
  }

  // ---- The sides of an OR-set write ----

  function ItemsOf(v: Value): seq<string> {
    match v
    case Str(s) => [s]
    case List(items) => StringsIn(items)
    case _ => []
  }

  function StringsIn(items: seq<Value>): seq<string> {
    if items == [] then []
    else StringsIn(items[..|items| - 1]) + if items[|items| - 1].Str? then [items[|items| - 1].s] else []
  }

  predicate HasPrefix(s: string, prefix: string) { prefix <= s }

  /** (adds, removes) an op makes through one rule, before normalization. */
  function SidesOf(op: MergeOp, r: FieldRule): (seq<string>, seq<string>) {
    if r.IsSide() then
      var a, m := Field(op.body, "add"), Field(op.body, "remove");
      var fromAdd := if a.Object? then (ItemsOf(Field(a.members, "add")), ItemsOf(Field(a.members, "remove"))) else (ItemsOf(a), []);
      var fromRemove := if m.Object? then (ItemsOf(Field(m.members, "add")), ItemsOf(Field(m.members, "remove"))) else ([], ItemsOf(m));
      (fromAdd.0 + fromRemove.0, fromAdd.1 + fromRemove.1)
    else
      var v := Field(op.body, r.field);
      if v.Object? then (ItemsOf(Field(v.members, "add")), ItemsOf(Field(v.members, "remove")))
      else if HasPrefix(op.opType, "add-") || op.opType == "add" then (ItemsOf(v), [])
      else if HasPrefix(op.opType, "remove-") || op.opType == "remove" then ([], ItemsOf(v))
      else ([], [])
  }
}
