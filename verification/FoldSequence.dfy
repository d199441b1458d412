/** What the fold leaves under the state keys that depend on the total order, read off the bodies of the ops: the last
  * value, the first, all entries in turn, and the last value of each register.
  */
module FoldSequence {
  import opened CausalGraph
  import opened Options
  import opened FoldRules
  import opened Strategies
  import opened Fold
  import opened OpBodies
  import opened FoldMeaning
  import FoldLaws
  import Strings
  import Sorting

  // ---- Where a write stands ----

  lemma {:induction false} OneMoreOp(s: OpSet, frs: seq<FieldRule>, init: seq<Id>, last: Id)
    requires (forall id :: id in init ==> id in s) && last in s
    ensures forall id :: id in init + [last] ==> id in s
    ensures Writes(init + [last], s, frs) == Writes(init, s, frs) + OpWrites(s[last], frs)
  {
    assert (init + [last])[..|init|] == init;
  }

  lemma {:induction false} WritesTogether(a: seq<Id>, b: seq<Id>, s: OpSet, frs: seq<FieldRule>)
    requires (forall id :: id in a ==> id in s) && forall id :: id in b ==> id in s
    ensures forall id :: id in a + b ==> id in s
    ensures Writes(a + b, s, frs) == Writes(a, s, frs) + Writes(b, s, frs)
  {
    if b == [] {
      assert a + b == a;
    } else {
      hide *;
      var init, last := b[..|b| - 1], b[|b| - 1];
      Snoc(a, b);
      WritesTogether(a, init, s, frs);
      OneMoreOp(s, frs, a + init, last);
      OneMoreOp(s, frs, init, last);
      Associative(Writes(a, s, frs), Writes(init, s, frs), OpWrites(s[last], frs));
    }
  }

  lemma {:induction false} OneMoreReduced(s: OpSet, rules: seq<FieldRule>, init: seq<Id>, last: Id)
    requires (forall id :: id in init ==> id in s) && last in s
    ensures forall id :: id in init + [last] ==> id in s
    ensures Reduced(s, rules, init + [last]) == Reduced(s, rules, init) + if Reducible(s[last], rules) then [last] else []
  {
    hide Reducible;
    assert (init + [last])[..|init|] == init;
  }

  lemma {:induction false} ReducedTogether(s: OpSet, rules: seq<FieldRule>, a: seq<Id>, b: seq<Id>)
    requires (forall id :: id in a ==> id in s) && forall id :: id in b ==> id in s
    ensures forall id :: id in a + b ==> id in s
    ensures Reduced(s, rules, a + b) == Reduced(s, rules, a) + Reduced(s, rules, b)
  {
    if b == [] {
      assert a + b == a;
    } else {
      hide Reduced, Reducible;
      var init, last := b[..|b| - 1], b[|b| - 1];
      Snoc(a, b);
      ReducedTogether(s, rules, a, init);
      OneMoreReduced(s, rules, a + init, last);
      OneMoreReduced(s, rules, init, last);
      Associative(Reduced(s, rules, a), Reduced(s, rules, init), if Reducible(s[last], rules) then [last] else []);
    }
  }

  lemma {:induction false} OneMoreRule(op: MergeOp, init: seq<FieldRule>, last: FieldRule)
    ensures OpWrites(op, init + [last]) == OpWrites(op, init) + if OpMatchesRule(op, last) then [Write(op, last)] else []
  {
    hide OpMatchesRule;
    assert (init + [last])[..|init|] == init;
  }

  lemma {:induction false} OpWritesTogether(op: MergeOp, a: seq<FieldRule>, b: seq<FieldRule>)
    ensures OpWrites(op, a + b) == OpWrites(op, a) + OpWrites(op, b)
  {
    if b == [] {
      assert a + b == a;
    } else {
      hide *;
      var init, last := b[..|b| - 1], b[|b| - 1];
      Snoc(a, b);
      OpWritesTogether(op, a, init);
      OneMoreRule(op, a + init, last);
      OneMoreRule(op, init, last);
      Associative(OpWrites(op, a), OpWrites(op, init), if OpMatchesRule(op, last) then [Write(op, last)] else []);
    }
  }

  lemma {:induction false} Associative<T>(a: seq<T>, b: seq<T>, c: seq<T>)
    ensures (a + b) + c == a + (b + c)
  {}

  lemma {:induction false} Snoc<T>(a: seq<T>, b: seq<T>)
    requires b != []
    ensures var init, last := b[..|b| - 1], b[|b| - 1]; b == init + [last] && a + b == (a + init) + [last]
  {}

  lemma {:induction false} OneMoreFiled(s: OpSet, members: set<Id>, init: seq<FieldRule>, last: FieldRule, all: seq<FieldRule>, t: string)
    ensures RulesFor(s, members, init + [last], all, t) ==
            RulesFor(s, members, init, all, t) + if last.TargetKey() == t && Relevant(s, members, all, last) then [last] else []
  {
    hide Relevant;
    assert (init + [last])[..|init|] == init;
  }

  lemma {:induction false} RulesTogether(s: OpSet, members: set<Id>, a: seq<FieldRule>, b: seq<FieldRule>, all: seq<FieldRule>, t: string)
    ensures RulesFor(s, members, a + b, all, t) == RulesFor(s, members, a, all, t) + RulesFor(s, members, b, all, t)
  {
    if b == [] {
      assert a + b == a;
    } else {
      hide RulesFor, Relevant;
      var init, last := b[..|b| - 1], b[|b| - 1];
      Snoc(a, b);
      RulesTogether(s, members, a, init, all, t);
      OneMoreFiled(s, members, a + init, last, all, t);
      OneMoreFiled(s, members, init, last, all, t);
      Associative(RulesFor(s, members, a, all, t), RulesFor(s, members, init, all, t),
                  if last.TargetKey() == t && Relevant(s, members, all, last) then [last] else []);
    }
  }

  /** What the op at `i` writes to the key by the rule at `j`. */
  ghost predicate WriteAt(s: OpSet, objectID: string, rules: seq<FieldRule>, t: string, order: seq<Id>, w: Write, i: int, j: int) {
    && 0 <= i < |order| && 0 <= j < |rules|
    && Says(s, objectID, rules, t, order[i], rules[j]) && w == Write(s[order[i]], rules[j])
  }

  /** Places are compared by op, then by rule. */
  predicate Sooner(i: int, j: int, k: int, m: int) { i < k || (i == k && j < m) }

  ghost predicate AllSooner(s: OpSet, objectID: string, rules: seq<FieldRule>, t: string, order: seq<Id>, ws: seq<Write>, i: int, j: int) {
    forall w :: w in ws ==> exists k, m :: WriteAt(s, objectID, rules, t, order, w, k, m) && Sooner(k, m, i, j)
  }

  ghost predicate AllLater(s: OpSet, objectID: string, rules: seq<FieldRule>, t: string, order: seq<Id>, ws: seq<Write>, i: int, j: int) {
    forall w :: w in ws ==> exists k, m :: WriteAt(s, objectID, rules, t, order, w, k, m) && Sooner(i, j, k, m)
  }

  ghost predicate Laid(s: OpSet, objectID: string, rules: seq<FieldRule>, order: seq<Id>) {
    && WellKeyed(s) && (forall id :: id in order <==> id in Members(s, objectID)) && forall id :: id in order ==> id in s
  }

  function KeyWrites(s: OpSet, objectID: string, rules: seq<FieldRule>, t: string, order: seq<Id>): seq<Write>
    requires forall id :: id in order ==> id in s
  {
    Writes(Reduced(s, rules, order), s, RulesFor(s, Members(s, objectID), rules, rules, t))
  }

  lemma {:induction false} ReducedApart(s: OpSet, rules: seq<FieldRule>, order: seq<Id>, i: nat)
    requires (forall id :: id in order ==> id in s) && i < |order| && Counts(s[order[i]], rules)
    ensures Reduced(s, rules, order) == Reduced(s, rules, order[..i]) + [order[i]] + Reduced(s, rules, order[i + 1..])
  {
    CountsMeans(s[order[i]], rules);
    OneReduced(s, rules, order[i]);
    hide *;
    var one, rest := [order[i]], order[i + 1..];
    Around(order, i);
    ReducedTogether(s, rules, order[..i], one + rest);
    ReducedTogether(s, rules, one, rest);
    Associative(Reduced(s, rules, order[..i]), one, Reduced(s, rules, rest));
  }

  lemma {:induction false} Around<T>(a: seq<T>, i: nat)
    requires i < |a|
    ensures a == a[..i] + ([a[i]] + a[i + 1..]) && forall x :: x in a[..i] + ([a[i]] + a[i + 1..]) ==> x in a
  {}

  lemma {:induction false} OneReduced(s: OpSet, rules: seq<FieldRule>, id: Id)
    requires id in s && Reducible(s[id], rules)
    ensures Reduced(s, rules, [id]) == [id]
  {
    hide Reducible;
    OneMoreReduced(s, rules, [], id);
    assert [] + [id] == [id];
  }

  lemma {:induction false} WritesApart(s: OpSet, rules: seq<FieldRule>, order: seq<Id>, i: nat, frs: seq<FieldRule>)
    requires (forall id :: id in order ==> id in s) && i < |order| && Counts(s[order[i]], rules)
    ensures Writes(Reduced(s, rules, order), s, frs) ==
            Writes(Reduced(s, rules, order[..i]), s, frs) + OpWrites(s[order[i]], frs) + Writes(Reduced(s, rules, order[i + 1..]), s, frs)
  {
    ReducedApart(s, rules, order, i);
    var before, after := Reduced(s, rules, order[..i]), Reduced(s, rules, order[i + 1..]);
    hide Reduced, Counts;
    WritesTogether(before, [order[i]], s, frs);
    WritesTogether(before + [order[i]], after, s, frs);
    assert [order[i]][..0] == [];
  }

  lemma {:induction false} RulesApart(s: OpSet, members: set<Id>, rules: seq<FieldRule>, t: string, j: nat)
    requires j < |rules| && Feeds(rules[j], t) && Relevant(s, members, rules, rules[j])
    ensures RulesFor(s, members, rules, rules, t) ==
            RulesFor(s, members, rules[..j], rules, t) + [rules[j]] + RulesFor(s, members, rules[j + 1..], rules, t)
  {
    OneFiled(s, members, rules[j], rules, t);
    hide *;
    var one, rest := [rules[j]], rules[j + 1..];
    Around(rules, j);
    RulesTogether(s, members, rules[..j], one + rest, rules, t);
    RulesTogether(s, members, one, rest, rules, t);
    Associative(RulesFor(s, members, rules[..j], rules, t), one, RulesFor(s, members, rest, rules, t));
  }

  lemma {:induction false} OneFiled(s: OpSet, members: set<Id>, r: FieldRule, all: seq<FieldRule>, t: string)
    requires Feeds(r, t)
    ensures RulesFor(s, members, [r], all, t) == if Relevant(s, members, all, r) then [r] else []
  {
    hide Relevant;
    OneMoreFiled(s, members, [], r, all, t);
    assert [] + [r] == [r];
  }

  lemma {:induction false} OpWritesApart(op: MergeOp, a: seq<FieldRule>, r: FieldRule, b: seq<FieldRule>)
    requires OpMatchesRule(op, r)
    ensures OpWrites(op, a + [r] + b) == OpWrites(op, a) + [Write(op, r)] + OpWrites(op, b)
  {
    hide OpMatchesRule;
    OpWritesTogether(op, a, [r]);
    OpWritesTogether(op, a + [r], b);
    assert [r][..0] == [];
  }

  lemma {:induction false} PlacedWrite(s: OpSet, objectID: string, rules: seq<FieldRule>, t: string, order: seq<Id>, w: Write, k: nat, m: nat)
    requires Laid(s, objectID, rules, order) && k < |order| && m < |rules|
    requires w.op == s[order[k]] && Reducible(w.op, rules) && w.rule == rules[m] && w.rule.TargetKey() == t && OpMatchesRule(w.op, w.rule)
    ensures WriteAt(s, objectID, rules, t, order, w, k, m)
  {
    assert order[k] in order;
    CountsMeans(w.op, rules);
    GovernsMeans(w.rule, w.op);
    hide Counts, Reducible, Governs, OpMatchesRule;
  }

  /** Writes of some of the ops, by some of the rules, stand where those ops and rules do. */
  lemma {:induction false} WritePlace(s: OpSet, objectID: string, rules: seq<FieldRule>, t: string, order: seq<Id>,
                                      part: seq<Id>, frs: seq<FieldRule>, w: Write)
    returns (k: nat, m: nat)
    requires Laid(s, objectID, rules, order) && (forall id :: id in part ==> id in order) && forall r :: r in frs ==> r in rules && r.TargetKey() == t
    requires forall id :: id in part ==> id in s
    requires w in Writes(Reduced(s, rules, part), s, frs)
    ensures k < |order| && order[k] in part && m < |rules| && rules[m] in frs
    ensures w.op == s[order[k]] && WriteAt(s, objectID, rules, t, order, w, k, m)
  {
    hide Reducible, OpMatchesRule;
    var id :| id in Reduced(s, rules, part) && w.op == s[id];
    k :| k < |order| && order[k] == id;
    m :| m < |rules| && rules[m] == w.rule;
    hide Laid, WriteAt, Writes, Reduced;
    PlacedWrite(s, objectID, rules, t, order, w, k, m);
  }

  lemma {:induction false} SoonerOps(s: OpSet, objectID: string, rules: seq<FieldRule>, t: string, order: seq<Id>, i: nat,
                                     j: nat, frs: seq<FieldRule>)
    requires Laid(s, objectID, rules, order) && Distinct(order) && i < |order| && forall r :: r in frs ==> r in rules && r.TargetKey() == t
    ensures forall id :: id in order[..i] + order[i + 1..] ==> id in s
    ensures AllSooner(s, objectID, rules, t, order, Writes(Reduced(s, rules, order[..i]), s, frs), i, j)
    ensures AllLater(s, objectID, rules, t, order, Writes(Reduced(s, rules, order[i + 1..]), s, frs), i, j)
  {
    var part, rest := order[..i], order[i + 1..];
    forall id | id in part + rest ensures id in s && id in order {}
    hide Laid, AllSooner, AllLater, Distinct;
    SoonerBefore(s, objectID, rules, t, order, i, j, part, frs);
    LaterAfter(s, objectID, rules, t, order, i, j, rest, frs);
  }

  lemma {:induction false} SoonerBefore(s: OpSet, objectID: string, rules: seq<FieldRule>, t: string, order: seq<Id>, i: nat,
                                        j: nat, part: seq<Id>, frs: seq<FieldRule>)
    requires Laid(s, objectID, rules, order) && Distinct(order) && i < |order| && forall r :: r in frs ==> r in rules && r.TargetKey() == t
    requires part == order[..i] && (forall id :: id in part ==> id in order) && forall id :: id in part ==> id in s
    ensures AllSooner(s, objectID, rules, t, order, Writes(Reduced(s, rules, part), s, frs), i, j)
  {
    hide Laid, WriteAt, Writes, Reduced;
    forall w | w in Writes(Reduced(s, rules, part), s, frs) ensures exists k, m :: WriteAt(s, objectID, rules, t, order, w, k, m) && Sooner(k, m, i, j) {
      var k, m := WritePlace(s, objectID, rules, t, order, part, frs, w);
      var n :| 0 <= n < i && part[n] == order[k];
      assert n == k;
    }
  }

  lemma {:induction false} LaterAfter(s: OpSet, objectID: string, rules: seq<FieldRule>, t: string, order: seq<Id>, i: nat,
                                      j: nat, rest: seq<Id>, frs: seq<FieldRule>)
    requires Laid(s, objectID, rules, order) && Distinct(order) && i < |order| && forall r :: r in frs ==> r in rules && r.TargetKey() == t
    requires rest == order[i + 1..] && (forall id :: id in rest ==> id in order) && forall id :: id in rest ==> id in s
    ensures AllLater(s, objectID, rules, t, order, Writes(Reduced(s, rules, rest), s, frs), i, j)
  {
    hide Laid, WriteAt, Writes, Reduced;
    forall w | w in Writes(Reduced(s, rules, rest), s, frs) ensures exists k, m :: WriteAt(s, objectID, rules, t, order, w, k, m) && Sooner(i, j, k, m) {
      var k, m := WritePlace(s, objectID, rules, t, order, rest, frs, w);
      var n :| 0 <= n < |rest| && rest[n] == order[k];
      assert n + i + 1 == k;
    }
  }

  lemma {:induction false} SoonerRules(s: OpSet, objectID: string, rules: seq<FieldRule>, t: string, order: seq<Id>, i: nat, j: nat)
    requires Laid(s, objectID, rules, order) && i < |order| && j < |rules| && Reducible(s[order[i]], rules)
    ensures var members := Members(s, objectID);
            && AllSooner(s, objectID, rules, t, order, OpWrites(s[order[i]], RulesFor(s, members, rules[..j], rules, t)), i, j)
            && AllLater(s, objectID, rules, t, order, OpWrites(s[order[i]], RulesFor(s, members, rules[j + 1..], rules, t)), i, j)
  {
    var members, op := Members(s, objectID), s[order[i]];
    hide Reducible, OpMatchesRule, RulesFor;
    forall w | w in OpWrites(op, RulesFor(s, members, rules[..j], rules, t))
      ensures exists k, m :: WriteAt(s, objectID, rules, t, order, w, k, m) && Sooner(k, m, i, j)
    {
      assert w.rule in rules[..j];
      var m: nat :| m < j && rules[m] == w.rule;
      PlacedWrite(s, objectID, rules, t, order, w, i, m);
      assert Sooner(i, m, i, j);
    }
    var rest := rules[j + 1..];
    forall w | w in OpWrites(op, RulesFor(s, members, rest, rules, t))
      ensures exists k, m :: WriteAt(s, objectID, rules, t, order, w, k, m) && Sooner(i, j, k, m)
    {
      assert w.rule in rest;
      var n: nat :| n < |rest| && rest[n] == w.rule;
      PlacedWrite(s, objectID, rules, t, order, w, i, j + 1 + n);
      assert Sooner(i, j, i, j + 1 + n);
    }
  }

  /** The arm's writes are those before this one, this one, and those after it. */
  lemma {:induction false} WritesAround(s: OpSet, objectID: string, rules: seq<FieldRule>, t: string, order: seq<Id>, i: nat, j: nat)
    returns (before: seq<Write>, after: seq<Write>)
    requires Laid(s, objectID, rules, order) && Distinct(order) && i < |order| && j < |rules|
    requires Says(s, objectID, rules, t, order[i], rules[j]) && HasWrite(s[order[i]], rules[j])
    ensures KeyWrites(s, objectID, rules, t, order) == before + [Write(s[order[i]], rules[j])] + after
    ensures AllSooner(s, objectID, rules, t, order, before, i, j) && AllLater(s, objectID, rules, t, order, after, i, j)
  {
    var members := Members(s, objectID);
    var op, r, frs := s[order[i]], rules[j], RulesFor(s, members, rules, rules, t);
    var frs1, frs2 := RulesFor(s, members, rules[..j], rules, t), RulesFor(s, members, rules[j + 1..], rules, t);
    CountsMeans(op, rules);
    GovernsMeans(r, op);
    assert order[i] in members && Relevant(s, members, rules, r) by { hide Reducible, Counts, Governs, OpMatchesRule, HasWrite; }
    hide Laid, Reducible, Counts, Governs, OpMatchesRule, HasWrite, Relevant, RulesFor, Writes, OpWrites, Reduced, Members, AllSooner, AllLater, Distinct;
    SoonerOps(s, objectID, rules, t, order, i, j, frs);
    SoonerRules(s, objectID, rules, t, order, i, j);
    RulesApart(s, members, rules, t, j);
    WritesApart(s, rules, order, i, frs);
    OpWritesApart(op, frs1, r, frs2);
    var earlier, later := Writes(Reduced(s, rules, order[..i]), s, frs), Writes(Reduced(s, rules, order[i + 1..]), s, frs);
    before, after := earlier + OpWrites(op, frs1), OpWrites(op, frs2) + later;
    Together(earlier, OpWrites(op, frs1), Write(op, r), OpWrites(op, frs2), later);
    BothSooner(s, objectID, rules, t, order, earlier, OpWrites(op, frs1), i, j);
    BothLater(s, objectID, rules, t, order, OpWrites(op, frs2), later, i, j);
  }

  lemma {:induction false} Together(a: seq<Write>, b: seq<Write>, w: Write, c: seq<Write>, d: seq<Write>)
    ensures a + (b + [w] + c) + d == (a + b) + [w] + (c + d)
  {}

  lemma {:induction false} BothSooner(s: OpSet, objectID: string, rules: seq<FieldRule>, t: string, order: seq<Id>,
                                      a: seq<Write>, b: seq<Write>, i: int, j: int)
    requires AllSooner(s, objectID, rules, t, order, a, i, j) && AllSooner(s, objectID, rules, t, order, b, i, j)
    ensures AllSooner(s, objectID, rules, t, order, a + b, i, j)
  {
    hide WriteAt, Sooner;
  }

  lemma {:induction false} BothLater(s: OpSet, objectID: string, rules: seq<FieldRule>, t: string, order: seq<Id>, a: seq<Write>,
                                     b: seq<Write>, i: int, j: int)
    requires AllLater(s, objectID, rules, t, order, a, i, j) && AllLater(s, objectID, rules, t, order, b, i, j)
    ensures AllLater(s, objectID, rules, t, order, a + b, i, j)
  {
    hide WriteAt, Sooner;
  }

  // ---- The last value and the first ----

  /** The op at `i` carries a value for the key, by the rule at `j`. */
  ghost predicate CarriesAt(s: OpSet, objectID: string, rules: seq<FieldRule>, t: string, order: seq<Id>, i: int, j: int) {
    && 0 <= i < |order| && 0 <= j < |rules| && Says(s, objectID, rules, t, order[i], rules[j])
    && rules[j].field in s[order[i]].body && s[order[i]].body[rules[j].field] != Null
  }

  ghost predicate AnyCarries(s: OpSet, objectID: string, rules: seq<FieldRule>, t: string) {
    exists id, r :: Says(s, objectID, rules, t, id, r) && r.field in s[id].body && s[id].body[r.field] != Null
  }

  lemma {:induction false} OrderLaid(s: OpSet, objectID: string, rules: seq<FieldRule>, order: seq<Id>)
    requires OrderOf(s, objectID, order) && WellKeyed(s)
    ensures Laid(s, objectID, rules, order) && Distinct(order)
  {
    OrderInside(s, objectID, order);
  }

  /** The fold read under the total order. */
  lemma {:induction false} ArmAlong(s: OpSet, objectID: string, rules: seq<FieldRule>, norm: Normalizer, res: FoldResult,
                                    t: string, strategy: Strategy, order: seq<Id>)
    returns (primary: FieldRule)
    requires IsFold(s, objectID, rules, norm, res) && WellKeyed(s) && AllUse(rules, t, strategy) && OrderOf(s, objectID, order)
    ensures Laid(s, objectID, rules, order) && Distinct(order)
    ensures primary.strategy == strategy
    ensures ArmSpec(DagOf(s, objectID), primary, KeyWrites(s, objectID, rules, t, order), norm, At(res.state, t))
    ensures AreWrites(s, objectID, rules, t, KeyWrites(s, objectID, rules, t, order))
  {
    OrderLaid(s, objectID, rules, order);
    hide IsFold, WellKeyed, AllUse, ArmSpec, OrderOf, AreWrites;
    var x := FoldLaws.FoldOrder(s, objectID, rules, norm, res);
    OrderUnique(s, objectID, x, order);
    var ws;
    primary, ws := ArmIn(s, objectID, rules, norm, order, res.state, t, strategy);
  }

  lemma {:induction false} CarriedMeans(s: OpSet, objectID: string, rules: seq<FieldRule>, t: string, ws: seq<Write>)
    requires AreWrites(s, objectID, rules, t, ws)
    ensures (exists w :: w in ws && Carries(w)) <==> AnyCarries(s, objectID, rules, t)
  {
    hide Counts, Governs, Feeds;
    if AnyCarries(s, objectID, rules, t) {
      var id, r :| Says(s, objectID, rules, t, id, r) && r.field in s[id].body && s[id].body[r.field] != Null;
      assert HasWrite(s[id], r) && Carries(Write(s[id], r));
    }
  }

  lemma {:induction false} LwwFrom(ws: seq<Write>, norm: Normalizer, r: Option<Value>, before: seq<Write>, w: Write, after: seq<Write>)
    requires LwwSpec(ws, norm, r) && ws == before + [w] + after && Carries(w) && forall x :: x in after ==> !Carries(x)
    ensures r == Some(LwwValue(w, norm))
  {
    hide Carries, LwwValue;
    var n := |before|;
    assert ws[n] == w;
    forall k | n < k < |ws| ensures !Carries(ws[k]) { assert ws[k] == after[k - n - 1] && ws[k] in after; }
  }

  lemma {:induction false} CreateOnceFrom(ws: seq<Write>, r: Option<Value>, before: seq<Write>, w: Write, after: seq<Write>)
    requires CreateOnceSpec(ws, r) && ws == before + [w] + after && Carries(w) && forall x :: x in before ==> !Carries(x)
    ensures r == Some(w.Raw())
  {
    hide Carries;
    var n := |before|;
    assert ws[n] == w;
    forall k | 0 <= k < n ensures !Carries(ws[k]) { assert ws[k] == before[k] && ws[k] in before; }
  }

  lemma {:induction false} ValueOf(w: Write, norm: Normalizer)
    ensures LwwValue(w, norm) == if w.Raw().Str? && w.rule.normalizeValue then Str(norm(w.Raw().s)) else w.Raw()
  {}

  ghost predicate LastToCarry(s: OpSet, objectID: string, rules: seq<FieldRule>, t: string, order: seq<Id>, i: int, j: int) {
    && CarriesAt(s, objectID, rules, t, order, i, j)
    && forall k, m :: CarriesAt(s, objectID, rules, t, order, k, m) ==> !Sooner(i, j, k, m)
  }

  ghost predicate FirstToCarry(s: OpSet, objectID: string, rules: seq<FieldRule>, t: string, order: seq<Id>, i: int, j: int) {
    && CarriesAt(s, objectID, rules, t, order, i, j)
    && forall k, m :: CarriesAt(s, objectID, rules, t, order, k, m) ==> !Sooner(k, m, i, j)
  }

  lemma {:induction false} WriteCarries(s: OpSet, objectID: string, rules: seq<FieldRule>, t: string, order: seq<Id>, w: Write, k: int, m: int)
    requires WriteAt(s, objectID, rules, t, order, w, k, m)
    ensures Carries(w) <==> CarriesAt(s, objectID, rules, t, order, k, m)
  {
    hide Counts, Governs, Feeds;
  }

  lemma {:induction false} NoneCarry(s: OpSet, objectID: string, rules: seq<FieldRule>, t: string, order: seq<Id>, ws: seq<Write>, i: int, j: int)
    ensures AllLater(s, objectID, rules, t, order, ws, i, j) && LastToCarry(s, objectID, rules, t, order, i, j) ==> forall w :: w in ws ==> !Carries(w)
    ensures AllSooner(s, objectID, rules, t, order, ws, i, j) && FirstToCarry(s, objectID, rules, t, order, i, j) ==> forall w :: w in ws ==> !Carries(w)
  {
    hide WriteAt, CarriesAt, Carries, Sooner;
    if AllLater(s, objectID, rules, t, order, ws, i, j) && LastToCarry(s, objectID, rules, t, order, i, j) {
      forall w | w in ws ensures !Carries(w) {
        var k, m :| WriteAt(s, objectID, rules, t, order, w, k, m) && Sooner(i, j, k, m);
        WriteCarries(s, objectID, rules, t, order, w, k, m);
      }
    }
    if AllSooner(s, objectID, rules, t, order, ws, i, j) && FirstToCarry(s, objectID, rules, t, order, i, j) {
      forall w | w in ws ensures !Carries(w) {
        var k, m :| WriteAt(s, objectID, rules, t, order, w, k, m) && Sooner(k, m, i, j);
        WriteCarries(s, objectID, rules, t, order, w, k, m);
      }
    }
  }

  lemma {:induction false} CarriedHere(s: OpSet, objectID: string, rules: seq<FieldRule>, t: string, order: seq<Id>, i: int, j: int)
    requires CarriesAt(s, objectID, rules, t, order, i, j)
    ensures order[i] in s && Says(s, objectID, rules, t, order[i], rules[j]) && HasWrite(s[order[i]], rules[j])
    ensures var w := Write(s[order[i]], rules[j]); Carries(w) && w.Raw() == s[order[i]].body[rules[j].field]
  {
    hide Counts, Governs, Feeds;
  }

  /** lww: the key holds the last value that is not null in total order, normalized if its rule says so. */
  lemma {:induction false} LwwMeans(s: OpSet, objectID: string, rules: seq<FieldRule>, norm: Normalizer, res: FoldResult,
                                    t: string, order: seq<Id>, i: nat, j: nat)
    requires IsFold(s, objectID, rules, norm, res) && WellKeyed(s) && AllUse(rules, t, Lww) && OrderOf(s, objectID, order)
    requires LastToCarry(s, objectID, rules, t, order, i, j)
    ensures var v := s[order[i]].body[rules[j].field];
            At(res.state, t) == Some(if v.Str? && rules[j].normalizeValue then Str(norm(v.s)) else v)
  {
    hide IsFold, WellKeyed, AllUse, OrderOf, LwwSpec, KeyWrites, AreWrites, LastToCarry, Laid, Distinct, Says;
    var primary := ArmAlong(s, objectID, rules, norm, res, t, Lww, order);
    LwwAlong(s, objectID, rules, norm, t, order, i, j, At(res.state, t));
  }

  lemma {:induction false} LwwAlong(s: OpSet, objectID: string, rules: seq<FieldRule>, norm: Normalizer, t: string,
                                    order: seq<Id>, i: nat, j: nat, r: Option<Value>)
    requires Laid(s, objectID, rules, order) && Distinct(order) && LastToCarry(s, objectID, rules, t, order, i, j)
    requires LwwSpec(KeyWrites(s, objectID, rules, t, order), norm, r)
    ensures var v := s[order[i]].body[rules[j].field];
            r == Some(if v.Str? && rules[j].normalizeValue then Str(norm(v.s)) else v)
  {
    hide LwwSpec, KeyWrites, AllLater, AllSooner, Carries, HasWrite, Distinct, Says, LwwValue;
    CarriedHere(s, objectID, rules, t, order, i, j);
    var w := Write(s[order[i]], rules[j]);
    var before, after := WritesAround(s, objectID, rules, t, order, i, j);
    hide LastToCarry, CarriesAt;
    NoneCarry(s, objectID, rules, t, order, after, i, j);
    LwwFrom(KeyWrites(s, objectID, rules, t, order), norm, r, before, w, after);
    ValueOf(w, norm);
  }

  /** create-once: the first such value, as it was written. */
  lemma {:induction false} CreateOnceMeans(s: OpSet, objectID: string, rules: seq<FieldRule>, norm: Normalizer, res: FoldResult,
                                           t: string, order: seq<Id>, i: nat, j: nat)
    requires IsFold(s, objectID, rules, norm, res) && WellKeyed(s) && AllUse(rules, t, CreateOnce) && OrderOf(s, objectID, order)
    requires FirstToCarry(s, objectID, rules, t, order, i, j)
    ensures At(res.state, t) == Some(s[order[i]].body[rules[j].field])
  {
    hide IsFold, WellKeyed, AllUse, OrderOf, CreateOnceSpec, KeyWrites, AreWrites, FirstToCarry, Laid, Distinct, Says;
    var primary := ArmAlong(s, objectID, rules, norm, res, t, CreateOnce, order);
    CreateOnceAlong(s, objectID, rules, norm, t, order, i, j, At(res.state, t));
  }

  lemma {:induction false} CreateOnceAlong(s: OpSet, objectID: string, rules: seq<FieldRule>, norm: Normalizer, t: string,
                                           order: seq<Id>, i: nat, j: nat, r: Option<Value>)
    requires Laid(s, objectID, rules, order) && Distinct(order) && FirstToCarry(s, objectID, rules, t, order, i, j)
    requires CreateOnceSpec(KeyWrites(s, objectID, rules, t, order), r)
    ensures r == Some(s[order[i]].body[rules[j].field])
  {
    hide CreateOnceSpec, KeyWrites, AllLater, AllSooner, Carries, HasWrite, Distinct, Says, LwwValue;
    CarriedHere(s, objectID, rules, t, order, i, j);
    var w := Write(s[order[i]], rules[j]);
    var before, after := WritesAround(s, objectID, rules, t, order, i, j);
    hide FirstToCarry, CarriesAt;
    NoneCarry(s, objectID, rules, t, order, before, i, j);
    CreateOnceFrom(KeyWrites(s, objectID, rules, t, order), r, before, w, after);
  }

  /** Under both, the key is there when some op carries a value that is not null. */
  lemma {:induction false} ValueThere(s: OpSet, objectID: string, rules: seq<FieldRule>, norm: Normalizer, res: FoldResult, t: string)
    requires IsFold(s, objectID, rules, norm, res) && WellKeyed(s) && (AllUse(rules, t, Lww) || AllUse(rules, t, CreateOnce))
    ensures t in res.state <==> AnyCarries(s, objectID, rules, t)
  {
    hide IsFold, WellKeyed, AllUse, AreWrites, AnyCarries, Carries;
    var primary, ws := ArmOf(s, objectID, rules, norm, res, t, if AllUse(rules, t, Lww) then Lww else CreateOnce);
    CarriedMeans(s, objectID, rules, t, ws);
  }

  // ---- All entries in turn ----

  /** Rule `j` alone feeds the key. */
  predicate OnlyRule(rules: seq<FieldRule>, t: string, j: int) {
    0 <= j < |rules| && Feeds(rules[j], t) && forall k :: 0 <= k < |rules| && Feeds(rules[k], t) ==> k == j
  }

  predicate Enters(s: OpSet, rules: seq<FieldRule>, r: FieldRule, id: Id) {
    id in s && Counts(s[id], rules) && Governs(r, s[id]) && r.field in s[id].body
  }

  /** What op `id` adds to the list: the items of a list, or the one value. */
  function EntriesOf(s: OpSet, rules: seq<FieldRule>, r: FieldRule, id: Id): seq<Value> {
    if Enters(s, rules, r, id) then
      var v := s[id].body[r.field];
      if v.List? then v.items else [v]
    else []
  }

  /** The entries of the ops, one op after the other. */
  function AllEntries(s: OpSet, rules: seq<FieldRule>, r: FieldRule, order: seq<Id>): seq<Value> {
    if order == [] then [] else AllEntries(s, rules, r, order[..|order| - 1]) + EntriesOf(s, rules, r, order[|order| - 1])
  }

  lemma {:induction false} AppendedMore(ws: seq<Write>, w: Write)
    ensures Appended(ws + [w]) == Appended(ws) + Entries(w)
  {
    assert (ws + [w])[..|ws|] == ws;
  }

  /** What one op hands to an arm with one rule. */
  lemma {:induction false} OneOpWrites(op: MergeOp, r: FieldRule)
    ensures OpWrites(op, [r]) == if OpMatchesRule(op, r) then [Write(op, r)] else []
  {
    hide OpMatchesRule;
    OneMoreRule(op, [], r);
    assert [] + [r] == [r];
  }

  lemma {:induction false} OpEntries(s: OpSet, rules: seq<FieldRule>, r: FieldRule, kept: seq<Id>, id: Id)
    requires (forall other :: other in kept ==> other in s) && id in s && Reducible(s[id], rules)
    ensures forall other :: other in kept + [id] ==> other in s
    ensures Appended(Writes(kept + [id], s, [r])) == Appended(Writes(kept, s, [r])) + EntriesOf(s, rules, r, id)
  {
    hide *;
    OneMoreOp(s, [r], kept, id);
    OneOpWrites(s[id], r);
    EntriesSaid(s, rules, r, id);
    var ws := Writes(kept, s, [r]);
    if OpMatchesRule(s[id], r) { AppendedMore(ws, Write(s[id], r)); } else { assert ws + [] == ws && Appended(ws) + [] == Appended(ws); }
  }

  lemma {:induction false} EntriesSaid(s: OpSet, rules: seq<FieldRule>, r: FieldRule, id: Id)
    requires id in s && Reducible(s[id], rules)
    ensures EntriesOf(s, rules, r, id) == if OpMatchesRule(s[id], r) then Entries(Write(s[id], r)) else []
  {
    CountsMeans(s[id], rules);
    GovernsMeans(r, s[id]);
    hide Reducible, Counts, Governs, OpMatchesRule;
  }

  lemma {:induction false} EntriesInTurn(s: OpSet, rules: seq<FieldRule>, r: FieldRule, order: seq<Id>)
    requires forall id :: id in order ==> id in s
    ensures Appended(Writes(Reduced(s, rules, order), s, [r])) == AllEntries(s, rules, r, order)
  {
    if order == [] {
      NoEntries(s, rules, r);
    } else {
      hide *;
      var init, last := order[..|order| - 1], order[|order| - 1];
      LastApart(order);
      EntriesInTurn(s, rules, r, init);
      OneMoreReduced(s, rules, init, last);
      MoreEntries(s, rules, r, init, last);
      if Reducible(s[last], rules) {
        OpEntries(s, rules, r, Reduced(s, rules, init), last);
      } else {
        NothingSaid(s, rules, r, last);
        assert Reduced(s, rules, init) + [] == Reduced(s, rules, init);
        assert AllEntries(s, rules, r, init) + [] == AllEntries(s, rules, r, init);
      }
    }
  }

  lemma {:induction false} NoEntries(s: OpSet, rules: seq<FieldRule>, r: FieldRule)
    ensures Appended(Writes(Reduced(s, rules, []), s, [r])) == AllEntries(s, rules, r, [])
  {}

  lemma {:induction false} LastApart(order: seq<Id>)
    requires order != []
    ensures var init, last := order[..|order| - 1], order[|order| - 1]; order == init + [last] && last in order && forall id :: id in init ==> id in order
  {}

  lemma {:induction false} MoreEntries(s: OpSet, rules: seq<FieldRule>, r: FieldRule, init: seq<Id>, last: Id)
    ensures AllEntries(s, rules, r, init + [last]) == AllEntries(s, rules, r, init) + EntriesOf(s, rules, r, last)
  {
    hide EntriesOf;
    assert (init + [last])[..|init|] == init;
  }

  lemma {:induction false} NothingSaid(s: OpSet, rules: seq<FieldRule>, r: FieldRule, id: Id)
    requires id in s && !Reducible(s[id], rules)
    ensures EntriesOf(s, rules, r, id) == []
  {
    CountsMeans(s[id], rules);
    hide Counts, Reducible;
  }

  lemma {:induction false} OnlyFiled(s: OpSet, members: set<Id>, rules: seq<FieldRule>, t: string, j: int)
    requires OnlyRule(rules, t, j)
    ensures RulesFor(s, members, rules, rules, t) == if Relevant(s, members, rules, rules[j]) then [rules[j]] else []
  {
    var one, before, after := [rules[j]], rules[..j], rules[j + 1..];
    NoneFeeds(s, members, before, rules, t);
    NoneFeeds(s, members, after, rules, t);
    OneFiled(s, members, rules[j], rules, t);
    hide *;
    Around(rules, j);
    RulesTogether(s, members, before, one + after, rules, t);
    RulesTogether(s, members, one, after, rules, t);
  }

  lemma {:induction false} NoneFeeds(s: OpSet, members: set<Id>, some: seq<FieldRule>, all: seq<FieldRule>, t: string)
    requires forall k :: 0 <= k < |some| ==> !Feeds(some[k], t)
    ensures RulesFor(s, members, some, all, t) == []
  {
    hide Relevant;
    if some == [] {
    } else {
      NoneFeeds(s, members, some[..|some| - 1], all, t);
    }
  }

  /** append: the key is there when some op writes it, even an empty list, and holds the entries of all ops in total
    * order.
    */
  lemma {:induction false} AppendMeans(s: OpSet, objectID: string, rules: seq<FieldRule>, norm: Normalizer, res: FoldResult,
                                       t: string, order: seq<Id>, j: int)
    requires IsFold(s, objectID, rules, norm, res) && WellKeyed(s) && OrderOf(s, objectID, order)
    requires OnlyRule(rules, t, j) && rules[j].strategy == Append
    ensures t in res.state <==> exists id :: id in order && Enters(s, rules, rules[j], id)
    ensures t in res.state ==> res.state[t] == List(AllEntries(s, rules, rules[j], order))
  {
    OnlyUse(rules, t, j);
    hide *;
    var primary := ArmAlong(s, objectID, rules, norm, res, t, Append, order);
    IsAppend(DagOf(s, objectID), primary, KeyWrites(s, objectID, rules, t, order), norm, At(res.state, t));
    AppendAlong(s, objectID, rules, t, order, j, At(res.state, t));
    StateAt(res.state, t);
  }

  lemma {:induction false} AppendAlong(s: OpSet, objectID: string, rules: seq<FieldRule>, t: string, order: seq<Id>, j: int, r: Option<Value>)
    requires Laid(s, objectID, rules, order) && OnlyRule(rules, t, j) && forall id :: id in order ==> id in s
    requires AppendSpec(KeyWrites(s, objectID, rules, t, order), r) && AreWrites(s, objectID, rules, t, KeyWrites(s, objectID, rules, t, order))
    ensures r.Some? <==> exists id :: id in order && Enters(s, rules, rules[j], id)
    ensures r.Some? ==> r.value == List(AllEntries(s, rules, rules[j], order))
  {
    hide AreWrites, AppendSpec, KeyWrites, Enters, AllEntries, Laid, Feeds;
    EntersMeans(s, objectID, rules, t, order, KeyWrites(s, objectID, rules, t, order), j);
    AppendGives(KeyWrites(s, objectID, rules, t, order), r);
    if r.Some? {
      OnlyFiled(s, Members(s, objectID), rules, t, j);
      SomeFiled(s, objectID, rules, t, order, rules[j]);
      EntriesInTurn(s, rules, rules[j], order);
    }
  }

  lemma {:induction false} OnlyUse(rules: seq<FieldRule>, t: string, j: int)
    requires OnlyRule(rules, t, j)
    ensures j < |rules| && AllUse(rules, t, rules[j].strategy)
  {
    hide Feeds;
    forall r | r in rules && Feeds(r, t) ensures r.strategy == rules[j].strategy { var k :| 0 <= k < |rules| && rules[k] == r; }
  }

  lemma {:induction false} IsAppend(g: Graph, primary: FieldRule, ws: seq<Write>, norm: Normalizer, r: Option<Value>)
    requires primary.strategy == Append && ArmSpec(g, primary, ws, norm, r)
    ensures AppendSpec(ws, r)
  {
    hide AppendSpec;
  }

  lemma {:induction false} AppendGives(ws: seq<Write>, r: Option<Value>)
    requires AppendSpec(ws, r)
    ensures r.Some? <==> exists w :: w in ws && w.Present()
    ensures r.Some? ==> ws != [] && r.value == List(Appended(ws))
  {}

  lemma {:induction false} SomeFiled(s: OpSet, objectID: string, rules: seq<FieldRule>, t: string, order: seq<Id>, r: FieldRule)
    requires Laid(s, objectID, rules, order) && KeyWrites(s, objectID, rules, t, order) != []
    requires var frs := RulesFor(s, Members(s, objectID), rules, rules, t); frs == [] || frs == [r]
    ensures KeyWrites(s, objectID, rules, t, order) == Writes(Reduced(s, rules, order), s, [r])
  {
    hide RulesFor, Reduced;
    NothingFromNoRules(s, Reduced(s, rules, order));
  }

  lemma {:induction false} EntersMeans(s: OpSet, objectID: string, rules: seq<FieldRule>, t: string, order: seq<Id>, ws: seq<Write>, j: int)
    requires Laid(s, objectID, rules, order) && AreWrites(s, objectID, rules, t, ws) && OnlyRule(rules, t, j)
    ensures (exists w :: w in ws && w.Present()) <==> exists id :: id in order && Enters(s, rules, rules[j], id)
  {
    hide Counts, Governs, Feeds;
    if w :| w in ws && w.Present() {
      assert Says(s, objectID, rules, t, w.op.id, w.rule);
      var k :| 0 <= k < |rules| && rules[k] == w.rule;
      assert w.op.id in order && Enters(s, rules, rules[j], w.op.id);
    }
    if id :| id in order && Enters(s, rules, rules[j], id) {
      assert Says(s, objectID, rules, t, id, rules[j]) && HasWrite(s[id], rules[j]);
      assert Write(s[id], rules[j]).Present();
    }
  }

  // ---- Registers by key ----

  /** An approval speaks for its author where it names no subject. */
  predicate SpeaksForAuthor(op: MergeOp, field: string) { field == "subject" && op.opType == "approval" && op.authorEmail != "" }

  /** What the op says of one part of the key: the text it carries there, or nothing. */
  function PartOf(op: MergeOp, r: FieldRule, norm: Normalizer, field: string): string {
    var text := if field in op.body && op.body[field].Str? then op.body[field].s else "";
    var clean := if field in r.normalizeKey then norm(text) else text;
    if clean == "" && SpeaksForAuthor(op, field) then norm("email:" + op.authorEmail) else clean
  }

  /** The op writes the register with this key. */
  predicate WritesTo(op: MergeOp, r: FieldRule, norm: Normalizer, key: seq<string>) {
    && (r.field in op.body || SpeaksForAuthor(op, r.field))
    && |key| == |r.key| && forall i :: 0 <= i < |key| ==> key[i] == PartOf(op, r, norm, r.key[i])
  }

  /** And this value. */
  function ValueWritten(op: MergeOp, r: FieldRule, norm: Normalizer): Value {
    if r.field !in op.body then Str(norm("email:" + op.authorEmail))
    else if op.body[r.field].Str? && r.normalizeValue then
      var clean := norm(op.body[r.field].s);
      Str(if clean == "" && SpeaksForAuthor(op, r.field) then norm("email:" + op.authorEmail) else clean)
    else op.body[r.field]
  }

  ghost predicate WritesToAt(s: OpSet, objectID: string, rules: seq<FieldRule>, norm: Normalizer, t: string, order: seq<Id>, key: seq<string>, i: int, j: int) {
    && 0 <= i < |order| && 0 <= j < |rules| && Says(s, objectID, rules, t, order[i], rules[j])
    && WritesTo(s[order[i]], rules[j], norm, key)
  }

  /** An entry of the list: a key, part by part, and a value. */
  predicate IsEntry(e: Value, key: seq<string>, v: Value) {
    && e.Object? && "key" in e.members && "value" in e.members && e.members["value"] == v
    && e.members["key"].List? && |e.members["key"].items| == |key|
    && forall i :: 0 <= i < |key| ==> e.members["key"].items[i] == Str(key[i])
  }

  lemma {:induction false} WritesToMeans(w: Write, norm: Normalizer, key: seq<string>)
    ensures Addresses(w, norm, key) <==> WritesTo(w.op, w.rule, norm, key)
    ensures Addresses(w, norm, key) ==> RegisterValue(w, norm) == ValueWritten(w.op, w.rule, norm)
  {
    var own := RegisterKey(w, norm);
    forall i | 0 <= i < |own| ensures own[i] == PartOf(w.op, w.rule, norm, w.rule.key[i]) {}
    hide PartOf, KeyComponent;
    if WritesTo(w.op, w.rule, norm, key) { assert own == key; }
  }

  /** The last write of a register decides what is listed for it. */
  lemma {:induction false} RegisterFrom(ws: seq<Write>, norm: Normalizer, r: Option<Value>, before: seq<Write>, w: Write,
                                        after: seq<Write>, key: seq<string>)
    requires KeyedLwwSpec(ws, norm, r) && ws == before + [w] + after
    requires Addresses(w, norm, key) && forall x :: x in after ==> !Addresses(x, norm, key)
    ensures r.Some? && r.value.List? && Entry(key, RegisterValue(w, norm)) in r.value.items
  {
    AddressedWrites(w, norm, key);
    assert ws[|before|] == w && w in ws;
    assert Holds(ws, |ws|, norm, key, RegisterValue(w, norm)) by { LastAddressed(ws, norm, before, w, after, key); }
    hide Addresses, RegisterValue, Entry, WritesRegister, AreRegisters, ListsRegisters, Holds;
    var m :| AreRegisters(ws, |ws|, norm, m) && ListsRegisters(r.value, m);
    HeldListed(ws, norm, m, w, key);
    ListedEntry(r.value, m, key);
  }

  lemma {:induction false} LastAddressed(ws: seq<Write>, norm: Normalizer, before: seq<Write>, w: Write, after: seq<Write>, key: seq<string>)
    requires ws == before + [w] + after
    requires Addresses(w, norm, key) && forall x :: x in after ==> !Addresses(x, norm, key)
    ensures Holds(ws, |ws|, norm, key, RegisterValue(w, norm))
  {
    hide Addresses, RegisterValue;
    var n := |before|;
    assert ws[n] == w;
    forall k | n < k < |ws| ensures !Addresses(ws[k], norm, key) { assert ws[k] == after[k - n - 1] && ws[k] in after; }
  }

  lemma {:induction false} HeldListed(ws: seq<Write>, norm: Normalizer, m: map<seq<string>, Value>, w: Write, key: seq<string>)
    requires AreRegisters(ws, |ws|, norm, m) && Addresses(w, norm, key) && w in ws
    requires Holds(ws, |ws|, norm, key, RegisterValue(w, norm))
    ensures key in m && m[key] == RegisterValue(w, norm)
  {
    hide Addresses, RegisterValue, Holds;
    HoldsUnique(ws, norm, key, m[key], RegisterValue(w, norm));
  }

  lemma {:induction false} ListedEntry(v: Value, m: map<seq<string>, Value>, key: seq<string>)
    requires ListsRegisters(v, m) && key in m
    ensures v.List? && Entry(key, m[key]) in v.items
  {
    hide Entry, Strings.TupleLess;
    var keys :| Sorting.SortedListOf(Strings.TupleLess, keys, m.Keys) && v == EntryList(m, keys);
    var k :| 0 <= k < |keys| && keys[k] == key;
    assert v.items[k] == Entry(key, m[key]);
  }

  lemma {:induction false} AddressedWrites(w: Write, norm: Normalizer, key: seq<string>)
    requires Addresses(w, norm, key)
    ensures WritesRegister(w)
  {}

  lemma {:induction false} EntryMeans(key: seq<string>, v: Value)
    ensures IsEntry(Entry(key, v), key, v)
  {}

  ghost predicate NoneTo(norm: Normalizer, ws: seq<Write>, key: seq<string>) { forall w :: w in ws ==> !Addresses(w, norm, key) }

  lemma {:induction false} NoneToLater(s: OpSet, objectID: string, rules: seq<FieldRule>, norm: Normalizer, t: string,
                                       order: seq<Id>, ws: seq<Write>, key: seq<string>, i: int, j: int)
    requires AllLater(s, objectID, rules, t, order, ws, i, j)
    requires forall k, m :: WritesToAt(s, objectID, rules, norm, t, order, key, k, m) ==> !Sooner(i, j, k, m)
    ensures NoneTo(norm, ws, key)
  {
    hide Addresses, WritesTo, Says, Sooner;
    forall w | w in ws ensures !Addresses(w, norm, key) {
      var k, m :| WriteAt(s, objectID, rules, t, order, w, k, m) && Sooner(i, j, k, m);
      WritesToMeans(w, norm, key);
      assert !WritesToAt(s, objectID, rules, norm, t, order, key, k, m);
    }
  }

  /** keyed-lww: each register written is listed with the last value written to it in total order. */
  lemma {:induction false} KeyedMeans(s: OpSet, objectID: string, rules: seq<FieldRule>, norm: Normalizer, res: FoldResult, t: string, order: seq<Id>,
                                      key: seq<string>, i: nat, j: nat)
    requires IsFold(s, objectID, rules, norm, res) && WellKeyed(s) && AllUse(rules, t, KeyedLww) && OrderOf(s, objectID, order)
    requires WritesToAt(s, objectID, rules, norm, t, order, key, i, j)
    requires forall k, m :: WritesToAt(s, objectID, rules, norm, t, order, key, k, m) ==> !Sooner(i, j, k, m)
    ensures t in res.state && res.state[t].List?
    ensures exists e :: e in res.state[t].items && IsEntry(e, key, ValueWritten(s[order[i]], rules[j], norm))
  {
    hide IsFold, WellKeyed, AllUse, OrderOf, KeyedLwwSpec, KeyWrites, AreWrites, WritesToAt, Laid, Distinct, Sooner;
    var primary := ArmAlong(s, objectID, rules, norm, res, t, KeyedLww, order);
    KeyedAlong(s, objectID, rules, norm, t, order, key, i, j, At(res.state, t));
  }

  lemma {:induction false} KeyedAlong(s: OpSet, objectID: string, rules: seq<FieldRule>, norm: Normalizer, t: string,
                                      order: seq<Id>, key: seq<string>, i: nat, j: nat,
                                      r: Option<Value>)
    requires Laid(s, objectID, rules, order) && Distinct(order) && WritesToAt(s, objectID, rules, norm, t, order, key, i, j)
    requires forall k, m :: WritesToAt(s, objectID, rules, norm, t, order, key, k, m) ==> !Sooner(i, j, k, m)
    requires KeyedLwwSpec(KeyWrites(s, objectID, rules, t, order), norm, r) && AllUse(rules, t, KeyedLww)
    ensures r.Some? && r.value.List?
    ensures exists e :: e in r.value.items && IsEntry(e, key, ValueWritten(s[order[i]], rules[j], norm))
  {
    var w := Write(s[order[i]], rules[j]);
    assert rules[j].strategy == KeyedLww && HasWrite(w.op, w.rule) by { hide Counts, Governs, PartOf; }
    WritesToMeans(w, norm, key);
    hide KeyedLwwSpec, KeyWrites, AllLater, AllSooner, HasWrite, Distinct, Says, Addresses, WritesTo, Sooner, RegisterValue, ValueWritten, AllUse;
    var before, after := WritesAround(s, objectID, rules, t, order, i, j);
    NoneToLater(s, objectID, rules, norm, t, order, after, key, i, j);
    hide WritesToAt, Laid;
    RegisterFrom(KeyWrites(s, objectID, rules, t, order), norm, r, before, w, after, key);
    EntryMeans(key, RegisterValue(w, norm));
  }

  /** And nothing else is listed, each register once, in the order of the keys: at the first part where two keys differ,
    * the earlier one has the smaller text.
    */
  lemma {:induction false} KeyedOnly(s: OpSet, objectID: string, rules: seq<FieldRule>, norm: Normalizer, res: FoldResult, t: string, a: nat)
    requires IsFold(s, objectID, rules, norm, res) && WellKeyed(s) && AllUse(rules, t, KeyedLww)
    requires t in res.state && res.state[t].List? && a < |res.state[t].items|
    ensures exists id, r, key ::
              && Says(s, objectID, rules, t, id, r) && WritesTo(s[id], r, norm, key) && IsEntry(res.state[t].items[a], key, ValueWritten(s[id], r, norm))
  {
    hide IsFold, WellKeyed, AllUse, KeyedLwwSpec, AreWrites, Says, WritesTo, ValueWritten;
    var primary, ws := ArmOf(s, objectID, rules, norm, res, t, KeyedLww);
    var w, key := RegisterOf(ws, norm, res.state[t], a);
    WritesToMeans(w, norm, key);
    EntryMeans(key, RegisterValue(w, norm));
    assert Says(s, objectID, rules, t, w.op.id, w.rule) && s[w.op.id] == w.op by { WriteIsSaid(s, objectID, rules, t, ws, w); }
  }

  lemma {:induction false} WriteIsSaid(s: OpSet, objectID: string, rules: seq<FieldRule>, t: string, ws: seq<Write>, w: Write)
    requires AreWrites(s, objectID, rules, t, ws) && w in ws
    ensures w.op.id in s && s[w.op.id] == w.op && Says(s, objectID, rules, t, w.op.id, w.rule)
  {
    hide Says;
  }

  lemma {:induction false} RegisterOf(ws: seq<Write>, norm: Normalizer, v: Value, a: nat) returns (w: Write, key: seq<string>)
    requires KeyedLwwSpec(ws, norm, Some(v)) && v.List? && a < |v.items|
    ensures w in ws && Addresses(w, norm, key) && v.items[a] == Entry(key, RegisterValue(w, norm))
  {
    hide Addresses, RegisterValue, Entry, WritesRegister;
    var m :| AreRegisters(ws, |ws|, norm, m) && ListsRegisters(v, m);
    var keys :| Sorting.SortedListOf(Strings.TupleLess, keys, m.Keys) && v == EntryList(m, keys);
    key := keys[a];
    assert key in keys && Holds(ws, |ws|, norm, key, m[key]);
    var i :| 0 <= i < |ws| && Addresses(ws[i], norm, key) && m[key] == RegisterValue(ws[i], norm);
    w := ws[i];
  }

  /** One key is smaller: at the first part where they differ it has the smaller text. */
  predicate KeyBefore(a: seq<string>, b: seq<string>) {
    exists c :: 0 <= c < |a| && c < |b| && a[..c] == b[..c] && Strings.Less(a[c], b[c])
  }

  lemma {:induction false} TupleLessMeans(a: seq<string>, b: seq<string>)
    ensures Strings.TupleLess(a, b) ==> KeyBefore(a, b)
  {
    hide Strings.Less;
    if Strings.TupleLess(a, b) {
      if a[0] != b[0] {
        assert a[..0] == b[..0];
      } else {
        TupleLessMeans(a[1..], b[1..]);
        var c :| 0 <= c < |a[1..]| && c < |b[1..]| && a[1..][..c] == b[1..][..c] && Strings.Less(a[1..][c], b[1..][c]);
        assert a[..c + 1] == [a[0]] + a[1..][..c] && b[..c + 1] == [b[0]] + b[1..][..c];
      }
    }
  }

  lemma {:induction false} KeyedSorted(s: OpSet, objectID: string, rules: seq<FieldRule>, norm: Normalizer, res: FoldResult, t: string,
                                       a: nat, b: nat, keyA: seq<string>, keyB: seq<string>, va: Value, vb: Value)
    requires IsFold(s, objectID, rules, norm, res) && WellKeyed(s) && AllUse(rules, t, KeyedLww)
    requires t in res.state && res.state[t].List? && a < b < |res.state[t].items|
    requires IsEntry(res.state[t].items[a], keyA, va) && IsEntry(res.state[t].items[b], keyB, vb)
    ensures KeyBefore(keyA, keyB)
  {
    hide IsFold, WellKeyed, AllUse, KeyedLwwSpec, AreWrites, IsEntry;
    var primary, ws := ArmOf(s, objectID, rules, norm, res, t, KeyedLww);
    EntriesSorted(ws, norm, res.state[t], a, b, keyA, keyB, va, vb);
  }

  lemma {:induction false} EntriesSorted(ws: seq<Write>, norm: Normalizer, v: Value, a: nat, b: nat, keyA: seq<string>,
                                         keyB: seq<string>, va: Value, vb: Value)
    requires KeyedLwwSpec(ws, norm, Some(v)) && v.List? && a < b < |v.items|
    requires IsEntry(v.items[a], keyA, va) && IsEntry(v.items[b], keyB, vb)
    ensures KeyBefore(keyA, keyB)
  {
    hide AreRegisters, IsEntry, Entry, WritesRegister, KeyBefore, Strings.TupleLess;
    var m :| AreRegisters(ws, |ws|, norm, m) && ListsRegisters(v, m);
    var keys :| Sorting.SortedListOf(Strings.TupleLess, keys, m.Keys) && v == EntryList(m, keys);
    assert keys[a] in keys && keys[b] in keys;
    EntryKey(keys[a], m[keys[a]], keyA, va);
    EntryKey(keys[b], m[keys[b]], keyB, vb);
    assert Strings.TupleLess(keys[a], keys[b]);
    TupleLessMeans(keys[a], keys[b]);
  }

  lemma {:induction false} EntryKey(key: seq<string>, v: Value, other: seq<string>, u: Value)
    requires IsEntry(Entry(key, v), other, u)
    ensures other == key
  {
    var e := Entry(key, v);
    forall i | 0 <= i < |key| ensures other[i] == key[i] { assert e.members["key"].items[i] == Str(key[i]); }
  }

  // ---- Which rule decides ----

  /** Some op that counts touches the field of the rule: it carries the field, or is a delete or undelete, or carries the other
    * side of a set, or is an approval that speaks for its author.
    */
  ghost predicate Touched(s: OpSet, objectID: string, rules: seq<FieldRule>, t: string, r: FieldRule) {
    exists id :: Says(s, objectID, rules, t, id, r) && Touches(s[id], r)
  }

  predicate Touches(op: MergeOp, r: FieldRule) {
    || r.field in op.body || op.opType == "delete" || op.opType == "undelete"
    || (if r.strategy == ObservedRemove then
          || (r.field == "add" && "remove" in op.body && op.body["remove"] != Null)
          || (r.field == "remove" && "add" in op.body && op.body["add"] != Null)
        else SpeaksForAuthor(op, r.field))
  }

  lemma {:induction false} TouchedMeans(s: OpSet, objectID: string, rules: seq<FieldRule>, t: string, r: FieldRule)
    requires r in rules && Feeds(r, t)
    ensures Relevant(s, Members(s, objectID), rules, r) <==> Touched(s, objectID, rules, t, r)
  {
    forall id | id in s
      ensures (Reducible(s[id], rules) <==> Counts(s[id], rules)) && (OpMatchesRule(s[id], r) <==> Governs(r, s[id]))
      ensures HasWrite(s[id], r) <==> Touches(s[id], r)
    {
      CountsMeans(s[id], rules);
      GovernsMeans(r, s[id]);
      TouchesMeans(s[id], r);
    }
    hide Reducible, Counts, OpMatchesRule, Governs, HasWrite, Touches, Feeds;
    if id :| Says(s, objectID, rules, t, id, r) && Touches(s[id], r) { assert id in Members(s, objectID); }
  }

  lemma {:induction false} TouchesMeans(op: MergeOp, r: FieldRule)
    ensures HasWrite(op, r) <==> Touches(op, r)
  {}

  lemma {:induction false} NoneTouched(s: OpSet, objectID: string, some: seq<FieldRule>, rules: seq<FieldRule>, t: string)
    requires forall k :: 0 <= k < |some| ==> some[k] in rules && !(Feeds(some[k], t) && Touched(s, objectID, rules, t, some[k]))
    ensures RulesFor(s, Members(s, objectID), some, rules, t) == []
  {
    if some == [] {
    } else {
      var n := |some| - 1;
      if Feeds(some[n], t) { TouchedMeans(s, objectID, rules, t, some[n]); }
      hide Touched, Relevant;
      NoneTouched(s, objectID, some[..n], rules, t);
    }
  }

  /** Where the rules of a key differ in strategy, the first declared one that some op touches decides how all its writes are
    * merged; where none is touched there is no key.
    */
  lemma {:induction false} FirstRuleDecides(s: OpSet, objectID: string, rules: seq<FieldRule>, norm: Normalizer, res: FoldResult,
                                            t: string, order: seq<Id>, j: nat)
    requires IsFold(s, objectID, rules, norm, res) && WellKeyed(s) && OrderOf(s, objectID, order) && j <= |rules|
    requires forall k :: 0 <= k < j ==> !(Feeds(rules[k], t) && Touched(s, objectID, rules, t, rules[k]))
    ensures Laid(s, objectID, rules, order)
    ensures j == |rules| ==> t !in res.state
    ensures j < |rules| && Feeds(rules[j], t) && Touched(s, objectID, rules, t, rules[j]) ==>
              ArmSpec(DagOf(s, objectID), rules[j], KeyWrites(s, objectID, rules, t, order), norm, At(res.state, t))
  {
    OrderLaid(s, objectID, rules, order);
    hide IsFold, WellKeyed, ArmSpec, OrderOf, Touched, Feeds, Distinct;
    var x := FoldLaws.FoldOrder(s, objectID, rules, norm, res);
    OrderUnique(s, objectID, x, order);
    FirstFiled(s, objectID, rules, t, j);
    hide RulesFor, Writes, Reduced, DagOf, Members;
    assert KeySpec(s, objectID, rules, norm, order, t, At(res.state, t));
  }

  lemma {:induction false} FirstFiled(s: OpSet, objectID: string, rules: seq<FieldRule>, t: string, j: nat)
    requires j <= |rules| && forall k :: 0 <= k < j ==> !(Feeds(rules[k], t) && Touched(s, objectID, rules, t, rules[k]))
    ensures var frs := RulesFor(s, Members(s, objectID), rules, rules, t);
            && (j == |rules| ==> frs == [])
            && (j < |rules| && Feeds(rules[j], t) && Touched(s, objectID, rules, t, rules[j]) ==> frs != [] && frs[0] == rules[j])
  {
    var members, before := Members(s, objectID), rules[..j];
    assert forall k :: 0 <= k < |before| ==> before[k] == rules[k] && before[k] in rules;
    NoneTouched(s, objectID, before, rules, t);
    hide RulesFor, Relevant, Touched, Feeds, Members;
    if j == |rules| {
      assert before == rules;
    } else if Feeds(rules[j], t) && Touched(s, objectID, rules, t, rules[j]) {
      TouchedMeans(s, objectID, rules, t, rules[j]);
      RulesApart(s, members, rules, t, j);
      assert [] + [rules[j]] == [rules[j]];
    }
  }
}
