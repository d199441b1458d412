/** Reading a typed fold's plain fields off the ops: who said something last, first, or at all. */
module TypedReading {
  import opened CausalGraph
  import opened Options
  import opened FoldRules
  import opened Fold
  import opened OrderedOps

  /** Whether an op says this text about some field. */
  type Saying = (MergeOp, string) -> bool

  ghost predicate SaidAt(s: OpSet, order: seq<Id>, says: Saying, i: int, text: string) {
    0 <= i < |order| && order[i] in s && says(s[order[i]], text)
  }

  /** The op at `i` says it, and no later one says anything. */
  ghost predicate SaidLast(s: OpSet, order: seq<Id>, says: Saying, i: int, text: string) {
    SaidAt(s, order, says, i, text) && forall j, other :: i < j ==> !SaidAt(s, order, says, j, other)
  }

  /** The op at `i` says it, and earlier ones say nothing but the empty text. */
  ghost predicate SaidFirst(s: OpSet, order: seq<Id>, says: Saying, i: int, text: string) {
    SaidAt(s, order, says, i, text) && text != "" && forall j, other :: j < i && SaidAt(s, order, says, j, other) ==> other == ""
  }

  ghost predicate NeverSaid(s: OpSet, order: seq<Id>, says: Saying) { forall i, text :: !SaidAt(s, order, says, i, text) }

  /** The reading reads what the ops say. */
  ghost predicate Reads(f: Reading, says: Saying) { forall op, t :: f(op) == Some(t) <==> says(op, t) }

  lemma {:induction false} ReadAt(s: OpSet, order: seq<Id>, f: Reading, says: Saying, i: nat)
    requires Reads(f, says) && i < |order| && forall id :: id in order ==> id in s
    ensures f(OpsOf(s, order)[i]).Some? <==> exists t :: SaidAt(s, order, says, i, t)
    ensures forall t :: f(OpsOf(s, order)[i]) == Some(t) <==> SaidAt(s, order, says, i, t)
  {
    var op := OpsOf(s, order)[i];
    assert order[i] in order && op == s[order[i]];
    if f(op).Some? { assert SaidAt(s, order, says, i, f(op).value); }
  }

  lemma {:induction false} PlaceOf(s: OpSet, order: seq<Id>, says: Saying, i: int, text: string)
    requires SaidAt(s, order, says, i, text)
    ensures 0 <= i < |order|
  {}

  lemma {:induction false} LastShown(s: OpSet, order: seq<Id>, f: Reading, says: Saying, r: string, i: nat, text: string)
    requires Reads(f, says) && (forall id :: id in order ==> id in s) && Latest(OpsOf(s, order), f, r)
    requires SaidLast(s, order, says, i, text)
    ensures r == text
  {
    var ops := OpsOf(s, order);
    hide SaidAt, Reads;
    PlaceOf(s, order, says, i, text);
    ReadAt(s, order, f, says, i);
    forall j | i < j < |ops| ensures f(ops[j]).None? { ReadAt(s, order, f, says, j); }
    assert SilentAfter(ops, f, i);
  }

  lemma {:induction false} NoneShown(s: OpSet, order: seq<Id>, f: Reading, says: Saying, r: string)
    requires Reads(f, says) && (forall id :: id in order ==> id in s) && Latest(OpsOf(s, order), f, r)
    requires NeverSaid(s, order, says)
    ensures r == ""
  {
    var ops := OpsOf(s, order);
    hide SaidAt, Reads;
    forall j: nat | j < |ops| ensures f(ops[j]).None? { ReadAt(s, order, f, says, j); }
  }

  /** What somebody says last, if anybody says anything. */
  lemma {:induction false} SomeLast(s: OpSet, order: seq<Id>, f: Reading, says: Saying, r: string) returns (i: nat)
    requires Reads(f, says) && (forall id :: id in order ==> id in s) && Latest(OpsOf(s, order), f, r)
    requires !NeverSaid(s, order, says)
    ensures SaidLast(s, order, says, i, r)
  {
    var ops := OpsOf(s, order);
    hide SaidAt, Reads;
    var k, t :| SaidAt(s, order, says, k, t);
    PlaceOf(s, order, says, k, t);
    ReadAt(s, order, f, says, k);
    i :| 0 <= i < |ops| && f(ops[i]) == Some(r) && SilentAfter(ops, f, i);
    ReadAt(s, order, f, says, i);
    forall j, other | i < j ensures !SaidAt(s, order, says, j, other) {
      if SaidAt(s, order, says, j, other) {
        PlaceOf(s, order, says, j, other);
        ReadAt(s, order, f, says, j);
      }
    }
  }

  lemma {:induction false} FirstShown(s: OpSet, order: seq<Id>, says: Saying, f: Reading, r: string, i: nat, text: string)
    requires Reads(f, says) && (forall id :: id in order ==> id in s) && SaidFirst(s, order, says, i, text)
    requires forall k :: 0 <= k < |OpsOf(s, order)| && f(OpsOf(s, order)[k]).Some? && f(OpsOf(s, order)[k]).value != ""
                         && (forall j :: 0 <= j < k ==> f(OpsOf(s, order)[j]).None? || f(OpsOf(s, order)[j]) == Some(""))
                         ==> f(OpsOf(s, order)[k]) == Some(r)
    ensures r == text
  {
    var ops := OpsOf(s, order);
    hide SaidAt, Reads;
    PlaceOf(s, order, says, i, text);
    ReadAt(s, order, f, says, i);
    forall j: nat | j < i ensures f(ops[j]).None? || f(ops[j]) == Some("") {
      ReadAt(s, order, f, says, j);
      if f(ops[j]).Some? { assert SaidAt(s, order, says, j, f(ops[j]).value); }
    }
  }
}
