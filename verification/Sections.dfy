/** Where AddSection and MoveSection put a section. A document lists its sections by position, then by the
  * id of the op that set the position.
  */
module Sections {
  import opened Sorting
  import opened Strings
  import opened FractionalIndex

  datatype Entry = Entry(id: string, position: string, opId: string)

  datatype Outcome =
    | Placed(position: string)
    | NotFound(id: string)
    | BadPosition(error: KeyError)
    | NoRoom(failure: Result)
    | NoNeighbour
    | RelativeToItself

  datatype Bounds = Bounds(low: string, high: string) | Missing(id: string)

  predicate SectionLess(a: Entry, b: Entry) { Compare(a.position, a.opId, b.position, b.opId) < 0 }

  /** The document's listing: strictly sorted, one entry a section, every stored position canonical. */
  ghost predicate Listing(sections: seq<Entry>) {
    && StrictlySorted(SectionLess, sections)
    && (forall i :: 0 <= i < |sections| ==> Canonical(sections[i].position) && sections[i].id != "")
    && forall i, j :: 0 <= i < j < |sections| ==> sections[i].id != sections[j].id
  }

  function Find(sections: seq<Entry>, id: string): (i: nat)
    ensures i <= |sections| && (i < |sections| ==> sections[i].id == id)
    ensures forall k :: 0 <= k < i ==> sections[k].id != id
  {
    if sections == [] || sections[0].id == id then 0 else 1 + Find(sections[1..], id)
  }

  predicate Has(sections: seq<Entry>, id: string) { Find(sections, id) < |sections| }

  function PositionOf(sections: seq<Entry>, id: string): string
    requires Has(sections, id)
  {
    sections[Find(sections, id)].position
  }

  /** How many sections lead the listing at or below a position: those below it and those tied with it. */
  function AtOrBelow(sections: seq<Entry>, position: string): (k: nat)
    ensures k <= |sections|
  {
    if sections == [] || Less(position, sections[0].position) then 0 else 1 + AtOrBelow(sections[1..], position)
  }

  /** How many sections lead the listing strictly below a position. */
  function Below(sections: seq<Entry>, position: string): (k: nat)
    ensures k <= |sections|
  {
    if sections == [] || !Less(sections[0].position, position) then 0 else 1 + Below(sections[1..], position)
  }

  /** A canonical position strictly after the first `k` sections and strictly before the others. */
  predicate Sits(sections: seq<Entry>, position: string, k: nat) {
    && Canonical(position)
    && (forall i :: 0 <= i < |sections| && i < k ==> Less(sections[i].position, position))
    && forall i :: k <= i < |sections| ==> Less(position, sections[i].position)
  }

  // ---- Facts about a listing ----

  lemma Ascending(sections: seq<Entry>, i: nat, j: nat)
    requires StrictlySorted(SectionLess, sections) && i <= j < |sections|
    ensures LessEq(sections[i].position, sections[j].position)
  {
    if i < j {
      assert SectionLess(sections[i], sections[j]);
      LessTotal(sections[i].position, sections[j].position);
    }
  }

  lemma {:induction false} AtOrBelowIs(sections: seq<Entry>, position: string, k: nat)
    requires k <= |sections| && (k < |sections| ==> Less(position, sections[k].position))
    requires forall i :: 0 <= i < k ==> !Less(position, sections[i].position)
    ensures AtOrBelow(sections, position) == k
  {
    hide Less;
    if k == 0 {
    } else {
      AtOrBelowIs(sections[1..], position, k - 1);
    }
  }

  lemma {:induction false} BelowIs(sections: seq<Entry>, position: string, k: nat)
    requires k <= |sections| && (k < |sections| ==> !Less(sections[k].position, position))
    requires forall i :: 0 <= i < k ==> Less(sections[i].position, position)
    ensures Below(sections, position) == k
  {
    hide Less;
    if k == 0 {
    } else {
      BelowIs(sections[1..], position, k - 1);
    }
  }

  lemma LowSide(sections: seq<Entry>, position: string, k: nat, i: nat)
    requires StrictlySorted(SectionLess, sections) && i < k <= |sections| && Less(sections[k - 1].position, position)
    ensures Less(sections[i].position, position)
  {
    hide Less, StrictlySorted;
    Ascending(sections, i, k - 1);
    if sections[i].position != sections[k - 1].position {
      LessTransitive(sections[i].position, sections[k - 1].position, position);
    }
  }

  lemma HighSide(sections: seq<Entry>, position: string, k: nat, i: nat)
    requires StrictlySorted(SectionLess, sections) && k <= i < |sections| && Less(position, sections[k].position)
    ensures Less(position, sections[i].position)
  {
    hide Less, StrictlySorted;
    Ascending(sections, k, i);
    if sections[i].position != sections[k].position {
      LessTransitive(position, sections[k].position, sections[i].position);
    }
  }

  /** A key between the positions on both sides of a cut sits at the cut. */
  lemma SitsAtCut(sections: seq<Entry>, low: string, position: string, high: string, k: nat)
    requires Listing(sections) && k <= |sections| && Fits(low, position, high)
    requires if k == 0 then low == "" else low == sections[k - 1].position
    requires if k == |sections| then high == "" else high == sections[k].position
    ensures Sits(sections, position, k)
  {
    assert k > 0 ==> Canonical(sections[k - 1].position) && low != "";
    assert k < |sections| ==> Canonical(sections[k].position) && high != "";
    assert StrictlySorted(SectionLess, sections);
    hide Less, Canonical, Listing, StrictlySorted;
    forall i | 0 <= i < k ensures Less(sections[i].position, position) {
      LowSide(sections, position, k, i);
    }
    forall i | k <= i < |sections| ensures Less(position, sections[i].position) {
      HighSide(sections, position, k, i);
    }
  }

  // ---- Choosing the position ----

  method IndexOf(sections: seq<Entry>, id: string) returns (index: int)
    ensures if Has(sections, id) then index == Find(sections, id) && index < |sections| else index == -1
  {
    index := -1;
    for i := 0 to |sections|
      invariant forall k :: 0 <= k < i ==> sections[k].id != id
    {
      if sections[i].id == id {
        return i;
      }
    }
  }

  /** The bounds of a slot given by one neighbour or by both. */
  ghost predicate SlotOf(sections: seq<Entry>, after: string, before: string, bounds: Bounds) {
    if after != "" && !Has(sections, after) then bounds == Missing(after)
    else if before != "" && !Has(sections, before) then bounds == Missing(before)
    else if bounds.Missing? then false
    else if after != "" && before != "" then
      bounds.low == PositionOf(sections, after) && bounds.high == PositionOf(sections, before)
    else if after != "" then
      Cut(sections, bounds.low, bounds.high, AtOrBelow(sections, PositionOf(sections, after)))
    else if before != "" then
      Cut(sections, bounds.low, bounds.high, Below(sections, PositionOf(sections, before)))
    else false
  }

  /** The positions on both sides of a cut through the listing. */
  predicate Cut(sections: seq<Entry>, low: string, high: string, k: nat) {
    && k <= |sections|
    && low == (if k == 0 then "" else sections[k - 1].position)
    && high == (if k == |sections| then "" else sections[k].position)
  }

  lemma SlotMissing(sections: seq<Entry>, id: string)
    requires id != "" && !Has(sections, id)
    ensures SlotOf(sections, id, "", Missing(id)) && SlotOf(sections, "", id, Missing(id))
  {}

  method SlotAfter(sections: seq<Entry>, after: string) returns (bounds: Bounds)
    requires Listing(sections) && after != ""
    ensures SlotOf(sections, after, "", bounds)
  {
    hide *;
    var afterIndex := IndexOf(sections, after);
    if afterIndex == -1 {
      SlotMissing(sections, after);
      return Missing(after);
    }
    var low, high := sections[afterIndex].position, "";
    var j := afterIndex + 1;
    NothingBetween(sections, low, j);
    while j < |sections| && !Less(low, sections[j].position)
      invariant afterIndex < j <= |sections|
      invariant NoneHigher(sections, low, afterIndex + 1, j)
    {
      NextNotHigher(sections, low, afterIndex + 1, j);
      j := j + 1;
    }
    if j < |sections| { high := sections[j].position; }
    CutAfter(sections, afterIndex, j);
    SlotAfterIs(sections, after, afterIndex, j, high);
    return Bounds(low, high);
  }

  predicate NoneHigher(sections: seq<Entry>, low: string, from: nat, to: nat) {
    forall i :: from <= i < to && i < |sections| ==> !Less(low, sections[i].position)
  }

  lemma NextNotHigher(sections: seq<Entry>, low: string, from: nat, to: nat)
    requires to < |sections| && NoneHigher(sections, low, from, to) && !Less(low, sections[to].position)
    ensures NoneHigher(sections, low, from, to + 1)
  {
    hide Less;
  }

  lemma SlotAfterIs(sections: seq<Entry>, after: string, index: nat, j: nat, high: string)
    requires index < j <= |sections| && index == Find(sections, after) && after != ""
    requires j == AtOrBelow(sections, sections[index].position) && sections[j - 1].position == sections[index].position
    requires high == if j < |sections| then sections[j].position else ""
    ensures SlotOf(sections, after, "", Bounds(sections[index].position, high))
  {
    hide Find, AtOrBelow, Less;
  }

  lemma NotHigher(sections: seq<Entry>, i: nat, index: nat)
    requires StrictlySorted(SectionLess, sections) && i <= index < |sections|
    ensures !Less(sections[index].position, sections[i].position)
  {
    hide Less, StrictlySorted;
    Ascending(sections, i, index);
    LessTotal(sections[i].position, sections[index].position);
  }

  lemma CountedAfter(sections: seq<Entry>, index: nat, j: nat)
    requires StrictlySorted(SectionLess, sections) && index < j <= |sections|
    requires NoneHigher(sections, sections[index].position, index + 1, j)
    requires j < |sections| ==> Less(sections[index].position, sections[j].position)
    ensures j == AtOrBelow(sections, sections[index].position)
  {
    hide Less, StrictlySorted, AtOrBelow;
    var low := sections[index].position;
    forall i | 0 <= i <= index ensures !Less(low, sections[i].position) {
      NotHigher(sections, i, index);
    }
    AtOrBelowIs(sections, low, j);
  }

  lemma LastTied(sections: seq<Entry>, index: nat, j: nat)
    requires StrictlySorted(SectionLess, sections) && index < j <= |sections|
    requires NoneHigher(sections, sections[index].position, index + 1, j)
    ensures sections[j - 1].position == sections[index].position
  {
    hide Less, StrictlySorted;
    Ascending(sections, index, j - 1);
  }

  lemma CutAfter(sections: seq<Entry>, index: nat, j: nat)
    requires Listing(sections) && index < j <= |sections|
    requires NoneHigher(sections, sections[index].position, index + 1, j)
    requires j < |sections| ==> Less(sections[index].position, sections[j].position)
    ensures j == AtOrBelow(sections, sections[index].position) && sections[j - 1].position == sections[index].position
  {
    assert StrictlySorted(SectionLess, sections);
    hide *;
    CountedAfter(sections, index, j);
    LastTied(sections, index, j);
  }

  method SlotBefore(sections: seq<Entry>, before: string) returns (bounds: Bounds)
    requires Listing(sections) && before != ""
    ensures SlotOf(sections, "", before, bounds)
  {
    hide *;
    var beforeIndex := IndexOf(sections, before);
    if beforeIndex == -1 {
      SlotMissing(sections, before);
      return Missing(before);
    }
    var low, high := "", sections[beforeIndex].position;
    var j := beforeIndex - 1;
    NothingBetween(sections, high, beforeIndex);
    while j >= 0 && !Less(sections[j].position, high)
      invariant -1 <= j < beforeIndex
      invariant NoneLower(sections, high, j + 1, beforeIndex)
    {
      NextNotLower(sections, high, j, beforeIndex);
      j := j - 1;
    }
    if j >= 0 { low := sections[j].position; }
    CutBefore(sections, beforeIndex, j + 1);
    SlotBeforeIs(sections, before, beforeIndex, j + 1, low);
    return Bounds(low, high);
  }

  predicate NoneLower(sections: seq<Entry>, high: string, from: nat, to: nat) {
    forall i :: from <= i < to && i < |sections| ==> !Less(sections[i].position, high)
  }

  lemma NothingBetween(sections: seq<Entry>, position: string, k: nat)
    ensures NoneHigher(sections, position, k, k) && NoneLower(sections, position, k, k)
  {}

  lemma NextNotLower(sections: seq<Entry>, high: string, from: nat, to: nat)
    requires from < to <= |sections| && NoneLower(sections, high, from + 1, to) && !Less(sections[from].position, high)
    ensures NoneLower(sections, high, from, to)
  {
    hide Less;
  }

  lemma SlotBeforeIs(sections: seq<Entry>, before: string, index: nat, k: nat, low: string)
    requires k <= index < |sections| && index == Find(sections, before) && before != ""
    requires k == Below(sections, sections[index].position) && sections[k].position == sections[index].position
    requires low == if k > 0 then sections[k - 1].position else ""
    ensures SlotOf(sections, "", before, Bounds(low, sections[index].position))
  {
    hide Find, Below, Less;
  }

  lemma CutBefore(sections: seq<Entry>, index: nat, k: nat)
    requires Listing(sections) && k <= index < |sections|
    requires NoneLower(sections, sections[index].position, k, index)
    requires k > 0 ==> Less(sections[k - 1].position, sections[index].position)
    ensures k == Below(sections, sections[index].position) && sections[k].position == sections[index].position
  {
    var high := sections[index].position;
    assert StrictlySorted(SectionLess, sections);
    hide Less, Listing, StrictlySorted, Below;
    forall i | 0 <= i < k ensures Less(sections[i].position, high) {
      LowSide(sections, high, k, i);
    }
    Ascending(sections, k, index);
    LessTotal(high, high);
    BelowIs(sections, high, k);
  }

  method SlotBetween(sections: seq<Entry>, after: string, before: string) returns (bounds: Bounds)
    requires Listing(sections) && after != "" && before != ""
    ensures SlotOf(sections, after, before, bounds)
  {
    var low, high := "", "";
    var afterIndex, beforeIndex := -1, -1;
    for i := 0 to |sections|
      invariant afterIndex == if Find(sections, after) < i then Find(sections, after) else -1
      invariant beforeIndex == if Find(sections, before) < i then Find(sections, before) else -1
      invariant afterIndex >= 0 ==> low == sections[afterIndex].position
      invariant beforeIndex >= 0 ==> high == sections[beforeIndex].position
    {
      if sections[i].id == after {
        afterIndex, low := i, sections[i].position;
      }
      if sections[i].id == before {
        beforeIndex, high := i, sections[i].position;
      }
    }
    if afterIndex == -1 {
      return Missing(after);
    }
    if beforeIndex == -1 {
      return Missing(before);
    }
    return Bounds(low, high);
  }

  /** Where a new section given by its neighbours goes, or why it cannot. */
  ghost predicate Chosen(sections: seq<Entry>, after: string, before: string, outcome: Outcome) {
    if after != "" && !Has(sections, after) then outcome == NotFound(after)
    else if before != "" && !Has(sections, before) then outcome == NotFound(before)
    else if after != "" && before != "" then
      var low, high := PositionOf(sections, after), PositionOf(sections, before);
      if Less(low, high) then outcome.Placed? && Fits(low, outcome.position, high) else outcome == NoRoom(InvalidRange)
    else if after != "" then
      outcome.Placed? && Sits(sections, outcome.position, AtOrBelow(sections, PositionOf(sections, after)))
    else if before != "" then
      outcome.Placed? && Sits(sections, outcome.position, Below(sections, PositionOf(sections, before)))
    else false
  }

  lemma CutOrdered(sections: seq<Entry>, low: string, high: string, k: nat)
    requires Listing(sections) && Cut(sections, low, high, k)
    requires 0 < k < |sections| ==> Less(low, high)
    ensures Ordered(low, high)
  {}

  lemma AtOrBelowStops(sections: seq<Entry>, position: string)
    ensures var k := AtOrBelow(sections, position);
            && (k < |sections| ==> Less(position, sections[k].position))
            && forall i :: 0 <= i < k ==> !Less(position, sections[i].position)
  {
    hide Less;
    if sections != [] && !Less(position, sections[0].position) { AtOrBelowStops(sections[1..], position); }
  }

  lemma BelowStops(sections: seq<Entry>, position: string)
    ensures var k := Below(sections, position);
            && (k < |sections| ==> !Less(sections[k].position, position))
            && forall i :: 0 <= i < k ==> Less(sections[i].position, position)
  {
    hide Less;
    if sections != [] && Less(sections[0].position, position) { BelowStops(sections[1..], position); }
  }

  /** With one neighbour the slot is never empty. */
  lemma SlotOrdered(sections: seq<Entry>, after: string, before: string, bounds: Bounds)
    requires Listing(sections) && SlotOf(sections, after, before, bounds) && bounds.Bounds?
    ensures (after == "") != (before == "") ==> Ordered(bounds.low, bounds.high)
    ensures after != "" && before != "" ==> Canonical(bounds.low) && Canonical(bounds.high)
  {
    hide Less, Canonical;
    if after != "" && before == "" {
      var i := Find(sections, after);
      var low := sections[i].position;
      var k := AtOrBelow(sections, low);
      AtOrBelowStops(sections, low);
      if k <= i {
        Ascending(sections, k, i);
        LessTotal(low, sections[k].position);
      }
      assert i < k;
      Ascending(sections, i, k - 1);
      CutOrdered(sections, bounds.low, bounds.high, k);
    } else if after == "" && before != "" {
      var i := Find(sections, before);
      var high := sections[i].position;
      var k := Below(sections, high);
      BelowStops(sections, high);
      LessIrreflexive(high);
      assert k <= i;
      Ascending(sections, k, i);
      CutOrdered(sections, bounds.low, bounds.high, k);
    }
  }

  lemma SlotChosen(sections: seq<Entry>, after: string, before: string, bounds: Bounds, r: Result)
    requires Listing(sections) && SlotOf(sections, after, before, bounds) && bounds.Bounds?
    requires r.Key? <==> Ordered(bounds.low, bounds.high)
    requires r.Key? ==> Fits(bounds.low, r.key, bounds.high)
    requires r.InvalidBefore? ==> bounds.low != "" && !Canonical(bounds.low)
    requires r.InvalidAfter? ==> bounds.high != "" && !Canonical(bounds.high)
    ensures Chosen(sections, after, before, if r.Key? then Placed(r.key) else NoRoom(r))
  {
    hide Less, Listing, Fits, Sits, AllDigits, StrictlySorted;
    SlotOrdered(sections, after, before, bounds);
    if after != "" && before != "" {
      assert bounds.low != "" && bounds.high != "";
    } else {
      hide Canonical, Ordered;
      assert r.Key?;
      var k := if after != "" then AtOrBelow(sections, PositionOf(sections, after)) else Below(sections, PositionOf(sections, before));
      SitsAtCut(sections, bounds.low, r.key, bounds.high, k);
    }
  }

  method ChoosePosition(sections: seq<Entry>, after: string, before: string) returns (outcome: Outcome)
    requires Listing(sections) && (after != "" || before != "")
    ensures Chosen(sections, after, before, outcome)
  {
    hide Less, Canonical, Fits, Listing;
    var bounds: Bounds;
    if after != "" && before != "" {
      bounds := SlotBetween(sections, after, before);
    } else if after != "" {
      bounds := SlotAfter(sections, after);
    } else {
      bounds := SlotBefore(sections, before);
    }
    if bounds.Missing? {
      return NotFound(bounds.id);
    }
    var r := Between(bounds.low, bounds.high);
    SlotChosen(sections, after, before, bounds, r);
    return if r.Key? then Placed(r.key) else NoRoom(r);
  }

  method AddSection(sections: seq<Entry>, position: string, after: string, before: string) returns (outcome: Outcome)
    requires Listing(sections)
    ensures position != "" ==>
              if Canonical(position) then outcome == Placed(position)
              else outcome.BadPosition? && Explains(Invalid(outcome.error), position)
    ensures position == "" && (after != "" || before != "") ==> Chosen(sections, after, before, outcome)
    ensures position == "" && after == "" && before == "" ==>
              outcome.Placed? && Sits(sections, outcome.position, |sections|)
  {
    hide Less, Canonical, Fits, Chosen, Explains;
    if position != "" {
      var check := Validate(position);
      return if check.Valid? then Placed(position) else BadPosition(check.error);
    }
    if after != "" || before != "" {
      outcome := ChoosePosition(sections, after, before);
      return;
    }
    var last := "";
    if |sections| > 0 { last := sections[|sections| - 1].position; }
    var r := Between(last, "");
    SitsAtCut(sections, last, r.key, "", |sections|);
    return Placed(r.key);
  }

  function Without(sections: seq<Entry>, id: string): (rest: seq<Entry>)
    ensures |rest| <= |sections|
  {
    if sections == [] then []
    else
      var n := |sections| - 1;
      Without(sections[..n], id) + if sections[n].id != id then [sections[n]] else []
  }

  lemma {:induction false} WithoutMembers(sections: seq<Entry>, id: string)
    ensures forall s :: s in Without(sections, id) <==> s in sections && s.id != id
  {
    if sections == [] {
    } else {
      var n := |sections| - 1;
      assert sections == sections[..n] + [sections[n]];
      WithoutMembers(sections[..n], id);
    }
  }

  lemma ListingInit(sections: seq<Entry>)
    requires Listing(sections) && sections != []
    ensures Listing(sections[..|sections| - 1])
  {
    hide Canonical, SectionLess;
  }

  lemma {:induction false} WithoutInside(sections: seq<Entry>, id: string)
    ensures forall s :: s in Without(sections, id) ==> s in sections
  {
    WithoutMembers(sections, id);
  }

  lemma LastExtends(sections: seq<Entry>, rest: seq<Entry>)
    requires Listing(sections) && sections != [] && Listing(rest) && forall s :: s in rest ==> s in sections[..|sections| - 1]
    ensures Listing(rest + [sections[|sections| - 1]])
  {
    hide Canonical, SectionLess;
    var n := |sections| - 1;
    forall i | 0 <= i < |rest| ensures SectionLess(rest[i], sections[n]) && rest[i].id != sections[n].id {
      assert rest[i] in rest;
      var k :| 0 <= k < n && sections[k] == rest[i];
    }
  }

  lemma NextWithout(sections: seq<Entry>, i: nat, id: string)
    requires i < |sections|
    ensures Without(sections[..i + 1], id) == Without(sections[..i], id) + (if sections[i].id != id then [sections[i]] else [])
  {
    assert sections[..i + 1][..i] == sections[..i];
  }

  lemma {:induction false} WithoutListing(sections: seq<Entry>, id: string)
    requires Listing(sections)
    ensures Listing(Without(sections, id))
  {
    if sections == [] {
    } else {
      hide Listing, Without;
      var n := |sections| - 1;
      var rest := Without(sections[..n], id);
      ListingInit(sections);
      WithoutListing(sections[..n], id);
      assert sections[..n + 1] == sections;
      NextWithout(sections, n, id);
      WithoutInside(sections[..n], id);
      if sections[n].id != id { LastExtends(sections, rest); }
    }
  }

  method Remaining(sections: seq<Entry>, id: string) returns (remaining: seq<Entry>)
    ensures remaining == Without(sections, id)
  {
    remaining := [];
    for i := 0 to |sections|
      invariant remaining == Without(sections[..i], id)
    {
      NextWithout(sections, i, id);
      hide Without;
      if sections[i].id != id {
        remaining := remaining + [sections[i]];
      }
    }
    assert sections[..|sections|] == sections;
  }

  method MoveSection(sections: seq<Entry>, id: string, after: string, before: string) returns (outcome: Outcome)
    requires Listing(sections) && id != ""
    ensures after == "" && before == "" <==> outcome == NoNeighbour
    ensures id in {after, before} <==> outcome == RelativeToItself
    ensures (after != "" || before != "") && id !in {after, before} ==>
              Chosen(Without(sections, id), after, before, outcome)
  {
    if after == "" && before == "" {
      return NoNeighbour;
    }
    if after == id || before == id {
      return RelativeToItself;
    }
    var remaining := Remaining(sections, id);
    WithoutListing(sections, id);
    hide Less, Canonical, Fits, Listing, Sits, Without;
    outcome := ChoosePosition(remaining, after, before);
  }

  // ---- What the next listing shows ----

  /** The next read lists the placed section right at its cut, whatever the id of the op that placed it, and
    * the others around it in the order they had. Any sorted listing of the same sections is this one.
    */
  lemma ListedAtCut(sections: seq<Entry>, placed: Entry, k: nat, listed: seq<Entry>)
    requires Listing(sections) && k <= |sections| && Sits(sections, placed.position, k)
    requires SortedListOf(SectionLess, listed, (set s | s in sections) + {placed})
    ensures listed == sections[..k] + [placed] + sections[k..]
  {
    var items := (set s | s in sections) + {placed};
    LessIrreflexive(placed.position);
    SectionsStrictTotal(items, sections, placed);
    SplicedSorted(sections, placed, k);
    SortedListUnique(SectionLess, listed, sections[..k] + [placed] + sections[k..], items);
  }

  lemma SplicedSorted(sections: seq<Entry>, placed: Entry, k: nat)
    requires StrictlySorted(SectionLess, sections) && k <= |sections| && Sits(sections, placed.position, k)
    ensures SortedListOf(SectionLess, sections[..k] + [placed] + sections[k..], (set s | s in sections) + {placed})
  {
    var listed := sections[..k] + [placed] + sections[k..];
    forall i, j | 0 <= i < j < |listed| ensures SectionLess(listed[i], listed[j]) {
      SplicedPair(sections, placed, k, i, j);
    }
    assert sections == sections[..k] + sections[k..];
    forall s ensures s in listed <==> s in sections || s == placed {}
  }

  lemma SplicedPair(sections: seq<Entry>, placed: Entry, k: nat, i: nat, j: nat)
    requires StrictlySorted(SectionLess, sections) && k <= |sections| && Sits(sections, placed.position, k)
    requires i < j <= |sections|
    ensures var listed := sections[..k] + [placed] + sections[k..]; SectionLess(listed[i], listed[j])
  {
    hide Less, Canonical;
    var a, b := if i < k then sections[i] else if i == k then placed else sections[i - 1],
                if j < k then sections[j] else if j == k then placed else sections[j - 1];
    if i == k {
      LessTotal(placed.position, b.position);
    } else if j == k {
      LessTotal(a.position, placed.position);
    } else {
      assert SectionLess(sections[if i < k then i else i - 1], sections[if j < k then j else j - 1]);
    }
    assert SectionLess(a, b);
  }

  lemma SectionsStrictTotal(items: set<Entry>, sections: seq<Entry>, placed: Entry)
    requires StrictlySorted(SectionLess, sections) && items == (set s | s in sections) + {placed}
    requires forall s :: s in sections ==> s.position != placed.position
    ensures StrictTotal(SectionLess, items)
  {
    hide Less;
    forall a, b | a in items && b in items
      ensures !SectionLess(a, a) && (a != b ==> SectionLess(a, b) || SectionLess(b, a))
    {
      CompareSigns((a.position, a.opId), (a.position, a.opId));
      CompareSigns((a.position, a.opId), (b.position, b.opId));
      if a in sections && b in sections && a != b {
        var i :| 0 <= i < |sections| && sections[i] == a;
        var j :| 0 <= j < |sections| && sections[j] == b;
        assert i < j ==> SectionLess(sections[i], sections[j]);
        assert j < i ==> SectionLess(sections[j], sections[i]);
      }
    }
    forall a, b, c | SectionLess(a, b) && SectionLess(b, c) ensures SectionLess(a, c) {
      PairTransitive((a.position, a.opId), (b.position, b.opId), (c.position, c.opId));
    }
  }

  // ---- Where the chosen place is, read off the listing ----

  lemma {:induction false} FoundEntry(sections: seq<Entry>, a: Entry)
    requires Listing(sections) && a in sections
    ensures Has(sections, a.id) && PositionOf(sections, a.id) == a.position && a.id != "" && Canonical(a.position)
  {
    hide Canonical, SectionLess;
    var i :| 0 <= i < |sections| && sections[i] == a;
  }

  lemma {:induction false} NotThere(sections: seq<Entry>, id: string)
    requires forall t :: t in sections ==> t.id != id
    ensures !Has(sections, id)
  {}

  lemma {:induction false} CountedAtOrBelow(sections: seq<Entry>, position: string, i: nat)
    requires StrictlySorted(SectionLess, sections) && i < |sections|
    ensures i < AtOrBelow(sections, position) <==> !Less(position, sections[i].position)
    decreases |sections|
  {
    hide Less, SectionLess;
    if i == 0 {
    } else if Less(position, sections[0].position) {
      Ascending(sections, 0, i);
      if sections[0].position != sections[i].position { LessTransitive(position, sections[0].position, sections[i].position); }
    } else {
      CountedAtOrBelow(sections[1..], position, i - 1);
    }
  }

  lemma {:induction false} CountedBelow(sections: seq<Entry>, position: string, i: nat)
    requires StrictlySorted(SectionLess, sections) && i < |sections|
    ensures i < Below(sections, position) <==> Less(sections[i].position, position)
    decreases |sections|
  {
    hide Less, SectionLess;
    if i == 0 {
    } else if !Less(sections[0].position, position) {
      Ascending(sections, 0, i);
      if Less(sections[i].position, position) && sections[0].position != sections[i].position {
        LessTransitive(sections[0].position, sections[i].position, position);
      }
    } else {
      CountedBelow(sections[1..], position, i - 1);
    }
  }

  /** A place next to one section is on its far side of all that are tied with it, and on the right side of all others. */
  lemma {:induction false} PlacedBeside(sections: seq<Entry>, after: string, before: string, outcome: Outcome, a: Entry, t: Entry)
    requires Listing(sections) && Chosen(sections, after, before, outcome) && a in sections && t in sections
    ensures after == a.id && before == "" ==>
              && outcome.Placed? && Canonical(outcome.position)
              && (if Less(a.position, t.position) then Less(outcome.position, t.position) else Less(t.position, outcome.position))
    ensures after == "" && before == a.id ==>
              && outcome.Placed? && Canonical(outcome.position)
              && (if Less(t.position, a.position) then Less(t.position, outcome.position) else Less(outcome.position, t.position))
  {
    FoundEntry(sections, a);
    var i :| 0 <= i < |sections| && sections[i] == t;
    CountedAtOrBelow(sections, a.position, i);
    CountedBelow(sections, a.position, i);
    hide Less, Canonical, Listing, Has, PositionOf, AtOrBelow, Below, Fits;
  }

  /** Between two sections a place is found exactly when the first has the smaller position; a neighbour that is not there is
    * named.
    */
  lemma {:induction false} PlacedBetween(sections: seq<Entry>, after: string, before: string, outcome: Outcome, a: Entry, b: Entry)
    requires Listing(sections) && Chosen(sections, after, before, outcome)
    ensures a in sections && b in sections && after == a.id && before == b.id ==>
              && (outcome.Placed? <==> Less(a.position, b.position))
              && (outcome.Placed? ==> Less(a.position, outcome.position) && Less(outcome.position, b.position))
    ensures after != "" && (forall t :: t in sections ==> t.id != after) ==> outcome == NotFound(after)
    ensures a in sections && after == a.id && before != "" && (forall t :: t in sections ==> t.id != before) ==> outcome == NotFound(before)
    ensures after == "" && before != "" && (forall t :: t in sections ==> t.id != before) ==> outcome == NotFound(before)
  {
    if a in sections { FoundEntry(sections, a); }
    if b in sections { FoundEntry(sections, b); }
    if forall t :: t in sections ==> t.id != after { NotThere(sections, after); }
    if forall t :: t in sections ==> t.id != before { NotThere(sections, before); }
    hide Less, Canonical, Listing, Has, PositionOf, AtOrBelow, Below, Sits;
  }

  /** What is left to move among: the other sections, in the order they had. */
  lemma {:induction false} OthersStay(sections: seq<Entry>, id: string, i: nat, j: nat)
    requires Listing(sections)
    ensures forall t :: t in Without(sections, id) <==> t in sections && t.id != id
    ensures Listing(Without(sections, id))
    ensures i < j < |Without(sections, id)| ==>
              exists k, m :: 0 <= k < m < |sections| && sections[k] == Without(sections, id)[i] && sections[m] == Without(sections, id)[j]
  {
    WithoutMembers(sections, id);
    WithoutListing(sections, id);
    var rest := Without(sections, id);
    if i < j < |rest| {
      assert rest[i] in rest && rest[j] in rest;
      var k :| 0 <= k < |sections| && sections[k] == rest[i];
      var m :| 0 <= m < |sections| && sections[m] == rest[j];
      EarlierPlace(sections, rest, i, j, k, m);
    }
  }

  lemma {:induction false} EarlierPlace(sections: seq<Entry>, rest: seq<Entry>, i: nat, j: nat, k: nat, m: nat)
    requires Listing(sections) && Listing(rest) && i < j < |rest| && k < |sections| && m < |sections|
    requires sections[k] == rest[i] && sections[m] == rest[j]
    ensures k < m
  {
    hide Canonical, Compare;
    var a, b := rest[i], rest[j];
    CompareSigns((a.position, a.opId), (b.position, b.opId));
    assert SectionLess(a, b) && !SectionLess(b, a);
  }

  /** A listing ascends by position, and among the same position by op id. */
  lemma ListingShown(sections: seq<Entry>, i: nat, j: nat)
    requires Listing(sections) && i < j < |sections|
    ensures var a, b := sections[i], sections[j]; Less(a.position, b.position) || (a.position == b.position && Less(a.opId, b.opId))
  {
    hide Less, Canonical;
    LessTotal(sections[i].position, sections[j].position);
    assert SectionLess(sections[i], sections[j]);
  }
}
