/** Fractional indexing: base-62 position keys that can be subdivided forever. */
module FractionalIndex {
  import opened Sorting
  import opened Strings

  const DIGITS := "0123456789"
  const UPPER := "ABCDEFGHIJKLMNOPQRSTUVWXYZ"
  const LOWER := "abcdefghijklmnopqrstuvwxyz"
  const ALPHABET := DIGITS + UPPER + LOWER
  const BASE: int := 62
  const MID_CHAR: char := 'V'

  datatype KeyError = EmptyKey | InvalidCharacter(at: nat) | TrailingZero
  datatype Check = Valid | Invalid(error: KeyError)
  datatype Result = Key(key: string) | InvalidBefore(error: KeyError) | InvalidAfter(error: KeyError) | InvalidRange

  function CharIndex(c: char): int {
    if '0' <= c <= '9' then c as int - '0' as int
    else if 'A' <= c <= 'Z' then c as int - 'A' as int + 10
    else if 'a' <= c <= 'z' then c as int - 'a' as int + 36
    else -1
  }

  lemma DigitsInOrder(i: int)
    requires 0 <= i < 10
    ensures DIGITS[i] as int == '0' as int + i
  {}

  lemma UpperInOrder(i: int)
    requires 0 <= i < 26
    ensures UPPER[i] as int == 'A' as int + i
  {}

  lemma LowerInOrder(i: int)
    requires 0 <= i < 26
    ensures LOWER[i] as int == 'a' as int + i
  {}

  /** The alphabet lists its characters in index order, so indexing it inverts CharIndex. */
  lemma AlphabetIndex(i: int)
    requires 0 <= i < |ALPHABET|
    ensures CharIndex(ALPHABET[i]) == i && |ALPHABET| == BASE
  {
    if i < 10 {
      DigitsInOrder(i);
    } else if i < 36 {
      UpperInOrder(i - 10);
    } else {
      LowerInOrder(i - 36);
    }
  }

  /** Index order is byte order. */
  lemma IndexIsOrder(a: char, b: char)
    requires CharIndex(a) >= 0 && CharIndex(b) >= 0
    ensures a < b <==> CharIndex(a) < CharIndex(b)
    ensures a == b <==> CharIndex(a) == CharIndex(b)
  {}

  function At(i: int): (c: char)
    requires 0 <= i < BASE
    ensures CharIndex(c) == i
  {
    AlphabetIndex(i);
    ALPHABET[i]
  }

  predicate AllDigits(key: string) { forall i :: 0 <= i < |key| ==> CharIndex(key[i]) >= 0 }

  /** Non-empty, base 62, and not ending in zero. */
  predicate Canonical(key: string) { key != "" && AllDigits(key) && key[|key| - 1] != '0' }

  predicate Bound(key: string) { key == "" || Canonical(key) }

  /** What is wrong with a key, if anything: the error is the one Validate reports first. */
  predicate Explains(check: Check, key: string) {
    match check
    case Valid => Canonical(key)
    case Invalid(EmptyKey) => key == ""
    case Invalid(InvalidCharacter(at)) => at < |key| && CharIndex(key[at]) < 0 && AllDigits(key[..at])
    case Invalid(TrailingZero) => key != "" && AllDigits(key) && key[|key| - 1] == '0'
  }

  /** A key has one explanation, and it is no error exactly when the key is canonical. */
  lemma {:induction false} OneExplanation(key: string, check: Check, other: Check)
    requires Explains(check, key) && Explains(other, key)
    ensures check == other
    ensures check.Valid? <==> Canonical(key)
  {
    hide CharIndex;
    forall i | 0 <= i < |key| && AllDigits(key[..i]) ensures forall k :: 0 <= k < i ==> CharIndex(key[k]) >= 0 {
      assert forall k :: 0 <= k < i ==> key[..i][k] == key[k];
    }
  }

  method Validate(key: string) returns (check: Check)
    ensures Explains(check, key)
    ensures check.Valid? <==> Canonical(key)
  {
    if key == "" {
      return Invalid(EmptyKey);
    }
    for i := 0 to |key|
      invariant forall k :: 0 <= k < i ==> CharIndex(key[k]) >= 0
    {
      if CharIndex(key[i]) < 0 {
        return Invalid(InvalidCharacter(i));
      }
    }
    return if key[|key| - 1] == '0' then Invalid(TrailingZero) else Valid;
  }

  // ---- Comparing keys at the place where they part ----

  /** `a` and `b` agree up to `p`, where `a` ends or has the smaller character. */
  predicate SmallerAt(a: string, b: string, p: nat) {
    && p <= |a| && p < |b| && (forall i :: 0 <= i < p ==> a[i] == b[i])
    && (p < |a| ==> a[p] < b[p])
  }

  lemma {:induction false} SmallerIsLess(a: string, b: string, p: nat)
    requires SmallerAt(a, b, p)
    ensures Less(a, b)
  {
    if p == 0 {
    } else {
      forall i | 0 <= i < p - 1 ensures a[1..][i] == b[1..][i] {
        assert a[i + 1] == b[i + 1];
      }
      SmallerIsLess(a[1..], b[1..], p - 1);
    }
  }

  /** The place where two keys in order part. */
  lemma {:induction false} LessIsSmaller(a: string, b: string) returns (p: nat)
    requires Less(a, b)
    ensures SmallerAt(a, b, p)
  {
    if a == "" || a[0] < b[0] {
      p := 0;
    } else {
      var q := LessIsSmaller(a[1..], b[1..]);
      p := q + 1;
      forall i | 0 <= i < p ensures a[i] == b[i] {
        assert i > 0 ==> a[1..][i - 1] == b[1..][i - 1];
      }
    }
  }

  // ---- The key between two bounds ----

  function Max(a: nat, b: nat): nat { if a < b then b else a }

  predicate Ordered(before: string, after: string) {
    Bound(before) && Bound(after) && (before != "" && after != "" ==> Less(before, after))
  }

  /** A canonical key strictly between the bounds and at most one character longer than the longer one.
    * An empty bound does not constrain.
    */
  predicate Fits(before: string, key: string, after: string) {
    && Canonical(key)
    && (before != "" ==> Less(before, key))
    && (after != "" ==> Less(key, after))
    && |key| <= Max(|before|, |after|) + 1
  }

  /** The lower bound's digit at a place, read with endless zeros behind it. */
  function Low(before: string, i: nat): int {
    if i < |before| then CharIndex(before[i]) else 0
  }

  predicate Differ(before: string, after: string, i: nat) {
    i < |after| && Low(before, i) != CharIndex(after[i])
  }

  /** The upper bound's digit at a place: its own while the two bounds agree, then the whole base. */
  ghost function High(before: string, after: string, i: nat): int {
    if after == "" || exists j: nat :: j < i && Differ(before, after, j) then BASE
    else if i < |after| then CharIndex(after[i])
    else 0
  }

  /** The lower bound up to the first place with room for another digit, and there the digit midway. */
  ghost predicate Midway(before: string, key: string, after: string) {
    && key != "" && AllDigits(key)
    && (forall i: nat :: i < |key| - 1 ==>
          CharIndex(key[i]) == Low(before, i) && High(before, after, i) < Low(before, i) + 2)
    && var q := |key| - 1;
       var low, high := Low(before, q), High(before, after, q);
       high >= low + 2 && CharIndex(key[q]) == low + (high - low) / 2
  }

  /** The description pins the key down: there is one key midway between two bounds. */
  lemma MidwayUnique(before: string, a: string, b: string, after: string)
    requires Midway(before, a, after) && Midway(before, b, after)
    ensures a == b
  {
    hide Low, High;
    assert |a| == |b|;
    forall i: nat | i < |a| ensures a[i] == b[i] {
      IndexIsOrder(a[i], b[i]);
    }
  }

  /** Where ordered bounds part, the upper digit is the larger one. */
  lemma FirstDifference(before: string, after: string) returns (p: nat)
    requires Ordered(before, after) && after != ""
    ensures p < |after| && Low(before, p) < CharIndex(after[p])
    ensures forall i: nat :: i < p ==> !Differ(before, after, i)
  {
    var d := 0;
    if before != "" { d := LessIsSmaller(before, after); }
    if d < |before| {
      IndexIsOrder(before[d], after[d]);
      p := d;
    } else {
      p := d;
      while p < |after| - 1 && after[p] == '0'
        invariant d <= p < |after| && forall i: nat :: i < p ==> !Differ(before, after, i)
      {
        p := p + 1;
      }
      IndexIsOrder(after[p], '0');
    }
  }

  lemma MidwayCanonical(before: string, key: string, after: string)
    requires Bound(before) && Midway(before, key, after)
    ensures Canonical(key)
  {
    hide High;
    assert Low(before, |key| - 1) >= 0;
  }

  lemma MidwayAbove(before: string, key: string, after: string)
    requires Canonical(before) && Midway(before, key, after)
    ensures Less(before, key)
  {
    hide High;
    var q := |key| - 1;
    var p := if q < |before| then q else |before|;
    forall i | 0 <= i < p ensures before[i] == key[i] {
      IndexIsOrder(before[i], key[i]);
    }
    if q < |before| { IndexIsOrder(before[q], key[q]); }
    assert SmallerAt(before, key, p);
    SmallerIsLess(before, key, p);
  }

  lemma MidwayBelow(before: string, key: string, after: string, p: nat)
    requires Bound(before) && Canonical(after) && Midway(before, key, after)
    requires p < |after| && Low(before, p) < CharIndex(after[p]) && forall i: nat :: i < p ==> !Differ(before, after, i)
    ensures Less(key, after)
  {
    var q := |key| - 1;
    forall i: nat | i < p ensures High(before, after, i) == Low(before, i) {
      assert !Differ(before, after, i);
    }
    assert p <= q;
    forall i | 0 <= i < p ensures key[i] == after[i] {
      assert !Differ(before, after, i);
      IndexIsOrder(key[i], after[i]);
    }
    assert High(before, after, p) == CharIndex(after[p]);
    IndexIsOrder(key[p], after[p]);
    assert SmallerAt(key, after, p);
    SmallerIsLess(key, after, p);
  }

  lemma MidwayShort(before: string, key: string, after: string, p: nat)
    requires Bound(before) && Bound(after) && Midway(before, key, after)
    requires after == "" || (p < |after| && Differ(before, after, p))
    ensures |key| <= Max(|before|, |after|) + 1
  {
    var n := Max(|before|, |after|);
    assert High(before, after, n) == BASE;
  }

  /** The key midway between two bounds is canonical, lies strictly between them, and is at most one
    * character longer than the longer of them.
    */
  lemma MidwayFits(before: string, key: string, after: string)
    requires Ordered(before, after) && Midway(before, key, after)
    ensures Fits(before, key, after)
  {
    hide Midway, Less, Canonical, Low, High;
    MidwayCanonical(before, key, after);
    if before != "" { MidwayAbove(before, key, after); }
    if after == "" {
      MidwayShort(before, key, after, 0);
    } else {
      var p := FirstDifference(before, after);
      MidwayBelow(before, key, after, p);
      MidwayShort(before, key, after, p);
    }
  }

  // ---- Computing it ----

  function Repeat(c: char, n: nat): (s: string)
    ensures |s| == n && forall i :: 0 <= i < n ==> s[i] == c
  {
    if n == 0 then "" else Repeat(c, n - 1) + [c]
  }

  method KeyBelow(after: string) returns (key: string)
    requires Canonical(after)
    ensures Midway("", key, after)
  {
    var k := 0;
    while k < |after| && after[k] == '0'
      invariant k <= |after| && forall i :: 0 <= i < k ==> after[i] == '0'
    {
      k := k + 1;
    }
    IndexIsOrder(after[k], '0');
    var idx := CharIndex(after[k]);
    if idx > 1 {
      return Repeat('0', k) + [At(idx / 2)];
    }
    key := Repeat('0', k + 1) + [MID_CHAR];
    assert Differ("", after, k);
  }

  method KeyAbove(before: string) returns (key: string)
    requires Canonical(before)
    ensures Midway(before, key, "")
  {
    var m := 0;
    while m < |before| && before[m] == 'z'
      invariant m <= |before| && forall i :: 0 <= i < m ==> before[i] == 'z'
    {
      m := m + 1;
    }
    if m == |before| {
      return before + [MID_CHAR];
    }
    var idx := CharIndex(before[m]);
    IndexIsOrder(before[m], 'z');
    key := before[..m] + [At((idx + BASE) / 2)];
  }

  /** Before `p` the bounds have the same digits. */
  predicate SameDigits(before: string, after: string, p: nat) {
    p < |after| && forall i: nat :: i < p ==> !Differ(before, after, i)
  }

  lemma SameHigh(before: string, after: string, p: nat)
    requires SameDigits(before, after, p)
    ensures forall i: nat :: i < p ==> High(before, after, i) == Low(before, i)
    ensures High(before, after, p) == CharIndex(after[p])
  {
    forall i: nat | i < p ensures High(before, after, i) == Low(before, i) {
      assert !Differ(before, after, i);
    }
  }

  predicate Agree(a: string, b: string, p: nat) {
    p <= |a| && p <= |b| && forall i :: 0 <= i < p ==> a[i] == b[i]
  }

  lemma PartedAt(before: string, after: string, p: nat)
    requires Canonical(before) && Canonical(after) && Less(before, after) && Agree(before, after, p)
    requires p == |before| || p == |after| || before[p] != after[p]
    ensures SameDigits(before, after, p) && Canonical(after[p..]) && AllDigits(before)
    ensures p < |before| ==> CharIndex(before[p]) < CharIndex(after[p])
    ensures p + 1 < |before| ==> Canonical(before[p + 1..])
  {
    hide CharIndex, Less;
    PartHere(before, after, p);
    SuffixCanonical(after, p);
    if p + 1 < |before| { SuffixCanonical(before, p + 1); }
    assert AllDigits(before);
    AgreeSameDigits(before, after, p);
  }

  lemma PartHere(before: string, after: string, p: nat)
    requires Less(before, after) && Agree(before, after, p) && AllDigits(before) && AllDigits(after)
    requires p == |before| || p == |after| || before[p] != after[p]
    ensures p < |after| && (p < |before| ==> CharIndex(before[p]) < CharIndex(after[p]))
  {
    hide CharIndex, Less;
    var d := LessIsSmaller(before, after);
    assert d >= p;
    if p < |before| { IndexIsOrder(before[p], after[p]); }
  }

  lemma SuffixCanonical(key: string, p: nat)
    requires Canonical(key) && p < |key|
    ensures Canonical(key[p..])
  {
    hide CharIndex;
  }

  lemma AgreeSameDigits(before: string, after: string, p: nat)
    requires Agree(before, after, p) && p < |after|
    ensures SameDigits(before, after, p)
  {
    hide CharIndex;
  }

  /** A key below the rest of `after` serves once the common prefix is put back. */
  lemma ShiftPrefix(before: string, low: string, after: string)
    requires |before| < |after| && AllDigits(before) && Agree(before, after, |before|)
    requires Midway("", low, after[|before|..])
    ensures Midway(before, before + low, after)
  {
    var p, rest := |before|, after[|before|..];
    forall i: nat ensures Low("", i) == Low(before, p + i) && Differ("", rest, i) == Differ(before, after, p + i) {}
    forall i: nat ensures High("", rest, i) == High(before, after, p + i) {
      if j: nat :| j < p + i && Differ(before, after, j) {
        assert Differ("", rest, j - p);
      }
      if j: nat :| j < i && Differ("", rest, j) {
        assert Differ(before, after, p + j);
      }
    }
    assert forall i: nat :: i < p ==> !Differ(before, after, i);
    var key := before + low;
    forall i: nat | i < |key|
      ensures i < p ==> CharIndex(key[i]) == Low(before, i) && High(before, after, i) == Low(before, i)
      ensures i >= p ==> Low(before, i) == Low("", i - p) && High(before, after, i) == High("", rest, i - p)
    {}
  }

  /** Past the place where the bounds part, only the lower one counts. */
  lemma ShiftTail(before: string, tail: string, after: string, p: nat)
    requires p + 1 < |before| && AllDigits(before) && SameDigits(before, after, p)
    requires CharIndex(after[p]) == CharIndex(before[p]) + 1
    requires Midway(before[p + 1..], tail, "")
    ensures Midway(before, before[..p + 1] + tail, after)
  {
    var key, rest := before[..p + 1] + tail, before[p + 1..];
    hide CharIndex;
    assert Differ(before, after, p);
    SameHigh(before, after, p);
    hide Differ, SameDigits;
    forall i: nat | p < i < |key|
      ensures Low(before, i) == Low(rest, i - p - 1) && High(before, after, i) == BASE && key[i] == tail[i - p - 1]
    {}
    forall i: nat {:trigger tail[i]} | i < |tail| ensures High(rest, "", i) == BASE {}
    hide High, Low;
    forall i: nat | p < i < |key| - 1
      ensures CharIndex(key[i]) == Low(before, i) && High(before, after, i) < Low(before, i) + 2
    {
      assert CharIndex(tail[i - p - 1]) == Low(rest, i - p - 1);
    }
  }

  lemma MidwayGap(before: string, after: string, p: nat, c: char)
    requires p < |before| && AllDigits(before) && SameDigits(before, after, p)
    requires var i1, i2 := CharIndex(before[p]), CharIndex(after[p]); i2 - i1 > 1 && CharIndex(c) == i1 + (i2 - i1) / 2
    ensures Midway(before, before[..p] + [c], after)
  {
    SameHigh(before, after, p);
    hide High, Differ;
  }

  lemma MidwayEnd(before: string, after: string, p: nat)
    requires |before| == p + 1 && AllDigits(before) && SameDigits(before, after, p)
    requires CharIndex(after[p]) == CharIndex(before[p]) + 1
    ensures Midway(before, before + [MID_CHAR], after)
  {
    SameHigh(before, after, p);
    assert Differ(before, after, p);
    assert High(before, after, p + 1) == BASE;
    hide High, Differ;
  }

  method CommonPrefix(before: string, after: string) returns (p: nat)
    ensures Agree(before, after, p)
    ensures p == |before| || p == |after| || before[p] != after[p]
  {
    p := 0;
    while p < |before| && p < |after| && before[p] == after[p]
      invariant Agree(before, after, p)
    {
      p := p + 1;
    }
  }

  method KeyInside(before: string, after: string) returns (key: string)
    requires Canonical(before) && Canonical(after) && Less(before, after)
    ensures Midway(before, key, after)
  {
    var p := CommonPrefix(before, after);
    PartedAt(before, after, p);
    hide *;
    if p == |before| {
      var low := KeyBelow(after[p..]);
      ShiftPrefix(before, low, after);
      return before + low;
    }
    var i1, i2 := CharIndex(before[p]), CharIndex(after[p]);
    if i2 - i1 > 1 {
      var mid := i1 + (i2 - i1) / 2;
      MidwayGap(before, after, p, At(mid));
      return before[..p] + [At(mid)];
    }
    if |before| == p + 1 {
      assert before[..p + 1] == before;
      MidwayEnd(before, after, p);
      return before[..p + 1] + [MID_CHAR];
    }
    var tail := KeyAbove(before[p + 1..]);
    key := before[..p + 1] + tail;
    ShiftTail(before, tail, after, p);
  }

  /** A key exists exactly when both bounds are canonical (or absent) and in order, and it is the one
    * midway between them; otherwise the error names the first bound that is not canonical, or the range.
    */
  method Between(before: string, after: string) returns (r: Result)
    ensures r.Key? <==> Ordered(before, after)
    ensures r.Key? ==> Midway(before, r.key, after) && Fits(before, r.key, after)
    ensures r.InvalidBefore? ==> before != "" && !Canonical(before) && Explains(Invalid(r.error), before)
    ensures r.InvalidAfter? ==> Bound(before) && after != "" && !Canonical(after) && Explains(Invalid(r.error), after)
    ensures r.InvalidRange? ==> Canonical(before) && Canonical(after) && !Less(before, after)
  {
    hide Fits, Less, Canonical, Explains;
    if before != "" {
      var check := Validate(before);
      if check.Invalid? {
        return InvalidBefore(check.error);
      }
    }
    if after != "" {
      var check := Validate(after);
      if check.Invalid? {
        return InvalidAfter(check.error);
      }
    }
    if before != "" && after != "" && !Less(before, after) {
      return InvalidRange;
    }
    var key: string;
    if before == "" && after == "" {
      key := [MID_CHAR];
    } else if before == "" {
      key := KeyBelow(after);
    } else if after == "" {
      key := KeyAbove(before);
    } else {
      key := KeyInside(before, after);
    }
    MidwayFits(before, key, after);
    return Key(key);
  }

  // ---- Subdividing forever ----

  /** A run of insertions, each into one of the two halves the previous key left. */
  ghost predicate Narrowing(bounds: seq<(string, string)>, keys: seq<string>) {
    && |bounds| == |keys| + 1
    && forall i :: 0 <= i < |keys| ==>
         Midway(bounds[i].0, keys[i], bounds[i].1) && Half(bounds[i], keys[i], bounds[i + 1])
  }

  predicate Half(bounds: (string, string), key: string, next: (string, string)) {
    next == (bounds.0, key) || next == (key, bounds.1)
  }

  predicate Within(outer: (string, string), inner: (string, string)) {
    && (outer.0 == inner.0 || (inner.0 != "" && (outer.0 == "" || Less(outer.0, inner.0))))
    && (outer.1 == inner.1 || (inner.1 != "" && (outer.1 == "" || Less(inner.1, outer.1))))
  }

  lemma OneHalf(first: (string, string), bounds: (string, string), key: string, next: (string, string))
    requires Ordered(bounds.0, bounds.1) && Midway(bounds.0, key, bounds.1) && Half(bounds, key, next)
    requires Within(first, bounds)
    ensures Ordered(next.0, next.1) && Within(first, next)
    ensures Fits(bounds.0, key, bounds.1) && Max(|next.0|, |next.1|) <= Max(|bounds.0|, |bounds.1|) + 1
  {
    hide Midway, Less;
    MidwayFits(bounds.0, key, bounds.1);
    if first.0 != "" && first.0 != bounds.0 { LessTransitive(first.0, bounds.0, key); }
    if first.1 != "" && first.1 != bounds.1 { LessTransitive(key, bounds.1, first.1); }
  }

  /** However a run of insertions picks its halves, it never gets stuck: after `n` steps the bounds are
    * still in order (so Between yields a key), lie within the first ones, and have grown by at most one
    * character a step.
    */
  lemma {:induction false} NarrowForever(bounds: seq<(string, string)>, keys: seq<string>, n: nat)
    requires Narrowing(bounds, keys) && Ordered(bounds[0].0, bounds[0].1) && n <= |keys|
    ensures Ordered(bounds[n].0, bounds[n].1) && Within(bounds[0], bounds[n])
    ensures Max(|bounds[n].0|, |bounds[n].1|) <= Max(|bounds[0].0|, |bounds[0].1|) + n
    ensures n < |keys| ==> Fits(bounds[n].0, keys[n], bounds[n].1)
  {
    hide Ordered, Midway, Half, Less, Canonical, Fits, Max;
    if n > 0 {
      NarrowForever(bounds, keys, n - 1);
      OneHalf(bounds[0], bounds[n - 1], keys[n - 1], bounds[n]);
    }
    if n < |keys| { MidwayFits(bounds[n].0, keys[n], bounds[n].1); }
  }

  // ---- The order of equal positions ----

  function Compare(posA: string, opA: string, posB: string, opB: string): (r: int)
  {
    if Less(posA, posB) then -1
    else if Less(posB, posA) then 1
    else if Less(opA, opB) then -1
    else if Less(opB, opA) then 1
    else 0
  }

  predicate PairLess(a: (string, string), b: (string, string)) { Compare(a.0, a.1, b.0, b.1) < 0 }

  /** Compare is antisymmetric and zero on equal pairs only. */
  lemma CompareSigns(a: (string, string), b: (string, string))
    ensures Compare(a.0, a.1, b.0, b.1) == -Compare(b.0, b.1, a.0, a.1)
    ensures Compare(a.0, a.1, b.0, b.1) == 0 <==> a == b
  {
    hide Less;
    LessTotal(a.0, b.0);
    LessTotal(a.1, b.1);
  }

  lemma PairTransitive(a: (string, string), b: (string, string), c: (string, string))
    requires PairLess(a, b) && PairLess(b, c)
    ensures PairLess(a, c)
  {
    hide Less;
    LessTotal(a.0, b.0);
    LessTotal(b.0, c.0);
    LessTotal(a.0, c.0);
    LessTotal(a.1, b.1);
    LessTotal(b.1, c.1);
    if Less(a.0, b.0) && Less(b.0, c.0) { LessTransitive(a.0, b.0, c.0); }
    if Less(a.1, b.1) && Less(b.1, c.1) { LessTransitive(a.1, b.1, c.1); }
  }

  /** Position then op id is a strict total order, so a document's sections have one order. */
  lemma PairsStrictTotal(pairs: set<(string, string)>)
    ensures StrictTotal(PairLess, pairs)
  {
    forall a, b | a in pairs && b in pairs
      ensures !PairLess(a, a) && (a != b ==> PairLess(a, b) || PairLess(b, a))
    {
      CompareSigns(a, a);
      CompareSigns(a, b);
    }
    forall a, b, c | a in pairs && b in pairs && c in pairs && PairLess(a, b) && PairLess(b, c)
      ensures PairLess(a, c)
    {
      PairTransitive(a, b, c);
    }
  }

  // ---- The first keys ----

  /** With no bounds at all the key is the middle of the alphabet. */
  lemma FirstKey(key: string)
    requires Midway("", key, "")
    ensures key == "V"
  {
    assert High("", "", 0) == BASE && Low("", 0) == 0;
    assert |key| == 1;
    IndexIsOrder(key[0], 'V');
  }
}
