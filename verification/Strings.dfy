/** Go's string order. A Go string compares byte by byte; for valid UTF-8 this is the order of code
  * points, which is how `char` compares here.
  */
module Strings {
  import opened Sorting

  predicate Less(a: string, b: string) {
    |b| > 0 && (|a| == 0 || a[0] < b[0] || (a[0] == b[0] && Less(a[1..], b[1..])))
  }

  predicate LessEq(a: string, b: string) { a == b || Less(a, b) }

  lemma {:induction false} LessIrreflexive(a: string)
    ensures !Less(a, a)
  {
    if a == [] {
    } else {
      LessIrreflexive(a[1..]);
    }
  }

  lemma {:induction false} LessTransitive(a: string, b: string, c: string)
    requires Less(a, b) && Less(b, c)
    ensures Less(a, c)
  {
    if |a| > 0 && a[0] == b[0] && b[0] == c[0] { LessTransitive(a[1..], b[1..], c[1..]); }
  }

  lemma {:induction false} LessTotal(a: string, b: string)
    ensures a == b || Less(a, b) || Less(b, a)
    ensures !(Less(a, b) && Less(b, a))
    ensures Less(a, b) ==> a != b
  {
    LessIrreflexive(a);
    if Less(a, b) && Less(b, a) { LessTransitive(a, b, a); }
    if |a| > 0 && |b| > 0 && a[0] == b[0] {
      LessTotal(a[1..], b[1..]);
      if a[1..] == b[1..] { assert a == [a[0]] + a[1..] == b; }
    }
  }

  /** The comparison looks only past a common prefix. */
  lemma {:induction false} LessPrefix(p: string, a: string, b: string)
    ensures Less(p + a, p + b) <==> Less(a, b)
  {
    if p == [] {
      assert p + a == a && p + b == b;
    } else {
      assert (p + a)[1..] == p[1..] + a && (p + b)[1..] == p[1..] + b;
      LessPrefix(p[1..], a, b);
    }
  }

  lemma LessStrictTotal(items: set<string>)
    ensures StrictTotal(Less, items)
  {
    forall a, b ensures !Less(a, a) && (a != b ==> Less(a, b) || Less(b, a)) {
      LessIrreflexive(a);
      LessTotal(a, b);
    }
    forall a, b, c | Less(a, b) && Less(b, c) ensures Less(a, c) {
      LessTransitive(a, b, c);
    }
  }

  /** sort.Strings over the keys of a set. */
  method SortStrings(items: set<string>) returns (list: seq<string>)
    ensures list == Sorted(items)
  {
    LessStrictTotal(items);
    list := SortedKeys(Less, items);
    SortedListUnique(Less, list, Sorted(items), items);
  }

  ghost function Sorted(items: set<string>): (list: seq<string>)
    ensures SortedListOf(Less, list, items)
  {
    LessStrictTotal(items);
    SortedList(Less, items)
  }

  // ---- Tuples of strings, compared component by component ----

  predicate TupleLess(a: seq<string>, b: seq<string>) {
    |a| > 0 && |b| > 0 && (if a[0] != b[0] then Less(a[0], b[0]) else TupleLess(a[1..], b[1..]))
  }

  /** The comparison decides between any two tuples neither of which begins with the other. */
  lemma {:induction false} TupleLessTotal(a: seq<string>, b: seq<string>)
    requires (a <= b ==> a == b) && (b <= a ==> a == b)
    ensures a == b || TupleLess(a, b) || TupleLess(b, a)
    ensures !TupleLess(a, a)
  {
    if a != [] && b != [] {
      LessTotal(a[0], b[0]);
      assert a == [a[0]] + a[1..] && b == [b[0]] + b[1..];
      if a[0] == b[0] { TupleLessTotal(a[1..], b[1..]); } else { TupleLessTotal(a[1..], a[1..]); }
    }
  }

  /** It decides nothing between a tuple and a longer one that begins with it. */
  lemma {:induction false} PrefixTies(a: seq<string>, b: seq<string>)
    requires a <= b
    ensures !TupleLess(a, b) && !TupleLess(b, a)
  {
    if a == [] {
    } else {
      PrefixTies(a[1..], b[1..]);
    }
  }

  lemma {:induction false} TupleLessTransitive(a: seq<string>, b: seq<string>, c: seq<string>)
    requires TupleLess(a, b) && TupleLess(b, c)
    ensures TupleLess(a, c)
  {
    if a[0] == b[0] && b[0] == c[0] {
      TupleLessTransitive(a[1..], b[1..], c[1..]);
    } else if a[0] != b[0] && b[0] != c[0] {
      LessTransitive(a[0], b[0], c[0]);
      LessTotal(a[0], c[0]);
    }
  }

  /** No tuple begins with another one. */
  ghost predicate PrefixFree(items: set<seq<string>>) {
    forall a, b :: a in items && b in items && a <= b ==> a == b
  }

  lemma TupleStrictTotal(items: set<seq<string>>)
    ensures StrictTotal(TupleLess, items) <==> PrefixFree(items)
  {
    if PrefixFree(items) {
      forall a, b | a in items && b in items ensures !TupleLess(a, a) && (a != b ==> TupleLess(a, b) || TupleLess(b, a)) {
        TupleLessTotal(a, b);
      }
      forall a, b, c | TupleLess(a, b) && TupleLess(b, c) ensures TupleLess(a, c) {
        TupleLessTransitive(a, b, c);
      }
    }
    forall a, b | a in items && b in items && a <= b && StrictTotal(TupleLess, items) ensures a == b {
      PrefixTies(a, b);
    }
  }
}
