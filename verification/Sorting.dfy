/** Go's `sort` package as the program uses it: distinct items under a strict total order. Which
  * algorithm sorts, and which order the items arrive in, is left open and shown not to matter.
  */
module Sorting {

  ghost predicate StrictTotal<T(!new)>(less: (T, T) -> bool, items: set<T>) {
    && (forall a :: a in items ==> !less(a, a))
    && (forall a, b :: a in items && b in items && a != b ==> less(a, b) || less(b, a))
    && forall a, b, c :: a in items && b in items && c in items && less(a, b) && less(b, c) ==> less(a, c)
  }

  ghost predicate StrictlySorted<T>(less: (T, T) -> bool, s: seq<T>) {
    forall i, j :: 0 <= i < j < |s| ==> less(s[i], s[j])
  }

  ghost predicate SortedListOf<T(!new)>(less: (T, T) -> bool, list: seq<T>, items: set<T>) {
    StrictlySorted(less, list) && forall x :: x in list <==> x in items
  }

  /** Ids stand for hashes, which sort as strings of one length. */
  predicate IdLess(a: nat, b: nat) { a < b }

  lemma IdsStrictTotal(ids: set<nat>)
    ensures StrictTotal(IdLess, ids)
  {}

  lemma TailSorted<T(!new)>(less: (T, T) -> bool, a: seq<T>, items: set<T>)
    requires StrictTotal(less, items) && SortedListOf(less, a, items) && a != []
    ensures StrictTotal(less, items - {a[0]}) && SortedListOf(less, a[1..], items - {a[0]})
  {
    forall x ensures x in a[1..] <==> x in items - {a[0]} {
      if x in items && x != a[0] {
        var i :| 0 <= i < |a| && a[i] == x;
        assert a[1..][i - 1] == x;
      }
      if x in a[1..] {
        var i :| 0 <= i < |a[1..]| && a[1..][i] == x;
        assert a[i + 1] == x && less(a[0], a[i + 1]);
        assert a[0] in items && x in items;
      }
    }
  }

  lemma HeadLeast<T(!new)>(less: (T, T) -> bool, a: seq<T>, items: set<T>)
    requires StrictTotal(less, items) && SortedListOf(less, a, items) && a != []
    ensures a[0] in items && forall x :: x in items && x != a[0] ==> less(a[0], x)
  {
    assert a[0] in a;
    forall x | x in items && x != a[0] ensures less(a[0], x) {
      var i :| 0 <= i < |a| && a[i] == x;
    }
  }

  /** A set has only one sorted listing. */
  lemma {:induction false} SortedListUnique<T(!new)>(less: (T, T) -> bool, a: seq<T>, b: seq<T>, items: set<T>)
    requires StrictTotal(less, items) && SortedListOf(less, a, items) && SortedListOf(less, b, items)
    ensures a == b
    decreases |a|
  {
    assert a != [] ==> a[0] in items && items != {};
    assert b != [] ==> b[0] in items && items != {};
    if items == {} {
    } else {
      HeadLeast(less, a, items);
      HeadLeast(less, b, items);
      assert a[0] == b[0];
      TailSorted(less, a, items);
      TailSorted(less, b, items);
      SortedListUnique(less, a[1..], b[1..], items - {a[0]});
    }
  }

  /** The items arrive in an arbitrary order and are put in place one at a time. */
  method SortedKeys<T(!new, ==)>(less: (T, T) -> bool, items: set<T>) returns (list: seq<T>)
    requires StrictTotal(less, items)
    ensures SortedListOf(less, list, items)
  {
    hide StrictTotal;
    list := [];
    var rest := items;
    while rest != {}
      invariant rest <= items
      invariant SortedListOf(less, list, items - rest)
      decreases rest
    {
      hide SortedListOf;
      var x :| x in rest;
      list := Insert(less, list, x, items - rest, items);
      rest := rest - {x};
      assert items - rest == (items - (rest + {x})) + {x};
    }
    assert items - {} == items;
  }

  method Insert<T(!new, ==)>(less: (T, T) -> bool, list: seq<T>, x: T, ghost listed: set<T>, ghost items: set<T>) returns (longer: seq<T>)
    requires StrictTotal(less, items) && listed <= items && x in items - listed
    requires SortedListOf(less, list, listed)
    ensures SortedListOf(less, longer, listed + {x})
  {
    var k := 0;
    while k < |list| && less(list[k], x)
      invariant 0 <= k <= |list|
      invariant forall i :: 0 <= i < k ==> less(list[i], x)
    {
      k := k + 1;
    }
    longer := list[..k] + [x] + list[k..];
    InsertSorted(less, list, x, k, listed, items);
  }

  lemma InsertSorted<T(!new)>(less: (T, T) -> bool, list: seq<T>, x: T, k: nat, listed: set<T>, items: set<T>)
    requires StrictTotal(less, items) && listed <= items && x in items - listed
    requires SortedListOf(less, list, listed) && k <= |list|
    requires (forall i :: 0 <= i < k ==> less(list[i], x)) && (k < |list| ==> !less(list[k], x))
    ensures SortedListOf(less, list[..k] + [x] + list[k..], listed + {x})
  {
    var longer := list[..k] + [x] + list[k..];
    forall i | k <= i < |list| ensures less(x, list[i]) {
      AboveInserted(less, list, x, k, listed, items, i);
    }
    hide StrictTotal;
    forall i, j | 0 <= i < j < |longer| ensures less(longer[i], longer[j]) {
      InsertedPair(less, list, x, k, i, j);
    }
    assert list == list[..k] + list[k..];
    assert forall y :: y in longer <==> y in list || y == x;
  }

  lemma AboveInserted<T(!new)>(less: (T, T) -> bool, list: seq<T>, x: T, k: nat, listed: set<T>, items: set<T>, i: nat)
    requires StrictTotal(less, items) && listed <= items && x in items - listed
    requires SortedListOf(less, list, listed) && k <= i < |list| && !less(list[k], x)
    ensures less(x, list[i])
  {
    assert list[k] in list && list[i] in list;
    assert less(x, list[k]);
    if k < i { assert less(list[k], list[i]); }
  }

  lemma InsertedPair<T>(less: (T, T) -> bool, list: seq<T>, x: T, k: nat, i: nat, j: nat)
    requires StrictlySorted(less, list) && k <= |list| && i < j <= |list|
    requires (forall i :: 0 <= i < k ==> less(list[i], x)) && forall i :: k <= i < |list| ==> less(x, list[i])
    ensures var longer := list[..k] + [x] + list[k..]; less(longer[i], longer[j])
  {
    var longer := list[..k] + [x] + list[k..];
    assert longer[i] == if i < k then list[i] else if i == k then x else list[i - 1];
    assert longer[j] == if j < k then list[j] else if j == k then x else list[j - 1];
  }

  lemma {:induction false} SortedListExists<T(!new)>(less: (T, T) -> bool, items: set<T>)
    requires StrictTotal(less, items)
    ensures exists list :: SortedListOf(less, list, items)
    decreases items
  {
    if items == {} {
      assert SortedListOf(less, [], items);
    } else {
      var x :| x in items;
      var rest := items - {x};
      SortedListExists(less, rest);
      var tail :| SortedListOf(less, tail, rest);
      var k := Rank(less, tail, x);
      hide StrictTotal;
      InsertSorted(less, tail, x, k, rest, items);
      hide SortedListOf;
      assert rest + {x} == items;
    }
  }

  lemma {:induction false} Rank<T>(less: (T, T) -> bool, list: seq<T>, x: T) returns (k: nat)
    ensures k <= |list| && (forall i :: 0 <= i < k ==> less(list[i], x)) && (k < |list| ==> !less(list[k], x))
  {
    k := 0;
    while k < |list| && less(list[k], x)
      invariant 0 <= k <= |list| && forall i :: 0 <= i < k ==> less(list[i], x)
    {
      k := k + 1;
    }
  }

  /** The sorted listing of a set, the value every sort of it returns. */
  ghost function SortedList<T(!new)>(less: (T, T) -> bool, items: set<T>): (list: seq<T>)
    requires StrictTotal(less, items)
    ensures SortedListOf(less, list, items)
  {
    SortedListExists(less, items);
    var list :| SortedListOf(less, list, items);
    list
  }

  // ---- sort.Slice: any permutation that is sorted, with equal items in any order ----

  ghost predicate WeakOrder<T(!new)>(less: (T, T) -> bool) {
    && (forall a, b :: less(a, b) ==> !less(b, a))
    && forall a, b, c :: !less(b, a) && !less(c, b) ==> !less(c, a)
  }

  ghost predicate Ascending<T>(less: (T, T) -> bool, s: seq<T>) {
    forall i, j :: 0 <= i < j < |s| ==> !less(s[j], s[i])
  }

  method SortSlice<T(!new)>(less: (T, T) -> bool, items: seq<T>) returns (sorted: seq<T>)
    requires WeakOrder(less)
    ensures Ascending(less, sorted) && multiset(sorted) == multiset(items)
  {
    sorted := [];
    for i := 0 to |items|
      invariant Ascending(less, sorted) && multiset(sorted) == multiset(items[..i])
    {
      hide Ascending;
      sorted := InsertWeak(less, sorted, items[i]);
      assert items[..i + 1] == items[..i] + [items[i]];
    }
    assert items[..|items|] == items;
  }

  method InsertWeak<T(!new)>(less: (T, T) -> bool, list: seq<T>, x: T) returns (longer: seq<T>)
    requires WeakOrder(less) && Ascending(less, list)
    ensures Ascending(less, longer) && multiset(longer) == multiset(list) + multiset{x}
  {
    var k := |list|;
    while k > 0 && less(x, list[k - 1])
      invariant 0 <= k <= |list| && forall i :: k <= i < |list| ==> less(x, list[i])
    {
      k := k - 1;
    }
    longer := list[..k] + [x] + list[k..];
    InsertAscending(less, list, x, k);
    assert list == list[..k] + list[k..];
  }

  lemma InsertAscending<T(!new)>(less: (T, T) -> bool, list: seq<T>, x: T, k: nat)
    requires WeakOrder(less) && Ascending(less, list) && k <= |list|
    requires (forall i :: k <= i < |list| ==> less(x, list[i])) && (k > 0 ==> !less(x, list[k - 1]))
    ensures Ascending(less, list[..k] + [x] + list[k..])
  {
    var longer := list[..k] + [x] + list[k..];
    forall i | 0 <= i < k ensures !less(x, list[i]) {
      assert i < k - 1 ==> !less(list[k - 1], list[i]);
    }
    forall i, j | 0 <= i < j < |longer| ensures !less(longer[j], longer[i]) {
      if j < k {
      } else if i < k && j > k {
        assert longer[j] == list[j - 1];
      } else if i > k {
        assert longer[i] == list[i - 1] && longer[j] == list[j - 1];
      }
    }
  }
}
