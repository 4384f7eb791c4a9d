/**
 Sorting a list of numbers, as the library does it: same elements, in order.
 */
module Sorting {
  function Insert(x: int, s: seq<int>): seq<int> {
    if s == [] || x <= s[0] then [x] + s else [s[0]] + Insert(x, s[1..])
  }

  function Sort(s: seq<int>): seq<int> {
    if s == [] then [] else Insert(s[0], Sort(s[1..]))
  }

  ghost predicate Sorted(s: seq<int>) { forall i, j :: 0 <= i < j < |s| ==> s[i] <= s[j] }

  ghost predicate Ascending(s: seq<int>) { forall i, j :: 0 <= i < j < |s| ==> s[i] < s[j] }

  ghost predicate NoRepeats(s: seq<int>) { forall i, j :: 0 <= i < j < |s| ==> s[i] != s[j] }

  lemma {:induction false} InsertBag(x: int, s: seq<int>)
    ensures multiset(Insert(x, s)) == multiset{x} + multiset(s)
  {
    if s != [] {
      assert s == [s[0]] + s[1..];
      if x > s[0] { InsertBag(x, s[1..]); }
    }
  }

  lemma {:induction false} SortBag(s: seq<int>)
    ensures multiset(Sort(s)) == multiset(s)
  {
    if s != [] {
      assert s == [s[0]] + s[1..];
      SortBag(s[1..]);
      InsertBag(s[0], Sort(s[1..]));
    }
  }

  lemma {:induction false} InsertHas(x: int, s: seq<int>, y: int)
    ensures y in Insert(x, s) <==> y == x || y in s
  {
    InsertBag(x, s);
    assert y in Insert(x, s) <==> y in multiset(Insert(x, s));
    assert y in s <==> y in multiset(s);
  }

  lemma {:induction false} SortHas(s: seq<int>, y: int)
    ensures y in Sort(s) <==> y in s
  {
    SortBag(s);
    assert y in Sort(s) <==> y in multiset(Sort(s));
    assert y in s <==> y in multiset(s);
  }

  lemma {:induction false} InsertSorted(x: int, s: seq<int>)
    requires Sorted(s)
    ensures Sorted(Insert(x, s))
  {
    if s != [] && x > s[0] {
      InsertSorted(x, s[1..]);
      var r := Insert(x, s[1..]);
      forall y | y in r ensures s[0] <= y { InsertHas(x, s[1..], y); }
      ConsSorted(s[0], r);
    }
  }

  lemma {:induction false} ConsSorted(x: int, r: seq<int>)
    requires Sorted(r) && forall y :: y in r ==> x <= y
    ensures Sorted([x] + r)
  {
    forall j | 0 <= j < |r| ensures x <= r[j] {
      var y := r[j];
      assert y in r;
    }
  }

  lemma {:induction false} SortSorted(s: seq<int>)
    ensures Sorted(Sort(s))
  {
    if s != [] {
      SortSorted(s[1..]);
      InsertSorted(s[0], Sort(s[1..]));
    }
  }

  lemma {:induction false} InsertNoRepeats(x: int, s: seq<int>)
    requires NoRepeats(s) && x !in s
    ensures NoRepeats(Insert(x, s))
  {
    if s != [] && x > s[0] {
      assert s[0] !in s[1..];
      InsertNoRepeats(x, s[1..]);
      InsertHas(x, s[1..], s[0]);
    }
  }

  lemma {:induction false} SortAscending(s: seq<int>)
    requires NoRepeats(s)
    ensures NoRepeats(Sort(s)) && Ascending(Sort(s))
  {
    SortSorted(s);
    if s != [] {
      SortAscending(s[1..]);
      SortHas(s[1..], s[0]);
      InsertNoRepeats(s[0], Sort(s[1..]));
    }
  }

  ghost predicate Within(a: seq<int>, b: seq<int>) { forall i :: 0 <= i < |a| ==> a[i] in b }

  /** An ascending list is determined by its elements. */
  lemma {:induction false} AscendingUnique(a: seq<int>, b: seq<int>)
    requires Ascending(a) && Ascending(b) && Within(a, b) && Within(b, a)
    ensures a == b
  {
    if a != [] { FirstWithin(a, b); }
    if b != [] { FirstWithin(b, a); }
    if a != [] && b != [] {
      hide Within;
      assert a[0] == b[0];
      WithinTail(a, b);
      WithinTail(b, a);
      AscendingUnique(a[1..], b[1..]);
      assert a == [a[0]] + a[1..] && b == [b[0]] + b[1..];
    }
  }

  lemma {:induction false} SubsetWithin(a: seq<int>, b: seq<int>)
    requires forall x :: x in a ==> x in b
    ensures Within(a, b)
  {
    forall i | 0 <= i < |a| ensures a[i] in b {
      var x := a[i];
      assert x in a;
    }
  }

  lemma {:induction false} FirstWithin(a: seq<int>, b: seq<int>)
    requires Within(a, b) && a != []
    ensures a[0] in b && b != []
  {}

  lemma {:induction false} WithinTail(a: seq<int>, b: seq<int>)
    requires Ascending(a) && Within(a, b) && a != [] && b != [] && a[0] == b[0]
    ensures Within(a[1..], b[1..])
  {
    forall i | 0 <= i < |a[1..]| ensures a[1..][i] in b[1..] {
      assert a[1..][i] == a[i + 1] && a[i + 1] in b;
      assert b == [b[0]] + b[1..];
    }
  }

  lemma {:induction false} FirstIn(s: seq<int>)
    requires s != []
    ensures s[0] in s
  {}
}
