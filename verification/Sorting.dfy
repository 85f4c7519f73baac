/** Python's sorted with a key: a stable sort, here by insertion. */
module Sorting {

  function Insert<T>(s: seq<T>, x: T, before: (T, T) -> bool): (r: seq<T>)
    ensures |r| == |s| + 1
  {
    if s == [] then [x]
    else if !before(s[0], x) then [x] + s
    else [s[0]] + Insert(s[1..], x, before)
  }

  function Sort<T>(s: seq<T>, before: (T, T) -> bool): (r: seq<T>)
    ensures |r| == |s|
  {
    if s == [] then [] else Insert(Sort(s[1..], before), s[0], before)
  }

  lemma {:induction false} InsertPermutes<T>(s: seq<T>, x: T, before: (T, T) -> bool)
    ensures multiset(Insert(s, x, before)) == multiset(s) + multiset{x}
  {
    if s != [] && before(s[0], x) {
      InsertPermutes(s[1..], x, before);
      assert s == [s[0]] + s[1..];
    }
  }

  lemma {:induction false} SortPermutes<T>(s: seq<T>, before: (T, T) -> bool)
    ensures multiset(Sort(s, before)) == multiset(s)
  {
    if s != [] {
      SortPermutes(s[1..], before);
      InsertPermutes(Sort(s[1..], before), s[0], before);
      assert s == [s[0]] + s[1..];
    }
  }

  /** No element comes before an earlier one. */
  ghost predicate Ordered<T>(s: seq<T>, before: (T, T) -> bool) {
    forall i, j :: 0 <= i < j < |s| ==> !before(s[j], s[i])
  }

  /** A comparison of the keys of the elements. */
  ghost predicate Comparison<T>(s: seq<T>, before: (T, T) -> bool) {
    && (forall x, y :: x in s && y in s && before(x, y) ==> !before(y, x))
    && (forall x, y, z :: x in s && y in s && z in s && !before(x, y) && !before(y, z) ==> !before(x, z))
  }

  lemma SomeCompare<T>(s: seq<T>, some: seq<T>, before: (T, T) -> bool)
    requires Comparison(s, before) && forall x :: x in some ==> x in s
    ensures Comparison(some, before)
  {
  }

  lemma {:induction false} InsertOrders<T>(s: seq<T>, x: T, before: (T, T) -> bool)
    requires Comparison([x] + s, before) && Ordered(s, before)
    ensures Ordered(Insert(s, x, before), before)
  {
    if s != [] && before(s[0], x) {
      InsertOrders(s[1..], x, before);
      InsertPermutes(s[1..], x, before);
      var rest := Insert(s[1..], x, before);
      forall k | 0 <= k < |rest|
        ensures !before(rest[k], s[0])
      {
        assert rest[k] in multiset(rest);
        if rest[k] != x {
          assert rest[k] in s[1..];
        }
      }
    }
  }

  lemma {:induction false} SortOrders<T>(s: seq<T>, before: (T, T) -> bool)
    requires Comparison(s, before)
    ensures Ordered(Sort(s, before), before)
  {
    if s != [] {
      hide Comparison, Ordered;
      SomeCompare(s, s[1..], before);
      SortOrders(s[1..], before);
      SortPermutes(s[1..], before);
      assert forall y :: y in Sort(s[1..], before) ==> y in multiset(s[1..]);
      SomeCompare(s, [s[0]] + Sort(s[1..], before), before);
      InsertOrders(Sort(s[1..], before), s[0], before);
    }
  }

  ghost predicate Distinct<T>(s: seq<T>) {
    forall i, j :: 0 <= i < j < |s| ==> s[i] != s[j]
  }

  lemma {:induction false} InsertDistinct<T>(s: seq<T>, x: T, before: (T, T) -> bool)
    requires Distinct(s) && x !in s
    ensures Distinct(Insert(s, x, before)) && |Insert(s, x, before)| == |s| + 1
    ensures forall y :: y in Insert(s, x, before) <==> y in s || y == x
  {
    if s != [] && before(s[0], x) {
      InsertDistinct(s[1..], x, before);
      assert s[0] !in s[1..] && s[0] !in Insert(s[1..], x, before);
      assert forall y :: y in s <==> y == s[0] || y in s[1..];
    }
  }

  /** Sorting distinct elements gives them again, once each. */
  lemma {:induction false} SortDistinct<T>(s: seq<T>, before: (T, T) -> bool)
    requires Distinct(s)
    ensures Distinct(Sort(s, before)) && |Sort(s, before)| == |s|
    ensures forall y :: y in Sort(s, before) <==> y in s
  {
    if s != [] {
      SortDistinct(s[1..], before);
      InsertDistinct(Sort(s[1..], before), s[0], before);
      assert forall y :: y in s <==> y == s[0] || y in s[1..];
    }
  }

  lemma RemoveAt<T>(s: seq<T>, i: nat)
    requires i < |s|
    ensures multiset(s[..i] + s[i + 1..]) == multiset(s) - multiset{s[i]}
    ensures forall x :: x in s[..i] + s[i + 1..] ==> x in s
  {
    assert s == s[..i] + [s[i]] + s[i + 1..];
  }
}
