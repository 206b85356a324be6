/** ORDER BY clauses and Array.prototype.sort: a stable sort on an integer key. */
module Sorting {
  ghost predicate SortedBy<T(!new)>(s: seq<T>, key: T -> int) {
    forall i, j | 0 <= i < j < |s| :: key(s[i]) <= key(s[j])
  }

  function InsertBy<T(!new)>(x: T, s: seq<T>, key: T -> int): seq<T> {
    if s == [] || key(x) <= key(s[0]) then [x] + s else [s[0]] + InsertBy(x, s[1..], key)
  }

  function SortBy<T(!new)>(s: seq<T>, key: T -> int): seq<T> {
    if s == [] then [] else InsertBy(s[0], SortBy(s[1..], key), key)
  }

  lemma {:induction false} InsertByMembers<T(!new)>(x: T, s: seq<T>, key: T -> int)
    ensures |InsertBy(x, s, key)| == |s| + 1
    ensures multiset(InsertBy(x, s, key)) == multiset{x} + multiset(s)
    ensures forall y :: y in InsertBy(x, s, key) <==> y == x || y in s
  {
    if s != [] && key(x) > key(s[0]) {
      InsertByMembers(x, s[1..], key);
      assert s == [s[0]] + s[1..];
    }
  }

  lemma {:induction false} InsertBySorted<T(!new)>(x: T, s: seq<T>, key: T -> int)
    requires SortedBy(s, key)
    ensures SortedBy(InsertBy(x, s, key), key)
  {
    if s != [] && key(x) > key(s[0]) {
      var rest := InsertBy(x, s[1..], key);
      InsertBySorted(x, s[1..], key);
      InsertByMembers(x, s[1..], key);
      assert forall j | 0 <= j < |rest| :: rest[j] in rest;
    }
  }

  /** SortBy rearranges its argument so that keys never decrease. */
  lemma {:induction false} SortByCorrect<T(!new)>(s: seq<T>, key: T -> int)
    ensures SortedBy(SortBy(s, key), key)
    ensures multiset(SortBy(s, key)) == multiset(s)
    ensures |SortBy(s, key)| == |s|
    ensures forall x :: x in SortBy(s, key) <==> x in s
  {
    if s != [] {
      SortByCorrect(s[1..], key);
      InsertBySorted(s[0], SortBy(s[1..], key), key);
      InsertByMembers(s[0], SortBy(s[1..], key), key);
      assert s == [s[0]] + s[1..];
    }
  }

  function Filter<T(!new)>(s: seq<T>, f: T -> bool): seq<T> {
    if s == [] then [] else (if f(s[0]) then [s[0]] else []) + Filter(s[1..], f)
  }

  ghost predicate OneKey<T(!new)>(s: seq<T>, key: T -> int, f: T -> bool) {
    forall x, y | x in s && y in s && f(x) && f(y) :: key(x) == key(y)
  }

  lemma {:induction false} InsertByStable<T(!new)>(x: T, s: seq<T>, key: T -> int, f: T -> bool)
    requires OneKey([x] + s, key, f)
    ensures Filter(InsertBy(x, s, key), f) == Filter([x] + s, f)
  {
    if s != [] && key(x) > key(s[0]) {
      assert x in [x] + s && s[0] in [x] + s;
      assert forall y | y in [x] + s[1..] :: y in [x] + s;
      InsertByStable(x, s[1..], key, f);
      assert ([x] + s)[1..] == s && ([x] + s[1..])[1..] == s[1..];
    }
  }

  /** Elements with equal keys keep their order. */
  lemma {:induction false} SortByStable<T(!new)>(s: seq<T>, key: T -> int, f: T -> bool)
    requires OneKey(s, key, f)
    ensures Filter(SortBy(s, key), f) == Filter(s, f)
  {
    if s != [] {
      var rest := SortBy(s[1..], key);
      SortByCorrect(s[1..], key);
      assert forall y | y in [s[0]] + rest :: y in s;
      SortByStable(s[1..], key, f);
      InsertByStable(s[0], rest, key, f);
      assert ([s[0]] + rest)[1..] == rest;
    }
  }
}
