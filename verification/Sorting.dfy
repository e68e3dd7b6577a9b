/** Stable insertion sort by a rank, and the associativity of concatenation. */
module Sorting {

  lemma Assoc<T>(a: seq<T>, b: seq<T>, c: seq<T>)
    ensures (a + b) + c == a + (b + c)
  {}

  function Insert<T(==)>(x: T, s: seq<T>, rank: T -> real): (r: seq<T>)
    ensures multiset(r) == multiset{x} + multiset(s) && |r| == |s| + 1
  {
    if s == [] || rank(x) <= rank(s[0]) then [x] + s
    else
      assert s == [s[0]] + s[1..];
      [s[0]] + Insert(x, s[1..], rank)
  }

  function Sort<T(==)>(s: seq<T>, rank: T -> real): (r: seq<T>)
    ensures multiset(r) == multiset(s) && |r| == |s|
  {
    if s == [] then []
    else
      assert s == [s[0]] + s[1..];
      Insert(s[0], Sort(s[1..], rank), rank)
  }

  lemma SortKeeps<T>(s: seq<T>, rank: T -> real, x: T)
    ensures x in Sort(s, rank) <==> x in s
  {
    assert x in multiset(Sort(s, rank)) <==> x in multiset(s);
  }

  ghost predicate SortedBy<T>(s: seq<T>, rank: T -> real) {
    forall i, j :: 0 <= i < j < |s| ==> rank(s[i]) <= rank(s[j])
  }

  lemma InsertedFrom<T>(x: T, s: seq<T>, rank: T -> real, j: nat)
    requires j <= |s|
    ensures Insert(x, s, rank)[j] == x || exists i :: 0 <= i < |s| && Insert(x, s, rank)[j] == s[i]
  {
    var r := Insert(x, s, rank);
    assert r[j] in multiset(r);
    if r[j] != x {
      assert r[j] in multiset(s);
    }
  }

  lemma SortedCons<T>(first: T, rest: seq<T>, rank: T -> real)
    requires SortedBy(rest, rank) && forall j :: 0 <= j < |rest| ==> rank(first) <= rank(rest[j])
    ensures SortedBy([first] + rest, rank)
  {}

  lemma {:induction false} InsertSorted<T>(x: T, s: seq<T>, rank: T -> real)
    requires SortedBy(s, rank)
    ensures SortedBy(Insert(x, s, rank), rank)
  {
    if s == [] || rank(x) <= rank(s[0]) {
      SortedCons(x, s, rank);
    } else {
      var rest := Insert(x, s[1..], rank);
      InsertSorted(x, s[1..], rank);
      forall j | 0 <= j < |rest| ensures rank(s[0]) <= rank(rest[j]) {
        InsertedFrom(x, s[1..], rank, j);
      }
      SortedCons(s[0], rest, rank);
    }
  }

  lemma {:induction false} SortSorts<T>(s: seq<T>, rank: T -> real)
    ensures SortedBy(Sort(s, rank), rank)
  {
    if s != [] {
      SortSorts(s[1..], rank);
      InsertSorted(s[0], Sort(s[1..], rank), rank);
    }
  }
}
