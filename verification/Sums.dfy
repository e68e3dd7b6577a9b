/** Sums over a list of distinct keys. */
module Sums {

  function Sum<K>(keys: seq<K>, f: K -> nat): nat {
    if keys == [] then 0 else Sum(keys[..|keys| - 1], f) + f(keys[|keys| - 1])
  }

  predicate Distinct<K(==)>(keys: seq<K>) {
    forall i, j :: 0 <= i < j < |keys| ==> keys[i] != keys[j]
  }

  lemma SumSnoc<K>(keys: seq<K>, k: K, f: K -> nat)
    ensures Sum(keys + [k], f) == Sum(keys, f) + f(k)
  {
    assert (keys + [k])[..|keys|] == keys;
  }

  lemma DistinctSnoc<K>(keys: seq<K>, k: K)
    requires Distinct(keys) && k !in keys
    ensures Distinct(keys + [k])
  {}

  /** Raising f at one key raises the sum as much, if the key is in the list. */
  lemma {:induction false} SumRaisedAt<K(!new)>(keys: seq<K>, f: K -> nat, g: K -> nat, key: K, more: nat)
    requires Distinct(keys) && g(key) == f(key) + more && forall k :: k != key ==> g(k) == f(k)
    ensures Sum(keys, g) == Sum(keys, f) + if key in keys then more else 0
  {
    if keys != [] {
      var front, last := keys[..|keys| - 1], keys[|keys| - 1];
      SumRaisedAt(front, f, g, key, more);
      assert keys == front + [last];
    }
  }

  lemma {:induction false} SumZeroIff<K>(keys: seq<K>, f: K -> nat)
    ensures Sum(keys, f) == 0 <==> forall k :: k in keys ==> f(k) == 0
  {
    if keys != [] {
      var front, last := keys[..|keys| - 1], keys[|keys| - 1];
      SumZeroIff(front, f);
      assert keys == front + [last];
    }
  }

  /** The first n rows have their keys in the list. */
  predicate Covers<R, K(==)>(rows: seq<R>, n: nat, keys: seq<K>, key: R -> K)
    requires n <= |rows|
  {
    forall i :: 0 <= i < n ==> key(rows[i]) in keys
  }

  lemma CoversOneMore<R, K>(rows: seq<R>, n: nat, keys: seq<K>, more: seq<K>, key: R -> K)
    requires n < |rows| && Covers(rows, n, keys, key)
    requires if key(rows[n]) in keys then more == keys else more == keys + [key(rows[n])]
    ensures Covers(rows, n + 1, more, key)
  {}

  /** g is f with `more` added at one key. */
  ghost predicate RaisedAt<K(!new)>(f: K -> nat, g: K -> nat, key: K, more: nat) {
    g(key) == f(key) + more && forall k :: k != key ==> g(k) == f(k)
  }

  /** Grouping rows by their keys and summing group by group meets every row once:
      `grouped(n)` is the sum of each group within the first n rows. */
  lemma {:induction false} GroupedSum<R, K(!new)>(rows: seq<R>, n: nat, keys: seq<K>, key: R -> K, w: R -> nat,
                                           grouped: nat -> (K -> nat))
    requires n <= |rows| && Distinct(keys) && Covers(rows, n, keys, key)
    requires forall k :: grouped(0)(k) == 0
    requires forall m: nat :: m < |rows| ==> RaisedAt(grouped(m), grouped(m + 1), key(rows[m]), w(rows[m]))
    ensures Sum(keys, grouped(n)) == Sum(rows[..n], w)
  {
    if n == 0 {
      SumZeroIff(keys, grouped(0));
    } else {
      GroupedSum(rows, n - 1, keys, key, w, grouped);
      assert RaisedAt(grouped(n - 1), grouped(n - 1 + 1), key(rows[n - 1]), w(rows[n - 1]));
      SumRaisedAt(keys, grouped(n - 1), grouped(n), key(rows[n - 1]), w(rows[n - 1]));
      SumSnoc(rows[..n - 1], rows[n - 1], w);
      assert rows[..n] == rows[..n - 1] + [rows[n - 1]];
    }
  }

  /** The lists f(k) of all keys, one after the other. */
  function Concat<K, T>(keys: seq<K>, f: K -> seq<T>): seq<T> {
    if keys == [] then [] else Concat(keys[..|keys| - 1], f) + f(keys[|keys| - 1])
  }

  lemma ConcatSnoc<K, T>(keys: seq<K>, k: K, f: K -> seq<T>)
    ensures Concat(keys + [k], f) == Concat(keys, f) + f(k)
  {
    assert (keys + [k])[..|keys|] == keys;
  }

  lemma {:induction false} ConcatHas<K, T>(keys: seq<K>, f: K -> seq<T>, x: T)
    ensures x in Concat(keys, f) <==> exists k :: k in keys && x in f(k)
  {
    if keys != [] {
      var front, last := keys[..|keys| - 1], keys[|keys| - 1];
      ConcatHas(front, f, x);
      assert keys == front + [last];
    }
  }

  /** The numbers below n. */
  function Positions(n: nat): (s: seq<nat>)
    ensures |s| == n && forall i :: 0 <= i < n ==> s[i] == i
  {
    seq(n, i => i)
  }

  lemma PositionsSnoc(n: nat)
    ensures Positions(n + 1) == Positions(n) + [n]
  {}

  /** The numbers below n that are flagged, and how many they are. */
  ghost function Flagged(n: nat, flag: nat -> bool): set<nat> {
    set i: nat | i < n && flag(i)
  }

  function Ones(flag: nat -> bool): nat -> nat {
    (i: nat) => if flag(i) then 1 else 0
  }

  lemma FlaggedStep(n: nat, flag: nat -> bool)
    ensures |Flagged(n + 1, flag)| == |Flagged(n, flag)| + if flag(n) then 1 else 0
  {
    if flag(n) {
      assert Flagged(n + 1, flag) == Flagged(n, flag) + {n};
    } else {
      assert Flagged(n + 1, flag) == Flagged(n, flag);
    }
  }

  lemma {:induction false} SumOfFlags(n: nat, flag: nat -> bool)
    ensures Sum<nat>(Positions(n), Ones(flag)) == |Flagged(n, flag)|
  {
    if n > 0 {
      SumOfFlags(n - 1, flag);
      PositionsSnoc(n - 1);
      SumSnoc<nat>(Positions(n - 1), n - 1, Ones(flag));
      FlaggedStep(n - 1, flag);
    }
  }
}
