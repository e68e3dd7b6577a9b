/** What `Stringify` promises: its text decides the value up to member order, and it ignores
    member order exactly when the collation ties no two keys of one object, except for ties
    with an array index, which Object.keys lists first in any case. */
module JsonOrder {
  import opened Json
  import opened JsonParser
  import Sorting

  /** No object, at any depth, has two keys that the collation cannot tell apart, unless one
      of them is an array index. */
  ghost predicate NoTies(v: Value, rank: Collation) {
    match v
    case Arr(items) => forall i :: 0 <= i < |items| ==> NoTies(items[i], rank)
    case Obj(ms) => NoTiedKeys(ms, rank) && forall i :: 0 <= i < |ms| ==> NoTies(ms[i].value, rank)
    case _ => true
  }

  ghost predicate NoTiedKeys(ms: seq<Member>, rank: Collation) {
    forall i, j :: 0 <= i < j < |ms| ==> Told(ms[i].key, ms[j].key, rank)
  }

  /** The printer always puts the two keys in the same order. */
  predicate Told(k: Text, l: Text, rank: Collation) {
    rank(k) == rank(l) ==> IsIndex(k) || IsIndex(l)
  }

  // ---------- Equal text, equal value ----------

  lemma TextDecidesCanonical(a: Value, b: Value, rank: Collation)
    requires WellFormed(a) && WellFormed(b) && Stringify(a, rank) == Stringify(b, rank)
    ensures Canonical(a, rank) == Canonical(b, rank)
  {
    RoundTrip(a, rank, []);
    RoundTrip(b, rank, []);
    assert Stringify(a, rank) + [] == Stringify(b, rank) + [];
  }

  lemma SortedFrom(ms: seq<Member>, rank: Collation, i: nat) returns (p: nat)
    requires i < |ms|
    ensures p < |ms| && SortMembers(ms, rank)[p] == ms[i]
  {
    var sorted := SortMembers(ms, rank);
    assert ms[i] in multiset(ms);
    assert ms[i] in multiset(sorted);
    p :| 0 <= p < |sorted| && sorted[p] == ms[i];
  }

  lemma SortedInto(ms: seq<Member>, rank: Collation, p: nat) returns (i: nat)
    requires p < |ms|
    ensures i < |ms| && SortMembers(ms, rank)[p] == ms[i]
  {
    var sorted := SortMembers(ms, rank);
    assert sorted[p] in multiset(sorted);
    assert sorted[p] in multiset(ms);
    i :| 0 <= i < |ms| && ms[i] == sorted[p];
  }

  /** Position by position, equal canonical members have equal keys and canonical values. */
  lemma CanonicalMembersAt(ms: seq<Member>, ns: seq<Member>, rank: Collation)
    requires CanonicalMembers(ms, rank) == CanonicalMembers(ns, rank)
    ensures |ms| == |ns|
    ensures forall p :: 0 <= p < |ms| ==>
              ms[p].key == ns[p].key && Canonical(ms[p].value, rank) == Canonical(ns[p].value, rank)
  {
    assert |ms| == |CanonicalMembers(ms, rank)| == |CanonicalMembers(ns, rank)| == |ns|;
    forall p | 0 <= p < |ms|
      ensures ms[p].key == ns[p].key && Canonical(ms[p].value, rank) == Canonical(ns[p].value, rank)
    {
      assert CanonicalMembers(ms, rank)[p] == CanonicalMembers(ns, rank)[p];
    }
  }

  lemma CanonicalItemsAt(items: seq<Value>, items': seq<Value>, rank: Collation)
    requires CanonicalItems(items, rank) == CanonicalItems(items', rank)
    ensures |items| == |items'|
    ensures forall p :: 0 <= p < |items| ==> Canonical(items[p], rank) == Canonical(items'[p], rank)
  {
    assert |items| == |CanonicalItems(items, rank)| == |CanonicalItems(items', rank)| == |items'|;
    forall p | 0 <= p < |items| ensures Canonical(items[p], rank) == Canonical(items'[p], rank) {
      assert CanonicalItems(items, rank)[p] == CanonicalItems(items', rank)[p];
    }
  }

  lemma {:induction false} CanonicalDecidesSame(a: Value, b: Value, rank: Collation)
    requires Canonical(a, rank) == Canonical(b, rank)
    ensures Same(a, b)
    decreases a
  {
    match a
    case Arr(items) =>
      CanonicalItemsAt(items, b.items, rank);
      forall i | 0 <= i < |items| ensures Same(items[i], b.items[i]) {
        CanonicalDecidesSame(items[i], b.items[i], rank);
      }
    case Obj(ms) =>
      CanonicalMembersAt(SortMembers(ms, rank), SortMembers(b.members, rank), rank);
      forall i | 0 <= i < |ms| ensures HasMatch(ms[i], b.members) {
        CanonicalDecidesMatch(ms, b.members, i, rank);
      }
    case _ =>
  }

  lemma {:induction false} CanonicalDecidesMatch(ms: seq<Member>, ns: seq<Member>, i: nat, rank: Collation)
    requires CanonicalMembers(SortMembers(ms, rank), rank) == CanonicalMembers(SortMembers(ns, rank), rank)
    requires i < |ms|
    ensures HasMatch(ms[i], ns)
    decreases ms
  {
    var p := SortedFrom(ms, rank, i);
    CanonicalMembersAt(SortMembers(ms, rank), SortMembers(ns, rank), rank);
    var j := SortedInto(ns, rank, p);
    CanonicalDecidesSame(ms[i].value, ns[j].value, rank);
  }

  /** Injectivity up to member order; nothing is asked of the collation. */
  lemma StringifyInjective(a: Value, b: Value, rank: Collation)
    requires WellFormed(a) && WellFormed(b)
    requires Stringify(a, rank) == Stringify(b, rank)
    ensures Same(a, b)
  {
    TextDecidesCanonical(a, b, rank);
    CanonicalDecidesSame(a, b, rank);
  }

  // ---------- Sorting ----------

  /** k comes before l in the sorted list: by rank, and tied keys by enumeration. */
  predicate Under(k: Text, l: Text, rank: Collation) {
    rank(k) < rank(l) || (rank(k) == rank(l) && AlwaysFirst(k, l))
  }

  ghost predicate Arranged(ms: seq<Member>, rank: Collation) {
    forall i, j :: 0 <= i < j < |ms| ==> Under(ms[i].key, ms[j].key, rank)
  }

  /** What is inserted into is kept, and nothing but the new member is added. */
  lemma InsertedFrom(m: Member, ms: seq<Member>, rank: Collation, j: nat)
    requires j <= |ms|
    ensures Insert(m, ms, rank)[j] == m || exists i :: 0 <= i < |ms| && Insert(m, ms, rank)[j] == ms[i]
  {
    var rest := Insert(m, ms, rank);
    assert rest[j] in multiset(rest);
    if rest[j] != m {
      assert rest[j] in multiset(ms);
    }
  }

  lemma ArrangedCons(first: Member, rest: seq<Member>, rank: Collation)
    requires Arranged(rest, rank) && forall j :: 0 <= j < |rest| ==> Under(first.key, rest[j].key, rank)
    ensures Arranged([first] + rest, rank)
  {}

  lemma {:induction false} InsertArranged(m: Member, ms: seq<Member>, rank: Collation)
    requires Arranged(ms, rank)
    requires forall i :: 0 <= i < |ms| && rank(ms[i].key) == rank(m.key) ==> AlwaysFirst(m.key, ms[i].key)
    ensures Arranged(Insert(m, ms, rank), rank)
  {
    if ms == [] || rank(m.key) <= rank(ms[0].key) {
      forall j | 0 <= j < |ms| ensures Under(m.key, ms[j].key, rank) {
        assert j > 0 ==> Under(ms[0].key, ms[j].key, rank);
      }
      ArrangedCons(m, ms, rank);
    } else {
      var rest := Insert(m, ms[1..], rank);
      InsertArranged(m, ms[1..], rank);
      forall j | 0 <= j < |rest| ensures Under(ms[0].key, rest[j].key, rank) {
        InsertedFrom(m, ms[1..], rank, j);
      }
      ArrangedCons(ms[0], rest, rank);
    }
  }

  lemma {:induction false} SortArranged(ms: seq<Member>, rank: Collation)
    requires Enumerated(ms) && NoTiedKeys(ms, rank)
    ensures Arranged(SortMembers(ms, rank), rank)
  {
    if ms != [] {
      var sorted := SortMembers(ms[1..], rank);
      SortArranged(ms[1..], rank);
      forall p | 0 <= p < |sorted| && rank(sorted[p].key) == rank(ms[0].key)
        ensures AlwaysFirst(ms[0].key, sorted[p].key)
      {
        var i := SortedInto(ms[1..], rank, p);
        assert ms[1..][i] == ms[i + 1];
        assert Told(ms[0].key, ms[i + 1].key, rank);
      }
      InsertArranged(ms[0], sorted, rank);
    }
  }

  /** Two arrangements of one set of keys agree key by key. */
  lemma {:induction false} OneArrangement(ms: seq<Member>, ns: seq<Member>, rank: Collation)
    requires Arranged(ms, rank) && Arranged(ns, rank)
    requires forall x :: HasKey(ms, x) <==> HasKey(ns, x)
    ensures |ms| == |ns| && forall p :: 0 <= p < |ms| ==> ms[p].key == ns[p].key
  {
    if ms == [] || ns == [] {
      if ms != [] { assert HasKey(ms, ms[0].key); }
      if ns != [] { assert HasKey(ns, ns[0].key); }
    } else {
      assert HasKey(ms, ms[0].key) && HasKey(ns, ns[0].key);
      var p :| 0 <= p < |ns| && ns[p].key == ms[0].key;
      var q :| 0 <= q < |ms| && ms[q].key == ns[0].key;
      assert ms[0].key == ns[0].key;
      forall x ensures HasKey(ms[1..], x) <==> HasKey(ns[1..], x) {
        TailHasKey(ms, x, rank);
        TailHasKey(ns, x, rank);
      }
      OneArrangement(ms[1..], ns[1..], rank);
      forall p | 0 <= p < |ms| ensures ms[p].key == ns[p].key {
        if p > 0 { assert ms[1..][p - 1].key == ns[1..][p - 1].key; }
      }
    }
  }

  ghost predicate HasKey(ms: seq<Member>, key: Text) {
    exists i :: 0 <= i < |ms| && ms[i].key == key
  }

  lemma TailHasKey(ms: seq<Member>, x: Text, rank: Collation)
    requires ms != [] && Arranged(ms, rank)
    ensures HasKey(ms[1..], x) <==> HasKey(ms, x) && x != ms[0].key
  {
    if HasKey(ms[1..], x) {
      var i :| 0 <= i < |ms[1..]| && ms[1..][i].key == x;
      assert ms[i + 1].key == x;
    }
    if HasKey(ms, x) && x != ms[0].key {
      var i :| 0 <= i < |ms| && ms[i].key == x;
      assert ms[1..][i - 1].key == x;
    }
  }

  lemma SortKeepsKeys(ms: seq<Member>, rank: Collation)
    ensures forall x :: HasKey(SortMembers(ms, rank), x) <==> HasKey(ms, x)
  {
    var sorted := SortMembers(ms, rank);
    forall x | HasKey(ms, x) ensures HasKey(sorted, x) {
      var i :| 0 <= i < |ms| && ms[i].key == x;
      var p := SortedFrom(ms, rank, i);
    }
    forall x | HasKey(sorted, x) ensures HasKey(ms, x) {
      var p :| 0 <= p < |sorted| && sorted[p].key == x;
      var i := SortedInto(ms, rank, p);
    }
  }

  // ---------- Equal values without ties, equal text ----------

  lemma MatchesCoverKeys(ms: seq<Member>, ns: seq<Member>)
    requires DistinctKeys(ms) && DistinctKeys(ns) && |ms| == |ns|
    requires forall i :: 0 <= i < |ms| ==> HasMatch(ms[i], ns)
    ensures forall x :: HasKey(ms, x) <==> HasKey(ns, x)
  {
    var ks, ls := set i | 0 <= i < |ms| :: ms[i].key, set j | 0 <= j < |ns| :: ns[j].key;
    KeyCount(ms);
    KeyCount(ns);
    forall i | 0 <= i < |ms| ensures ms[i].key in ls {
      assert HasMatch(ms[i], ns);
    }
    SubsetOfEqualSize(ks, ls);
    forall x ensures HasKey(ms, x) <==> HasKey(ns, x) {
      assert HasKey(ms, x) <==> x in ks;
      assert HasKey(ns, x) <==> x in ls;
    }
  }

  lemma {:induction false} KeyCount(ms: seq<Member>)
    requires DistinctKeys(ms)
    ensures |set i | 0 <= i < |ms| :: ms[i].key| == |ms|
  {
    if ms != [] {
      var front := ms[..|ms| - 1];
      KeyCount(front);
      var ks := set i | 0 <= i < |front| :: front[i].key;
      assert (set i | 0 <= i < |ms| :: ms[i].key) == ks + {ms[|ms| - 1].key};
    }
  }

  lemma SubsetOfEqualSize(s: set<Text>, t: set<Text>)
    requires s <= t && |s| == |t|
    ensures s == t
  {
    assert |t - s| == |t| - |s|;
  }

  lemma NoTiesTransfer(ms: seq<Member>, ns: seq<Member>, rank: Collation)
    requires NoTiedKeys(ms, rank) && DistinctKeys(ns)
    requires forall x :: HasKey(ms, x) <==> HasKey(ns, x)
    ensures NoTiedKeys(ns, rank)
  {
    forall i, j | 0 <= i < j < |ns| ensures Told(ns[i].key, ns[j].key, rank) {
      assert HasKey(ns, ns[i].key) && HasKey(ns, ns[j].key);
      var i' :| 0 <= i' < |ms| && ms[i'].key == ns[i].key;
      var j' :| 0 <= j' < |ms| && ms[j'].key == ns[j].key;
      assert i' < j' ==> Told(ms[i'].key, ms[j'].key, rank);
      assert j' < i' ==> Told(ms[j'].key, ms[i'].key, rank);
    }
  }

  /** Objects with matching members sort their keys alike when no two tie. */
  lemma SortedAlike(ms: seq<Member>, ns: seq<Member>, rank: Collation)
    requires DistinctKeys(ms) && DistinctKeys(ns) && Enumerated(ms) && Enumerated(ns) && |ms| == |ns|
    requires forall i :: 0 <= i < |ms| ==> HasMatch(ms[i], ns)
    requires NoTiedKeys(ms, rank)
    ensures forall p :: 0 <= p < |ms| ==> SortMembers(ms, rank)[p].key == SortMembers(ns, rank)[p].key
  {
    MatchesCoverKeys(ms, ns);
    NoTiesTransfer(ms, ns, rank);
    SortKeepsKeys(ms, rank);
    SortKeepsKeys(ns, rank);
    SortArranged(ms, rank);
    SortArranged(ns, rank);
    OneArrangement(SortMembers(ms, rank), SortMembers(ns, rank), rank);
  }

  lemma {:induction false} SameCanonical(a: Value, b: Value, rank: Collation)
    requires WellFormed(a) && WellFormed(b) && Same(a, b) && NoTies(a, rank)
    ensures Canonical(a, rank) == Canonical(b, rank)
    decreases a
  {
    match a
    case Arr(items) =>
      forall i | 0 <= i < |items| ensures Canonical(items[i], rank) == Canonical(b.items[i], rank) {
        SameCanonical(items[i], b.items[i], rank);
      }
      assert CanonicalItems(items, rank) == CanonicalItems(b.items, rank);
    case Obj(ms) => SameCanonicalMembers(ms, b.members, rank);
    case _ =>
  }

  lemma {:induction false} SameCanonicalMembers(ms: seq<Member>, ns: seq<Member>, rank: Collation)
    requires WellFormed(Obj(ms)) && WellFormed(Obj(ns)) && Same(Obj(ms), Obj(ns)) && NoTies(Obj(ms), rank)
    ensures Canonical(Obj(ms), rank) == Canonical(Obj(ns), rank)
    decreases ms, 1
  {
    SortedAlike(ms, ns, rank);
    var sorted, sorted' := SortMembers(ms, rank), SortMembers(ns, rank);
    forall p | 0 <= p < |ms|
      ensures CanonicalMembers(sorted, rank)[p] == CanonicalMembers(sorted', rank)[p]
    {
      SameCanonicalMember(ms, ns, p, rank);
    }
    assert CanonicalMembers(sorted, rank) == CanonicalMembers(sorted', rank);
  }

  lemma {:induction false} SameCanonicalMember(ms: seq<Member>, ns: seq<Member>, p: nat, rank: Collation)
    requires WellFormed(Obj(ms)) && WellFormed(Obj(ns)) && p < |ms| == |ns|
    requires forall i :: 0 <= i < |ms| ==> HasMatch(ms[i], ns) && NoTies(ms[i].value, rank)
    requires SortMembers(ms, rank)[p].key == SortMembers(ns, rank)[p].key
    ensures Canonical(SortMembers(ms, rank)[p].value, rank) == Canonical(SortMembers(ns, rank)[p].value, rank)
    decreases ms, 0
  {
    var i := SortedInto(ms, rank, p);
    var j := SortedInto(ns, rank, p);
    assert HasMatch(ms[i], ns);
    var k :| 0 <= k < |ns| && ns[k].key == ms[i].key && Same(ms[i].value, ns[k].value);
    assert k == j;
    SameCanonical(ms[i].value, ns[j].value, rank);
  }

  lemma {:induction false} CanonicalDecidesText(a: Value, b: Value, rank: Collation)
    requires Canonical(a, rank) == Canonical(b, rank)
    ensures Stringify(a, rank) == Stringify(b, rank)
    decreases Size(a), 1
  {
    match a
    case Arr(items) => ItemsDecideText(items, b.items, rank);
    case Obj(ms) => MembersDecideText(SortMembers(ms, rank), SortMembers(b.members, rank), rank);
    case _ =>
  }

  lemma {:induction false} ItemsDecideText(items: seq<Value>, items': seq<Value>, rank: Collation)
    requires CanonicalItems(items, rank) == CanonicalItems(items', rank)
    ensures StringifyItems(items, rank) == StringifyItems(items', rank)
    decreases ItemsSize(items), 0
  {
    CanonicalItemsAt(items, items', rank);
    if items != [] {
      CanonicalDecidesText(items[0], items'[0], rank);
      assert CanonicalItems(items[1..], rank) == CanonicalItems(items'[1..], rank);
      ItemsDecideText(items[1..], items'[1..], rank);
    }
  }

  lemma {:induction false} MembersDecideText(ms: seq<Member>, ns: seq<Member>, rank: Collation)
    requires CanonicalMembers(ms, rank) == CanonicalMembers(ns, rank)
    ensures StringifyMembers(ms, rank) == StringifyMembers(ns, rank)
    decreases MembersSize(ms), 0
  {
    CanonicalMembersAt(ms, ns, rank);
    if ms != [] {
      CanonicalDecidesText(ms[0].value, ns[0].value, rank);
      assert CanonicalMembers(ms[1..], rank) == CanonicalMembers(ns[1..], rank);
      MembersDecideText(ms[1..], ns[1..], rank);
    }
  }

  // ---------- A tie makes the text depend on insertion order ----------

  /** The number of array indexes that a list starts with. */
  function IndexCount(ms: seq<Member>): (m: nat)
    ensures m <= |ms|
  {
    if ms == [] || !IsIndex(ms[0].key) then 0 else 1 + IndexCount(ms[1..])
  }

  lemma {:induction false} IndexesFirst(ms: seq<Member>)
    requires Enumerated(ms)
    ensures forall i :: 0 <= i < |ms| ==> (IsIndex(ms[i].key) <==> i < IndexCount(ms))
  {
    if ms != [] {
      IndexesFirst(ms[1..]);
      forall i | 0 <= i < |ms| ensures IsIndex(ms[i].key) <==> i < IndexCount(ms) {
        assert i > 0 ==> ms[i] == ms[1..][i - 1];
        assert i > 0 ==> AlwaysFirst(ms[0].key, ms[i].key) || (!IsIndex(ms[0].key) && !IsIndex(ms[i].key));
      }
    }
  }

  /** Positions below m stay, those from m to n are reversed. */
  function Mirror(m: nat, n: nat, i: nat): nat
    requires m <= n && i < n
  {
    if i < m then i else m + (n - 1 - i)
  }

  /** Every object's members in the opposite insertion order. */
  function Reversed(v: Value): Value {
    match v
    case Arr(items) => Arr(seq(|items|, i requires 0 <= i < |items| => Reversed(items[i])))
    case Obj(ms) =>
      Obj(seq(|ms|, i requires 0 <= i < |ms| =>
        var k := Mirror(IndexCount(ms), |ms|, i);
        Member(ms[k].key, Reversed(ms[k].value))))
    case _ => v
  }

  lemma {:induction false} ReversedSame(v: Value)
    requires WellFormed(v)
    ensures WellFormed(Reversed(v)) && Same(v, Reversed(v))
  {
    match v
    case Arr(items) =>
      forall i | 0 <= i < |items| ensures WellFormed(Reversed(items[i])) && Same(items[i], Reversed(items[i])) {
        ReversedSame(items[i]);
      }
    case Obj(ms) =>
      forall i | 0 <= i < |ms| ensures WellFormed(Reversed(ms[i].value)) && Same(ms[i].value, Reversed(ms[i].value)) {
        ReversedSame(ms[i].value);
      }
      ReversedMembers(ms);
    case _ =>
  }

  lemma ReversedMembers(ms: seq<Member>)
    requires DistinctKeys(ms) && Enumerated(ms)
    requires forall i :: 0 <= i < |ms| ==> WellFormed(Reversed(ms[i].value)) && Same(ms[i].value, Reversed(ms[i].value))
    ensures WellFormed(Reversed(Obj(ms))) && Same(Obj(ms), Reversed(Obj(ms)))
  {
    var rs := Reversed(Obj(ms)).members;
    ReversedMembersMirror(ms, rs);
    MirroredKeys(ms, rs);
    MirroredMatches(ms, rs);
    forall i | 0 <= i < |rs| ensures WellFormed(rs[i].value) {
      assert rs[i].value == Reversed(ms[Mirror(IndexCount(ms), |ms|, i)].value);
    }
  }

  lemma MirroredMatches(ms: seq<Member>, rs: seq<Member>)
    requires AreReversed(ms, rs) && forall i :: 0 <= i < |ms| ==> Same(ms[i].value, Reversed(ms[i].value))
    ensures forall i :: 0 <= i < |ms| ==> HasMatch(ms[i], rs)
  {
    var m := IndexCount(ms);
    forall i | 0 <= i < |ms| ensures HasMatch(ms[i], rs) {
      var j := Mirror(m, |ms|, i);
      assert Mirror(m, |ms|, j) == i;
      assert rs[j].key == ms[i].key && rs[j].value == Reversed(ms[i].value);
    }
  }

  /** The reversed list is again one that Object.keys can return. */
  lemma MirroredKeys(ms: seq<Member>, rs: seq<Member>)
    requires DistinctKeys(ms) && Enumerated(ms) && AreReversed(ms, rs)
    ensures DistinctKeys(rs) && Enumerated(rs)
  {
    var m := IndexCount(ms);
    IndexesFirst(ms);
    forall i, j | 0 <= i < j < |rs|
      ensures rs[i].key != rs[j].key
      ensures AlwaysFirst(rs[i].key, rs[j].key) || (!IsIndex(rs[i].key) && !IsIndex(rs[j].key))
    {
      var k, l := Mirror(m, |ms|, i), Mirror(m, |ms|, j);
      assert rs[i].key == ms[k].key && rs[j].key == ms[l].key;
      assert if j < m then k == i && l == j else if i < m then k == i < m <= l else m <= l < k;
    }
  }

  /** The keys of rank `r`, in the order they occur. */
  function TieClass(ms: seq<Member>, r: real, rank: Collation): seq<Text> {
    if ms == [] then []
    else Tied(ms[0], r, rank) + TieClass(ms[1..], r, rank)
  }

  function Tied(m: Member, r: real, rank: Collation): seq<Text> {
    if rank(m.key) == r then [m.key] else []
  }

  lemma TieClassCons(m: Member, ms: seq<Member>, r: real, rank: Collation)
    ensures TieClass([m] + ms, r, rank) == Tied(m, r, rank) + TieClass(ms, r, rank)
  {
    assert ([m] + ms)[1..] == ms;
  }

  lemma Swap(a: seq<Text>, b: seq<Text>, c: seq<Text>)
    requires a == [] || b == []
    ensures a + (b + c) == b + (a + c)
  {
    if a == [] {
      assert a + (b + c) == b + c && a + c == c;
    } else {
      assert b + c == c && b + (a + c) == a + c;
    }
  }

  lemma InsertStep(m: Member, ms: seq<Member>, rank: Collation)
    requires ms != [] && rank(m.key) > rank(ms[0].key)
    ensures Insert(m, ms, rank) == [ms[0]] + Insert(m, ms[1..], rank)
  {}

  lemma {:induction false} InsertStable(m: Member, ms: seq<Member>, r: real, rank: Collation)
    ensures TieClass(Insert(m, ms, rank), r, rank) == Tied(m, r, rank) + TieClass(ms, r, rank)
  {
    if ms == [] || rank(m.key) <= rank(ms[0].key) {
      TieClassCons(m, ms, r, rank);
    } else {
      var rest, ins := ms[1..], Insert(m, ms[1..], rank);
      calc {
        TieClass(Insert(m, ms, rank), r, rank);
        { InsertStep(m, ms, rank); TieClassCons(ms[0], ins, r, rank); }
        Tied(ms[0], r, rank) + TieClass(ins, r, rank);
        { InsertStable(m, rest, r, rank); }
        Tied(ms[0], r, rank) + (Tied(m, r, rank) + TieClass(rest, r, rank));
        { Swap(Tied(ms[0], r, rank), Tied(m, r, rank), TieClass(rest, r, rank)); }
        Tied(m, r, rank) + (Tied(ms[0], r, rank) + TieClass(rest, r, rank));
        Tied(m, r, rank) + TieClass(ms, r, rank);
      }
    }
  }

  /** The sort keeps tied keys in their insertion order. */
  lemma {:induction false} SortStable(ms: seq<Member>, r: real, rank: Collation)
    ensures TieClass(SortMembers(ms, rank), r, rank) == TieClass(ms, r, rank)
  {
    if ms != [] {
      SortStable(ms[1..], r, rank);
      InsertStable(ms[0], SortMembers(ms[1..], rank), r, rank);
    }
  }

  lemma {:induction false} TieClassAppend(ms: seq<Member>, m: Member, r: real, rank: Collation)
    ensures TieClass(ms + [m], r, rank) == TieClass(ms, r, rank) + Tied(m, r, rank)
  {
    if ms == [] {
      TieClassCons(m, [], r, rank);
      assert ms + [m] == [m] + [];
    } else {
      TieClassAppend(ms[1..], m, r, rank);
      TieClassCons(ms[0], ms[1..] + [m], r, rank);
      assert ms + [m] == [ms[0]] + (ms[1..] + [m]);
      Sorting.Assoc(Tied(ms[0], r, rank), TieClass(ms[1..], r, rank), Tied(m, r, rank));
    }
  }

  function Backwards(s: seq<Text>): (b: seq<Text>)
    ensures |b| == |s|
  {
    if s == [] then [] else Backwards(s[1..]) + [s[0]]
  }

  lemma {:induction false} BackwardsEnds(s: seq<Text>)
    requires s != []
    ensures Backwards(s)[0] == s[|s| - 1]
  {
    if |s| > 1 { BackwardsEnds(s[1..]); }
  }

  lemma {:induction false} TieClassReversed(ms: seq<Member>, rs: seq<Member>, r: real, rank: Collation)
    requires |rs| == |ms| && forall i :: 0 <= i < |ms| ==> rs[i].key == ms[|ms| - 1 - i].key
    ensures TieClass(rs, r, rank) == Backwards(TieClass(ms, r, rank))
  {
    if ms != [] {
      var front := rs[..|rs| - 1];
      TieClassReversed(ms[1..], front, r, rank);
      TieClassAppend(front, rs[|rs| - 1], r, rank);
      assert rs == front + [rs[|rs| - 1]];
      var c := TieClass(ms[1..], r, rank);
      assert ([ms[0].key] + c)[1..] == c;
      assert [] + c == c && Backwards(c) + [] == Backwards(c);
    }
  }

  lemma {:induction false} TieClassByKeys(ms: seq<Member>, ns: seq<Member>, r: real, rank: Collation)
    requires |ms| == |ns| && forall p :: 0 <= p < |ms| ==> ms[p].key == ns[p].key
    ensures TieClass(ms, r, rank) == TieClass(ns, r, rank)
  {
    if ms != [] { TieClassByKeys(ms[1..], ns[1..], r, rank); }
  }

  lemma {:induction false} TieClassHas(ms: seq<Member>, x: Text, r: real, rank: Collation)
    ensures x in TieClass(ms, r, rank) <==> HasKey(ms, x) && rank(x) == r
  {
    if ms != [] {
      TieClassHas(ms[1..], x, r, rank);
      if HasKey(ms[1..], x) {
        var i :| 0 <= i < |ms[1..]| && ms[1..][i].key == x;
        assert ms[i + 1].key == x;
      }
      if HasKey(ms, x) && x != ms[0].key {
        var i :| 0 <= i < |ms| && ms[i].key == x;
        assert ms[1..][i - 1].key == x;
      }
    }
  }

  lemma {:induction false} TieClassDistinct(ms: seq<Member>, r: real, rank: Collation)
    requires DistinctKeys(ms)
    ensures var c := TieClass(ms, r, rank); forall p, q :: 0 <= p < q < |c| ==> c[p] != c[q]
  {
    if ms != [] {
      TieClassDistinct(ms[1..], r, rank);
      TieClassHas(ms[1..], ms[0].key, r, rank);
      assert forall i :: 0 <= i < |ms[1..]| ==> ms[1..][i].key != ms[0].key;
    }
  }

  lemma {:induction false} TieClassConcat(ms: seq<Member>, ns: seq<Member>, r: real, rank: Collation)
    ensures TieClass(ms + ns, r, rank) == TieClass(ms, r, rank) + TieClass(ns, r, rank)
  {
    if ms == [] {
      assert ms + ns == ns;
      assert TieClass(ms, r, rank) == [];
    } else {
      TieClassConcat(ms[1..], ns, r, rank);
      TieClassCons(ms[0], ms[1..] + ns, r, rank);
      assert ms + ns == [ms[0]] + (ms[1..] + ns);
      Sorting.Assoc(Tied(ms[0], r, rank), TieClass(ms[1..], r, rank), TieClass(ns, r, rank));
    }
  }

  lemma SameRest(a: seq<Text>, b: seq<Text>, c: seq<Text>)
    requires a + b == a + c
    ensures b == c
  {
    assert b == (a + b)[|a|..] && c == (a + c)[|a|..];
  }

  ghost predicate SameKeys(a: seq<Member>, b: seq<Member>) {
    |a| == |b| && forall q :: 0 <= q < |a| ==> a[q].key == b[q].key
  }

  ghost predicate ReversedKeys(a: seq<Member>, b: seq<Member>) {
    |a| == |b| && forall q :: 0 <= q < |a| ==> b[q].key == a[|a| - 1 - q].key
  }

  ghost predicate MirroredFrom(ms: seq<Member>, rs: seq<Member>, m: nat) {
    m <= |ms| == |rs| && forall q :: 0 <= q < |ms| ==> rs[q].key == ms[Mirror(m, |ms|, q)].key
  }

  lemma CutMirror(ms: seq<Member>, rs: seq<Member>, m: nat)
    requires MirroredFrom(ms, rs, m)
    ensures SameKeys(ms[..m], rs[..m]) && ReversedKeys(ms[m..], rs[m..])
    ensures ms == ms[..m] + ms[m..] && rs == rs[..m] + rs[m..]
  {
    forall q | 0 <= q < |ms| - m ensures rs[m..][q].key == ms[m..][|ms| - m - 1 - q].key {
      assert rs[m + q].key == ms[Mirror(m, |ms|, m + q)].key;
    }
  }

  /** A class whose lists differ by reversing the second part reads backwards there. */
  lemma BackwardsPart(a: seq<Member>, b: seq<Member>, a': seq<Member>, b': seq<Member>, r: real, rank: Collation)
    requires SameKeys(a, a') && ReversedKeys(b, b') && TieClass(a + b, r, rank) == TieClass(a' + b', r, rank)
    ensures var c := TieClass(b, r, rank); c == Backwards(c)
  {
    var c := TieClass(b, r, rank);
    TieClassConcat(a, b, r, rank);
    TieClassConcat(a', b', r, rank);
    TieClassByKeys(a, a', r, rank);
    TieClassReversed(b, b', r, rank);
    SameRest(TieClass(a, r, rank), c, Backwards(c));
  }

  lemma SortedClasses(ms: seq<Member>, rs: seq<Member>, r: real, rank: Collation)
    requires SameKeys(SortMembers(ms, rank), SortMembers(rs, rank))
    ensures TieClass(ms, r, rank) == TieClass(rs, r, rank)
  {
    SortStable(ms, r, rank);
    SortStable(rs, r, rank);
    TieClassByKeys(SortMembers(ms, rank), SortMembers(rs, rank), r, rank);
  }

  /** If reversing the members from position m on does not change the sorted key list, no two
      keys from there on tie. */
  lemma ReversalExposesTies(ms: seq<Member>, rs: seq<Member>, m: nat, i: nat, j: nat, rank: Collation)
    requires DistinctKeys(ms) && m <= i < j < |ms| && MirroredFrom(ms, rs, m)
    requires SameKeys(SortMembers(ms, rank), SortMembers(rs, rank))
    ensures rank(ms[i].key) != rank(ms[j].key)
  {
    var r, b := rank(ms[j].key), ms[m..];
    SortedClasses(ms, rs, r, rank);
    CutMirror(ms, rs, m);
    BackwardsPart(ms[..m], b, rs[..m], rs[m..], r, rank);
    LoneTail(ms, m, i, j, rank);
  }

  lemma LoneTail(ms: seq<Member>, m: nat, i: nat, j: nat, rank: Collation)
    requires DistinctKeys(ms) && m <= i < j < |ms|
    requires var c := TieClass(ms[m..], rank(ms[j].key), rank); c == Backwards(c)
    ensures rank(ms[i].key) != rank(ms[j].key)
  {
    assert ms[m..][i - m] == ms[i] && ms[m..][j - m] == ms[j];
    LoneClass(ms[m..], i - m, j - m, rank);
  }

  /** A class that reads the same backwards holds one key only. */
  lemma LoneClass(ms: seq<Member>, i: nat, j: nat, rank: Collation)
    requires DistinctKeys(ms) && i < j < |ms|
    requires var c := TieClass(ms, rank(ms[j].key), rank); c == Backwards(c)
    ensures rank(ms[i].key) != rank(ms[j].key)
  {
    var r := rank(ms[j].key);
    var c := TieClass(ms, r, rank);
    TieClassDistinct(ms, r, rank);
    TieClassHas(ms, ms[i].key, r, rank);
    TieClassHas(ms, ms[j].key, r, rank);
    assert HasKey(ms, ms[i].key) && HasKey(ms, ms[j].key);
    BackwardsEnds(c);
    assert |c| == 1;
  }

  lemma ObjectsSortAlike(ms: seq<Member>, rs: seq<Member>, rank: Collation)
    requires Canonical(Obj(ms), rank) == Canonical(Obj(rs), rank)
    ensures SortAlike(ms, rs, rank)
  {
    CanonicalMembersAt(SortMembers(ms, rank), SortMembers(rs, rank), rank);
  }

  lemma ReversedMembersMirror(ms: seq<Member>, rs: seq<Member>)
    requires Reversed(Obj(ms)) == Obj(rs)
    ensures AreReversed(ms, rs)
  {}

  lemma KeysUntied(ms: seq<Member>, rs: seq<Member>, rank: Collation)
    requires DistinctKeys(ms) && Enumerated(ms) && SortAlike(ms, rs, rank) && AreReversed(ms, rs)
    ensures NoTiedKeys(ms, rank)
  {
    IndexesFirst(ms);
    forall i, j | 0 <= i < j < |ms| ensures Told(ms[i].key, ms[j].key, rank) {
      if IndexCount(ms) <= i {
        ReversalExposesTies(ms, rs, IndexCount(ms), i, j, rank);
      }
    }
  }

  lemma {:induction false} ReversalExposesDeepTies(v: Value, rank: Collation)
    requires WellFormed(v) && Canonical(v, rank) == Canonical(Reversed(v), rank)
    ensures NoTies(v, rank)
    decreases v
  {
    match v
    case Arr(items) =>
      CanonicalItemsAt(items, Reversed(v).items, rank);
      forall i | 0 <= i < |items| ensures NoTies(items[i], rank) {
        assert Reversed(v).items[i] == Reversed(items[i]);
        ReversalExposesDeepTies(items[i], rank);
      }
    case Obj(ms) =>
      var rs := Reversed(v).members;
      ObjectsSortAlike(ms, rs, rank);
      ReversedMembersMirror(ms, rs);
      KeysUntied(ms, rs, rank);
      forall i | 0 <= i < |ms| ensures NoTies(ms[i].value, rank) {
        ReversedMemberCanonical(ms, rs, i, rank);
        ReversalExposesDeepTies(ms[i].value, rank);
      }
    case _ =>
  }

  /** Sorted, the two lists agree position by position, up to the canonical form. */
  ghost predicate SortAlike(ms: seq<Member>, rs: seq<Member>, rank: Collation) {
    |ms| == |rs| && forall p :: 0 <= p < |ms| ==>
      && SortMembers(ms, rank)[p].key == SortMembers(rs, rank)[p].key
      && Canonical(SortMembers(ms, rank)[p].value, rank) == Canonical(SortMembers(rs, rank)[p].value, rank)
  }

  ghost predicate AreReversed(ms: seq<Member>, rs: seq<Member>) {
    |ms| == |rs| && forall q :: 0 <= q < |ms| ==>
      var k := Mirror(IndexCount(ms), |ms|, q);
      rs[q].key == ms[k].key && rs[q].value == Reversed(ms[k].value)
  }

  lemma ReversedMemberCanonical(ms: seq<Member>, rs: seq<Member>, i: nat, rank: Collation)
    requires DistinctKeys(ms) && i < |ms| && AreReversed(ms, rs) && SortAlike(ms, rs, rank)
    ensures Canonical(ms[i].value, rank) == Canonical(Reversed(ms[i].value), rank)
  {
    var j := MatchingMember(ms, rs, i, rank);
    MirrorMember(ms, rs, i, j);
  }

  lemma MirrorMember(ms: seq<Member>, rs: seq<Member>, i: nat, j: nat)
    requires DistinctKeys(ms) && AreReversed(ms, rs) && i < |ms| && j < |rs| && rs[j].key == ms[i].key
    ensures rs[j].value == Reversed(ms[i].value)
  {
    OnlyKey(ms, i, Mirror(IndexCount(ms), |ms|, j));
  }

  /** The member of `rs` that sorts to the same place as ms[i]. */
  lemma MatchingMember(ms: seq<Member>, rs: seq<Member>, i: nat, rank: Collation) returns (j: nat)
    requires i < |ms| && SortAlike(ms, rs, rank)
    ensures j < |rs| && rs[j].key == ms[i].key && Canonical(rs[j].value, rank) == Canonical(ms[i].value, rank)
  {
    var p := SortedFrom(ms, rank, i);
    j := SortedInto(rs, rank, p);
  }

  lemma OnlyKey(ms: seq<Member>, i: nat, k: nat)
    requires DistinctKeys(ms) && i < |ms| && k < |ms| && ms[i].key == ms[k].key
    ensures i == k
  {}

  // ---------- The two directions together ----------

  /** The printer ignores the members' insertion order for `v` exactly when the collation ties
      no two keys of one object in `v`, unless one of the two is an array index. */
  lemma OrderInsensitiveIffNoTies(v: Value, rank: Collation)
    requires WellFormed(v)
    ensures (forall w :: WellFormed(w) && Same(v, w) ==> Stringify(v, rank) == Stringify(w, rank))
        <==> NoTies(v, rank)
  {
    if NoTies(v, rank) {
      forall w | WellFormed(w) && Same(v, w) ensures Stringify(v, rank) == Stringify(w, rank) {
        SameCanonical(v, w, rank);
        CanonicalDecidesText(v, w, rank);
      }
    } else {
      ReversalChangesText(v, rank);
    }
  }

  /** The witness for a tie: the members in the opposite order. */
  lemma ReversalChangesText(v: Value, rank: Collation)
    requires WellFormed(v) && !NoTies(v, rank)
    ensures WellFormed(Reversed(v)) && Same(v, Reversed(v)) && Stringify(v, rank) != Stringify(Reversed(v), rank)
  {
    ReversedSame(v);
    if Stringify(v, rank) == Stringify(Reversed(v), rank) {
      TextDecidesCanonical(v, Reversed(v), rank);
      ReversalExposesDeepTies(v, rank);
    }
  }

  /** Under a collation that separates different keys: equal text iff equal values. */
  lemma EqualTextIffSame(a: Value, b: Value, rank: Collation)
    requires forall k, l :: rank(k) == rank(l) ==> k == l
    requires WellFormed(a) && WellFormed(b)
    ensures Stringify(a, rank) == Stringify(b, rank) <==> Same(a, b)
  {
    if Stringify(a, rank) == Stringify(b, rank) {
      StringifyInjective(a, b, rank);
    }
    if Same(a, b) {
      DistinctMeansNoTies(a, rank);
      OrderInsensitiveIffNoTies(a, rank);
    }
  }

  lemma {:induction false} DistinctMeansNoTies(v: Value, rank: Collation)
    requires (forall k, l :: rank(k) == rank(l) ==> k == l) && WellFormed(v)
    ensures NoTies(v, rank)
  {
    match v
    case Arr(items) =>
      forall i | 0 <= i < |items| ensures NoTies(items[i], rank) { DistinctMeansNoTies(items[i], rank); }
    case Obj(ms) =>
      forall i | 0 <= i < |ms| ensures NoTies(ms[i].value, rank) { DistinctMeansNoTies(ms[i].value, rank); }
    case _ =>
  }

  /** Objects listing the same keys in the same order: equal text makes each value the same. */
  lemma EqualTextSameFields(ms: seq<Member>, ns: seq<Member>, rank: Collation)
    requires WellFormed(Obj(ms)) && WellFormed(Obj(ns)) && Stringify(Obj(ms), rank) == Stringify(Obj(ns), rank)
    requires |ms| == |ns| && forall i :: 0 <= i < |ms| ==> ms[i].key == ns[i].key
    ensures forall i :: 0 <= i < |ms| ==> Same(ms[i].value, ns[i].value)
  {
    StringifyInjective(Obj(ms), Obj(ns), rank);
    forall i | 0 <= i < |ms| ensures Same(ms[i].value, ns[i].value) {
      assert HasMatch(ms[i], ns);
      var j :| 0 <= j < |ns| && ns[j].key == ms[i].key && Same(ms[i].value, ns[j].value);
      OnlyKey(ns, i, j);
    }
  }

  // ---------- Objects with the same keys in the same order ----------

  /** Key by key, the two lists have values of one canonical form. */
  ghost predicate Aligned(ms: seq<Member>, ns: seq<Member>, rank: Collation) {
    |ms| == |ns| && forall i :: 0 <= i < |ms| ==>
      ms[i].key == ns[i].key && Canonical(ms[i].value, rank) == Canonical(ns[i].value, rank)
  }

  lemma {:induction false} InsertAligned(m: Member, n: Member, ms: seq<Member>, ns: seq<Member>, rank: Collation)
    requires Aligned([m], [n], rank) && Aligned(ms, ns, rank)
    ensures Aligned(Insert(m, ms, rank), Insert(n, ns, rank), rank)
  {
    assert [m][0] == m && [n][0] == n;
    if ms != [] && rank(m.key) > rank(ms[0].key) {
      InsertAligned(m, n, ms[1..], ns[1..], rank);
    }
  }

  lemma {:induction false} SortAligned(ms: seq<Member>, ns: seq<Member>, rank: Collation)
    requires Aligned(ms, ns, rank)
    ensures Aligned(SortMembers(ms, rank), SortMembers(ns, rank), rank)
  {
    if ms != [] {
      SortAligned(ms[1..], ns[1..], rank);
      InsertAligned(ms[0], ns[0], SortMembers(ms[1..], rank), SortMembers(ns[1..], rank), rank);
    }
  }

  /** Whatever ties there are, aligned objects print alike, and only aligned ones do. */
  lemma AlignedIff(ms: seq<Member>, ns: seq<Member>, rank: Collation)
    requires WellFormed(Obj(ms)) && WellFormed(Obj(ns))
    requires |ms| == |ns| && forall i :: 0 <= i < |ms| ==> ms[i].key == ns[i].key
    ensures Stringify(Obj(ms), rank) == Stringify(Obj(ns), rank) <==> Aligned(ms, ns, rank)
  {
    if Aligned(ms, ns, rank) {
      SortAligned(ms, ns, rank);
      AlignedCanonical(SortMembers(ms, rank), SortMembers(ns, rank), rank);
      CanonicalDecidesText(Obj(ms), Obj(ns), rank);
    }
    if Stringify(Obj(ms), rank) == Stringify(Obj(ns), rank) {
      TextDecidesCanonical(Obj(ms), Obj(ns), rank);
      ObjectsSortAlike(ms, ns, rank);
      forall i | 0 <= i < |ms| ensures Canonical(ms[i].value, rank) == Canonical(ns[i].value, rank) {
        var j := MatchingMember(ms, ns, i, rank);
        OnlyKey(ns, i, j);
      }
    }
  }

  lemma AlignedCanonical(ms: seq<Member>, ns: seq<Member>, rank: Collation)
    requires Aligned(ms, ns, rank)
    ensures CanonicalMembers(ms, rank) == CanonicalMembers(ns, rank)
  {
    forall p | 0 <= p < |ms| ensures CanonicalMembers(ms, rank)[p] == CanonicalMembers(ns, rank)[p] {}
  }

  /** Printing tells two values apart exactly as their canonical forms do. */
  lemma TextIffCanonical(a: Value, b: Value, rank: Collation)
    requires WellFormed(a) && WellFormed(b)
    ensures Stringify(a, rank) == Stringify(b, rank) <==> Canonical(a, rank) == Canonical(b, rank)
  {
    if Stringify(a, rank) == Stringify(b, rank) {
      TextDecidesCanonical(a, b, rank);
    }
    if Canonical(a, rank) == Canonical(b, rank) {
      CanonicalDecidesText(a, b, rank);
    }
  }

  lemma AlignedButOne(ms: seq<Member>, ns: seq<Member>, k: nat, rank: Collation)
    requires k < |ms| == |ns| && ms[k].key == ns[k].key && forall i :: 0 <= i < |ms| && i != k ==> ms[i] == ns[i]
    ensures Aligned(ms, ns, rank) <==> Canonical(ms[k].value, rank) == Canonical(ns[k].value, rank)
  {}

  /** Objects that differ in one value only print alike exactly if the two values do. */
  lemma OneValueDecides(ms: seq<Member>, ns: seq<Member>, k: nat, rank: Collation)
    requires WellFormed(Obj(ms)) && WellFormed(Obj(ns))
    requires k < |ms| == |ns| && ms[k].key == ns[k].key && forall i :: 0 <= i < |ms| && i != k ==> ms[i] == ns[i]
    ensures Stringify(Obj(ms), rank) == Stringify(Obj(ns), rank) <==>
              Stringify(ms[k].value, rank) == Stringify(ns[k].value, rank)
  {
    AlignedButOne(ms, ns, k, rank);
    AlignedIff(ms, ns, rank);
    TextIffCanonical(ms[k].value, ns[k].value, rank);
  }
}
