/** Hash-linked audit rows and what accepting them means, for any choice of the text that
    is hashed (`text`) and of the digest (`sha`).  Results about the digest assume only
    that it does not collide on the texts of the rows at hand. */
module HashChain {
  import opened Wrappers
  import opened Json

  datatype Row = Row(id: Text, request: Text, app: Text, actor: Text, action: Text, status: Text,
                     payload: Value, prev: Option<Text>, chain: Text)

  type Digest = Text -> Text

  /** `event.prev_hash || null`: the empty string counts as null. */
  function PrevHash(r: Row): Option<Text> {
    if r.prev == Some([]) then None else r.prev
  }

  /** The verifier's `previousHash` when it reaches position `i`. */
  function Expected(events: seq<Row>, i: nat): Option<Text>
    requires i <= |events|
  {
    if i == 0 then None else Some(events[i - 1].chain)
  }

  ghost predicate Linked(events: seq<Row>) {
    forall i {:trigger Expected(events, i)} :: 0 <= i < |events| ==> PrevHash(events[i]) == Expected(events, i)
  }

  ghost predicate Sealed(events: seq<Row>, text: Row -> Text, sha: Digest) {
    forall i :: 0 <= i < |events| ==> events[i].chain == sha(text(events[i]))
  }

  ghost predicate Accepted(events: seq<Row>, text: Row -> Text, sha: Digest) {
    Linked(events) && Sealed(events, text, sha)
  }

  /** The digest does not collide on the texts of these two lists of rows. */
  ghost predicate NoCollision(es: seq<Row>, fs: seq<Row>, text: Row -> Text, sha: Digest) {
    forall i, j :: 0 <= i < |es| && 0 <= j < |fs| && sha(text(es[i])) == sha(text(fs[j])) ==> text(es[i]) == text(fs[j])
  }

  /** The hashed text records the previous hash. */
  ghost predicate TextDecidesPrev(es: seq<Row>, fs: seq<Row>, text: Row -> Text) {
    forall i, j :: 0 <= i < |es| && 0 <= j < |fs| && text(es[i]) == text(fs[j]) ==> PrevHash(es[i]) == PrevHash(fs[j])
  }

  /** `chain_break_events` of one request, starting from a previous hash. */
  function Breaks(events: seq<Row>, previous: Option<Text>): nat {
    if events == [] then 0
    else (if PrevHash(events[0]) != previous then 1 else 0) + Breaks(events[1..], Some(events[0].chain))
  }

  lemma {:induction false} BreaksFrom(events: seq<Row>, i: nat)
    requires i <= |events|
    ensures Breaks(events[i..], Expected(events, i)) == 0 <==>
            forall k {:trigger Expected(events, k)} :: i <= k < |events| ==> PrevHash(events[k]) == Expected(events, k)
    decreases |events| - i
  {
    if i < |events| {
      BreaksFrom(events, i + 1);
      assert Breaks(events[i..], Expected(events, i)) == 0 <==>
             PrevHash(events[i]) == Expected(events, i) && Breaks(events[i + 1..], Expected(events, i + 1)) == 0;
      assert events[i..][1..] == events[i + 1..];
    }
  }

  lemma BreaksZeroIffLinked(events: seq<Row>)
    ensures Breaks(events, None) == 0 <==> Linked(events)
  {
    BreaksFrom(events, 0);
    assert events[0..] == events;
  }

  // ---------- A chain hash decides the history before it ----------

  /** Two accepted histories that share a chain hash, at positions `m` and `n`, have the
      same length up to there and, event by event, the same hashed text and chain hash. */
  lemma {:induction false} ChainHashDecidesHistory(es: seq<Row>, fs: seq<Row>, m: nat, n: nat, text: Row -> Text,
                                                   sha: Digest)
    requires Accepted(es, text, sha) && Accepted(fs, text, sha)
    requires NoCollision(es, fs, text, sha) && TextDecidesPrev(es, fs, text)
    requires m < |es| && n < |fs| && es[m].chain == fs[n].chain
    ensures m == n
    ensures forall i :: 0 <= i <= m ==> es[i].chain == fs[i].chain && text(es[i]) == text(fs[i])
  {
    assert sha(text(es[m])) == es[m].chain && sha(text(fs[n])) == fs[n].chain;
    assert text(es[m]) == text(fs[n]);
    assert PrevHash(es[m]) == PrevHash(fs[n]);
    assert PrevHash(es[m]) == Expected(es, m) && PrevHash(fs[n]) == Expected(fs, n);
    if m > 0 && n > 0 {
      ChainHashDecidesHistory(es, fs, m - 1, n - 1, text, sha);
    }
  }

  /** A row that names the last hash extends an accepted history exactly if it is sealed. */
  lemma AcceptedWithLast(es: seq<Row>, last: Row, text: Row -> Text, sha: Digest)
    requires Accepted(es, text, sha) && PrevHash(last) == Expected(es, |es|)
    ensures Accepted(es + [last], text, sha) <==> last.chain == sha(text(last))
  {
    var fs := es + [last];
    forall i | 0 <= i < |fs| ensures PrevHash(fs[i]) == Expected(fs, i) {
      if i < |es| { assert PrevHash(es[i]) == Expected(es, i); }
    }
    assert fs[|es|] == last;
  }

  /** A prefix of an accepted history, such as one cut by LIMIT, is accepted. */
  lemma PrefixAccepted(es: seq<Row>, n: nat, text: Row -> Text, sha: Digest)
    requires Accepted(es, text, sha) && n <= |es|
    ensures Accepted(es[..n], text, sha)
  {
    forall i | 0 <= i < n ensures PrevHash(es[..n][i]) == Expected(es[..n], i) {
      assert PrevHash(es[i]) == Expected(es, i);
    }
  }

  // ---------- Dropped events ----------

  ghost predicate Selection(picks: seq<nat>, n: nat) {
    && (forall k :: 0 <= k < |picks| ==> picks[k] < n)
    && (forall k, l :: 0 <= k < l < |picks| ==> picks[k] < picks[l])
  }

  function Pick(es: seq<Row>, picks: seq<nat>): (r: seq<Row>)
    requires forall k :: 0 <= k < |picks| ==> picks[k] < |es|
  {
    seq(|picks|, k requires 0 <= k < |picks| => es[picks[k]])
  }

  /** Deleting events from an accepted history goes unnoticed exactly when what is left
      is a prefix of it. */
  lemma DroppedEventsBreakChain(es: seq<Row>, picks: seq<nat>, text: Row -> Text, sha: Digest)
    requires Accepted(es, text, sha) && NoCollision(es, es, text, sha) && TextDecidesPrev(es, es, text)
    requires Selection(picks, |es|)
    ensures Breaks(Pick(es, picks), None) == 0 <==> Pick(es, picks) <= es
  {
    var rest := Pick(es, picks);
    BreaksZeroIffLinked(rest);
    if Linked(rest) {
      forall i | 0 <= i < |picks| ensures picks[i] == i {
        LinkedPick(es, picks, i, text, sha);
      }
      if |picks| > 0 { assert picks[|picks| - 1] == |picks| - 1 < |es|; }
    }
    if rest <= es {
      forall i | 0 <= i < |rest| ensures PrevHash(rest[i]) == Expected(rest, i) {
        assert PrevHash(es[i]) == Expected(es, i);
      }
    }
  }

  lemma {:induction false} LinkedPick(es: seq<Row>, picks: seq<nat>, i: nat, text: Row -> Text, sha: Digest)
    requires Accepted(es, text, sha) && NoCollision(es, es, text, sha) && TextDecidesPrev(es, es, text)
    requires Selection(picks, |es|) && Linked(Pick(es, picks)) && i < |picks|
    ensures picks[i] == i
  {
    var p := picks[i];
    assert PrevHash(es[p]) == Expected(es, p);
    assert PrevHash(Pick(es, picks)[i]) == Expected(Pick(es, picks), i);
    if i > 0 {
      LinkedPick(es, picks, i - 1, text, sha);
      assert picks[i - 1] < p;
      ChainHashDecidesHistory(es, es, i - 1, p - 1, text, sha);
    }
  }
}
