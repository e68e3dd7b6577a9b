/** The publish-audit verifier: the text it hashes for one row, and its verification loop. */
module AuditChain {
  import opened Wrappers
  import opened Json
  import opened JsonOrder
  import opened JsonParser
  import opened HashChain
  import opened Sums

  // ---------- The hashed text of a row ----------

  /** Arrays are objects too; everything else is hashed as the empty object. */
  function HashedPayload(r: Row): Value {
    if r.payload.Obj? || r.payload.Arr? then r.payload else Obj([])
  }

  function HashText(hash: Option<Text>): Value {
    match hash
    case None => Null
    case Some(h) => Str(h)
  }

  function Base(r: Row, prev: Option<Text>): Value {
    Obj([Member(Ascii("request_id"), Str(r.request)),
         Member(Ascii("app_id"), Str(r.app)),
         Member(Ascii("actor"), Str(r.actor)),
         Member(Ascii("action"), Str(r.action)),
         Member(Ascii("status"), Str(r.status)),
         Member(Ascii("payload"), HashedPayload(r)),
         Member(Ascii("prev_hash"), HashText(prev))])
  }

  /** What `computeExpectedChainHash(row, row.prev_hash || null)` hashes. */
  function RowText(rank: Collation): Row -> Text {
    r => Stringify(Base(r, PrevHash(r)), rank)
  }

  ghost predicate WellFormedRows(rows: seq<Row>) {
    forall i :: 0 <= i < |rows| ==> WellFormed(rows[i].payload)
  }

  ghost predicate SameHashedFields(a: Row, b: Row) {
    && a.request == b.request && a.app == b.app && a.actor == b.actor
    && a.action == b.action && a.status == b.status
    && Same(HashedPayload(a), HashedPayload(b))
    && PrevHash(a) == PrevHash(b)
  }

  lemma BaseKeysDistinct(r: Row, prev: Option<Text>)
    ensures DistinctKeys(Base(r, prev).members)
  {
    assert Ascii("app_id")[1] == 0x70 && Ascii("action")[1] == 0x63 && Ascii("status")[1] == 0x74;
    assert |Ascii("request_id")| == 10 && |Ascii("actor")| == 5 && |Ascii("payload")| == 7 && |Ascii("prev_hash")| == 9;
    assert |Ascii("app_id")| == |Ascii("action")| == |Ascii("status")| == 6;
  }

  /** No key of the hashed object is an array index. */
  lemma BaseEnumerated(r: Row, prev: Option<Text>)
    ensures Enumerated(Base(r, prev).members)
  {
    forall i | 0 <= i < 7 ensures !IsIndex(Base(r, prev).members[i].key) {
      assert Base(r, prev).members[i].key[0] >= 0x61;
    }
  }

  lemma SameLeaves(s: Text, t: Text, p: Option<Text>, q: Option<Text>)
    ensures Same(Str(s), Str(t)) ==> s == t
    ensures Same(HashText(p), HashText(q)) ==> p == q
  {}

  lemma MembersDecideFields(a: Row, b: Row, ms: seq<Member>, ns: seq<Member>)
    requires ms == Base(a, PrevHash(a)).members && ns == Base(b, PrevHash(b)).members
    requires forall i :: 0 <= i < 7 ==> Same(ms[i].value, ns[i].value)
    ensures SameHashedFields(a, b)
  {
    var p, q := PrevHash(a), PrevHash(b);
    SameLeaves(a.request, b.request, p, q);
    SameLeaves(a.app, b.app, p, q);
    SameLeaves(a.actor, b.actor, p, q);
    SameLeaves(a.action, b.action, p, q);
    SameLeaves(a.status, b.status, p, q);
    assert Same(ms[0].value, ns[0].value) && Same(ms[1].value, ns[1].value) && Same(ms[2].value, ns[2].value);
    assert Same(ms[3].value, ns[3].value) && Same(ms[4].value, ns[4].value);
    assert Same(ms[5].value, ns[5].value) && Same(ms[6].value, ns[6].value);
  }

  /** Equal hashed texts come from rows with the same hashed fields. */
  lemma TextDecidesFields(a: Row, b: Row, rank: Collation)
    requires WellFormed(a.payload) && WellFormed(b.payload)
    ensures RowText(rank)(a) == RowText(rank)(b) ==> SameHashedFields(a, b)
  {
    if RowText(rank)(a) == RowText(rank)(b) {
      var ms := BaseMembers(a);
      var ns := BaseMembers(b);
      SameMembers(ms, ns, rank);
      MembersDecideFields(a, b, ms, ns);
    }
  }

  lemma SameMembers(ms: seq<Member>, ns: seq<Member>, rank: Collation)
    requires |ms| == |ns| == 7 && WellFormed(Obj(ms)) && WellFormed(Obj(ns))
    requires Stringify(Obj(ms), rank) == Stringify(Obj(ns), rank)
    requires ms[0].key == ns[0].key && ms[1].key == ns[1].key && ms[2].key == ns[2].key && ms[3].key == ns[3].key
    requires ms[4].key == ns[4].key && ms[5].key == ns[5].key && ms[6].key == ns[6].key
    ensures forall i :: 0 <= i < 7 ==> Same(ms[i].value, ns[i].value)
  {
    EqualTextSameFields(ms, ns, rank);
  }

  lemma BaseMembers(r: Row) returns (ms: seq<Member>)
    requires WellFormed(r.payload)
    ensures ms == Base(r, PrevHash(r)).members && |ms| == 7 && WellFormed(Obj(ms))
    ensures ms[0].key == Ascii("request_id") && ms[1].key == Ascii("app_id") && ms[2].key == Ascii("actor")
    ensures ms[3].key == Ascii("action") && ms[4].key == Ascii("status")
    ensures ms[5].key == Ascii("payload") && ms[6].key == Ascii("prev_hash")
  {
    ms := Base(r, PrevHash(r)).members;
    BaseKeysDistinct(r, PrevHash(r));
    BaseEnumerated(r, PrevHash(r));
  }

  /** The object has this value under this key. */
  ghost predicate HasField(ms: seq<Member>, key: string, v: Value) {
    Member(Ascii(key), v) in ms
  }

  /** What a reader of the hashed text finds: one object with these seven fields, the payload
      with its keys in sorted order. */
  lemma RowTextFields(r: Row, rank: Collation) returns (ms: seq<Member>)
    requires WellFormed(r.payload)
    ensures Parse(RowText(rank)(r)) == Done(Obj(ms), []) && |ms| == 7
    ensures HasField(ms, "request_id", Str(r.request)) && HasField(ms, "app_id", Str(r.app))
    ensures HasField(ms, "actor", Str(r.actor)) && HasField(ms, "action", Str(r.action))
    ensures HasField(ms, "status", Str(r.status))
    ensures HasField(ms, "payload", if r.payload.Obj? || r.payload.Arr? then Canonical(r.payload, rank) else Obj([]))
    ensures HasField(ms, "prev_hash", if r.prev == None || r.prev == Some([]) then Null else Str(r.prev.value))
  {
    var base := BaseFields(r, rank);
    ms := ReadMembers(base, rank);
    ReadLeaf(base, ms, rank, 0, "request_id", Str(r.request));
    ReadLeaf(base, ms, rank, 1, "app_id", Str(r.app));
    ReadLeaf(base, ms, rank, 2, "actor", Str(r.actor));
    ReadLeaf(base, ms, rank, 3, "action", Str(r.action));
    ReadLeaf(base, ms, rank, 4, "status", Str(r.status));
    ReadPayload(base, ms, rank, r.payload);
    ReadLeaf(base, ms, rank, 6, "prev_hash", if r.prev == None || r.prev == Some([]) then Null else Str(r.prev.value));
  }

  ghost predicate AllRead(base: seq<Member>, ms: seq<Member>, rank: Collation) {
    forall i :: 0 <= i < |base| ==> Member(base[i].key, Canonical(base[i].value, rank)) in ms
  }

  lemma ReadLeaf(base: seq<Member>, ms: seq<Member>, rank: Collation, i: nat, key: string, v: Value)
    requires AllRead(base, ms, rank) && FieldAt(base, i, key, v) && (v.Str? || v.Null?)
    ensures HasField(ms, key, v)
  {
    assert Canonical(v, rank) == v;
  }

  lemma ReadPayload(base: seq<Member>, ms: seq<Member>, rank: Collation, payload: Value)
    requires AllRead(base, ms, rank)
    requires FieldAt(base, 5, "payload", if payload.Obj? || payload.Arr? then payload else Obj([]))
    ensures HasField(ms, "payload", if payload.Obj? || payload.Arr? then Canonical(payload, rank) else Obj([]))
  {
    EmptyObject(rank);
  }

  lemma EmptyObject(rank: Collation)
    ensures Canonical(Obj([]), rank) == Obj([])
  {
    assert SortMembers([], rank) == [];
  }

  ghost predicate FieldAt(base: seq<Member>, i: nat, key: string, v: Value) {
    i < |base| && base[i] == Member(Ascii(key), v)
  }

  lemma BaseFields(r: Row, rank: Collation) returns (base: seq<Member>)
    requires WellFormed(r.payload)
    ensures WellFormed(Obj(base)) && RowText(rank)(r) == Stringify(Obj(base), rank) && |base| == 7
    ensures FieldAt(base, 0, "request_id", Str(r.request)) && FieldAt(base, 1, "app_id", Str(r.app))
    ensures FieldAt(base, 2, "actor", Str(r.actor)) && FieldAt(base, 3, "action", Str(r.action))
    ensures FieldAt(base, 4, "status", Str(r.status))
    ensures FieldAt(base, 5, "payload", if r.payload.Obj? || r.payload.Arr? then r.payload else Obj([]))
    ensures FieldAt(base, 6, "prev_hash", if r.prev == None || r.prev == Some([]) then Null else Str(r.prev.value))
  {
    base := BaseMembers(r);
    RowTextIs(r, rank);
  }

  lemma ReadMembers(base: seq<Member>, rank: Collation) returns (ms: seq<Member>)
    requires WellFormed(Obj(base))
    ensures Parse(Stringify(Obj(base), rank)) == Done(Obj(ms), []) && |ms| == |base|
    ensures AllRead(base, ms, rank)
  {
    ms := CanonicalMembers(SortMembers(base, rank), rank);
    RoundTrip(Obj(base), rank, []);
    assert Stringify(Obj(base), rank) + [] == Stringify(Obj(base), rank);
    forall i | 0 <= i < |base| ensures Member(base[i].key, Canonical(base[i].value, rank)) in ms {
      var p := SortedFrom(base, rank, i);
      assert ms[p] == Member(base[i].key, Canonical(base[i].value, rank));
    }
  }

  lemma RowTextDecides(es: seq<Row>, fs: seq<Row>, rank: Collation)
    requires WellFormedRows(es) && WellFormedRows(fs)
    ensures TextDecidesPrev(es, fs, RowText(rank))
    ensures forall i, j :: 0 <= i < |es| && 0 <= j < |fs| && RowText(rank)(es[i]) == RowText(rank)(fs[j]) ==>
                             SameHashedFields(es[i], fs[j])
  {
    forall i, j | 0 <= i < |es| && 0 <= j < |fs| && RowText(rank)(es[i]) == RowText(rank)(fs[j])
      ensures SameHashedFields(es[i], fs[j])
    {
      TextDecidesFields(es[i], fs[j], rank);
    }
  }

  lemma HistoryFields(es: seq<Row>, fs: seq<Row>, text: Row -> Text, sha: Digest)
    requires Accepted(es, text, sha) && Accepted(fs, text, sha)
    requires NoCollision(es, fs, text, sha) && TextDecidesPrev(es, fs, text)
    requires forall i, j :: 0 <= i < |es| && 0 <= j < |fs| && text(es[i]) == text(fs[j]) ==>
               SameHashedFields(es[i], fs[j])
    requires es != [] && fs != [] && es[|es| - 1].chain == fs[|fs| - 1].chain
    ensures |es| == |fs|
    ensures forall i :: 0 <= i < |es| ==> es[i].chain == fs[i].chain && SameHashedFields(es[i], fs[i])
  {
    ChainHashDecidesHistory(es, fs, |es| - 1, |fs| - 1, text, sha);
  }

  /** Two accepted request histories that end in the same chain hash are the same history:
      same length and, event by event, the same hashed fields. */
  lemma LastHashDecidesHistory(es: seq<Row>, fs: seq<Row>, rank: Collation, sha: Digest)
    requires WellFormedRows(es) && WellFormedRows(fs)
    ensures EndAlike(es, fs, RowText(rank), sha) ==> SameHistory(es, fs)
  {
    if EndAlike(es, fs, RowText(rank), sha) {
      RowTextDecides(es, fs, rank);
      HistoryFields(es, fs, RowText(rank), sha);
    }
  }

  /** Accepted both, without a collision between them, and the last chain hash is the same. */
  ghost predicate EndAlike(es: seq<Row>, fs: seq<Row>, text: Row -> Text, sha: Digest) {
    && Accepted(es, text, sha) && Accepted(fs, text, sha) && NoCollision(es, fs, text, sha)
    && es != [] && fs != [] && es[|es| - 1].chain == fs[|fs| - 1].chain
  }

  ghost predicate SameHistory(es: seq<Row>, fs: seq<Row>) {
    |es| == |fs| && forall i :: 0 <= i < |es| ==> es[i].chain == fs[i].chain && SameHashedFields(es[i], fs[i])
  }

  /** Removing events from an accepted history is reported as a chain break, unless what
      is left is a prefix of the history. */
  lemma RemovedEventsAreReported(es: seq<Row>, picks: seq<nat>, rank: Collation, sha: Digest)
    requires WellFormedRows(es) && Accepted(es, RowText(rank), sha) && NoCollision(es, es, RowText(rank), sha)
    requires Selection(picks, |es|)
    ensures Breaks(Pick(es, picks), None) > 0 <==> !(Pick(es, picks) <= es)
  {
    RowTextDecides(es, es, rank);
    DroppedEventsBreakChain(es, picks, RowText(rank), sha);
  }

  // ---------- The writer's side ----------

  /** The row that the host application inserts after `es`. */
  function SealedRow(r: Row, es: seq<Row>, rank: Collation, sha: Digest): Row {
    var linked := r.(prev := Expected(es, |es|));
    linked.(chain := sha(RowText(rank)(linked)))
  }

  /** The database keeps a payload's members but not their order. */
  function ReadBack(r: Row, stored: Value): Row {
    r.(payload := stored)
  }

  lemma RowTextIgnoresChain(rank: Collation, q: Row, h: Text)
    ensures RowText(rank)(q.(chain := h)) == RowText(rank)(q)
  {
    BaseIgnoresChain(q, h);
  }

  lemma BaseIgnoresChain(q: Row, h: Text)
    ensures PrevHash(q.(chain := h)) == PrevHash(q) && Base(q.(chain := h), PrevHash(q)) == Base(q, PrevHash(q))
  {}

  /** Linking never fails for the writer's row, so acceptance is a matter of its text. */
  lemma ReadBackAccepted(es: seq<Row>, r: Row, stored: Value, rank: Collation, sha: Digest)
    requires Accepted(es, RowText(rank), sha) && (es != [] ==> es[|es| - 1].chain != [])
    ensures var last := SealedRow(r, es, rank, sha);
            Accepted(es + [ReadBack(last, stored)], RowText(rank), sha)
            <==> sha(RowText(rank)(ReadBack(last, stored))) == sha(RowText(rank)(last))
  {
    var last := SealedRow(r, es, rank, sha);
    SealedText(es, r, rank, sha);
    AcceptedWithLast(es, ReadBack(last, stored), RowText(rank), sha);
  }

  lemma SealedText(es: seq<Row>, r: Row, rank: Collation, sha: Digest)
    requires es != [] ==> es[|es| - 1].chain != []
    ensures var last := SealedRow(r, es, rank, sha);
            last.chain == sha(RowText(rank)(last)) && PrevHash(last) == Expected(es, |es|)
  {
    var linked := r.(prev := Expected(es, |es|));
    RowTextIgnoresChain(rank, linked, SealedRow(r, es, rank, sha).chain);
  }

  /** A row as it was appended keeps the history accepted. */
  lemma AppendedRowAccepted(es: seq<Row>, r: Row, rank: Collation, sha: Digest)
    requires Accepted(es, RowText(rank), sha) && (es != [] ==> es[|es| - 1].chain != [])
    ensures Accepted(es + [SealedRow(r, es, rank, sha)], RowText(rank), sha)
  {
    var last := SealedRow(r, es, rank, sha);
    ReadBackAccepted(es, r, r.payload, rank, sha);
    assert ReadBack(last, r.payload) == last;
  }

  /** The row's text tells the stored payload from the written one exactly as printing the
      payloads does. */
  lemma PayloadText(q: Row, stored: Value, rank: Collation)
    requires WellFormed(q.payload) && WellFormed(stored) && q.payload.Obj? && stored.Obj?
    ensures RowText(rank)(ReadBack(q, stored)) == RowText(rank)(q) <==>
              Stringify(stored, rank) == Stringify(q.payload, rank)
  {
    var back := ReadBack(q, stored);
    var ms, ns := Base(q, PrevHash(q)).members, Base(back, PrevHash(back)).members;
    BaseWellFormed(q);
    BaseWellFormed(back);
    RowTextIs(q, rank);
    RowTextIs(back, rank);
    OtherMembers(q, stored, ms, ns);
    OneValueDecides(ns, ms, 5, rank);
  }

  lemma BaseWellFormed(r: Row)
    requires WellFormed(r.payload)
    ensures WellFormed(Obj(Base(r, PrevHash(r)).members))
  {
    var ms := BaseMembers(r);
  }

  lemma RowTextIs(q: Row, rank: Collation)
    ensures RowText(rank)(q) == Stringify(Obj(Base(q, PrevHash(q)).members), rank)
  {}

  lemma OtherMembers(q: Row, stored: Value, ms: seq<Member>, ns: seq<Member>)
    requires q.payload.Obj? && stored.Obj?
    requires ms == Base(q, PrevHash(q)).members
    requires ns == Base(ReadBack(q, stored), PrevHash(ReadBack(q, stored))).members
    ensures |ms| == |ns| == 7 && forall i :: 0 <= i < 7 && i != 5 ==> ms[i] == ns[i]
    ensures ms[5] == Member(Ascii("payload"), q.payload) && ns[5] == Member(Ascii("payload"), stored)
  {}

  /** The row appended to `es` is accepted with the payload as it is read back. */
  ghost predicate Survives(es: seq<Row>, r: Row, stored: Value, rank: Collation, sha: Digest) {
    Accepted(es + [ReadBack(SealedRow(r, es, rank, sha), stored)], RowText(rank), sha)
  }

  ghost predicate CanAppend(es: seq<Row>, rank: Collation, sha: Digest) {
    Accepted(es, RowText(rank), sha) && (es != [] ==> es[|es| - 1].chain != [])
  }

  /** The sealed row and its reversed payload do not collide. */
  ghost predicate TellsReversal(es: seq<Row>, r: Row, rank: Collation, sha: Digest) {
    var last := SealedRow(r, es, rank, sha);
    NoCollision([last], [ReadBack(last, Reversed(r.payload))], RowText(rank), sha)
  }

  /** Rows survive the storage of their payload, in whatever member order it is read back,
      exactly when the payload has no tied keys. */
  lemma AppendedRowsSurviveStorageIff(es: seq<Row>, r: Row, rank: Collation, sha: Digest)
    requires CanAppend(es, rank, sha) && WellFormed(r.payload) && r.payload.Obj? && TellsReversal(es, r, rank, sha)
    ensures (forall stored :: WellFormed(stored) && Same(r.payload, stored) ==> Survives(es, r, stored, rank, sha))
            <==> NoTies(r.payload, rank)
  {
    if NoTies(r.payload, rank) {
      forall stored | WellFormed(stored) && Same(r.payload, stored) ensures Survives(es, r, stored, rank, sha) {
        UntiedSurvives(es, r, stored, rank, sha);
      }
    } else {
      TiedPayloadFails(es, r, rank, sha);
    }
  }

  lemma UntiedSurvives(es: seq<Row>, r: Row, stored: Value, rank: Collation, sha: Digest)
    requires CanAppend(es, rank, sha) && WellFormed(r.payload) && r.payload.Obj? && NoTies(r.payload, rank)
    requires WellFormed(stored) && Same(r.payload, stored)
    ensures Survives(es, r, stored, rank, sha)
  {
    OrderInsensitiveIffNoTies(r.payload, rank);
    PayloadText(SealedRow(r, es, rank, sha), stored, rank);
    ReadBackAccepted(es, r, stored, rank, sha);
  }

  /** The witness: the payload read back in the opposite order. */
  lemma TiedPayloadFails(es: seq<Row>, r: Row, rank: Collation, sha: Digest)
    requires CanAppend(es, rank, sha) && WellFormed(r.payload) && r.payload.Obj? && TellsReversal(es, r, rank, sha)
    requires !NoTies(r.payload, rank)
    ensures var stored := Reversed(r.payload);
            WellFormed(stored) && Same(r.payload, stored) && !Survives(es, r, stored, rank, sha)
  {
    var last, stored := SealedRow(r, es, rank, sha), Reversed(r.payload);
    var back := ReadBack(last, stored);
    ReversalChangesText(r.payload, rank);
    PayloadText(last, stored, rank);
    assert [last][0] == last && [back][0] == back;
    ReadBackAccepted(es, r, stored, rank, sha);
  }

  // ---------- The verification loop ----------

  function Only(r: Row, request: Text): seq<Row> {
    if r.request == request then [r] else []
  }

  /** The events of one request, in row order. */
  function Events(rows: seq<Row>, request: Text): seq<Row> {
    if rows == [] then []
    else Events(rows[..|rows| - 1], request) + Only(rows[|rows| - 1], request)
  }

  lemma {:induction false} EventsPrefix(rows: seq<Row>, n: nat, request: Text)
    requires n <= |rows|
    ensures Events(rows[..n], request) <= Events(rows, request)
    decreases |rows| - n
  {
    if n < |rows| {
      EventsPrefix(rows, n + 1, request);
      assert rows[..n + 1][..n] == rows[..n];
    } else {
      assert rows[..n] == rows;
    }
  }

  ghost predicate AllAccepted(rows: seq<Row>, text: Row -> Text, sha: Digest) {
    forall request :: Accepted(Events(rows, request), text, sha)
  }

  /** Cutting the row list with LIMIT never turns an accepted table into a rejected one. */
  lemma LimitKeepsAcceptance(rows: seq<Row>, limit: nat, text: Row -> Text, sha: Digest)
    requires AllAccepted(rows, text, sha)
    ensures AllAccepted(if limit < |rows| then rows[..limit] else rows, text, sha)
  {
    if limit < |rows| {
      forall request ensures Accepted(Events(rows[..limit], request), text, sha) {
        EventsPrefix(rows, limit, request);
        var n := |Events(rows[..limit], request)|;
        PrefixAccepted(Events(rows, request), n, text, sha);
        assert Events(rows[..limit], request) == Events(rows, request)[..n];
      }
    }
  }

  datatype Issue =
    | PrevMismatch(request: Text, id: Text, expectedPrev: Option<Text>, actualPrev: Option<Text>)
    | ChainMismatch(request: Text, id: Text, expectedChain: Text, actualChain: Text)

  /** The chain hash of the last of these rows with this request. */
  function LastHash(rows: seq<Row>, request: Text): Option<Text> {
    if rows == [] then None
    else if rows[|rows| - 1].request == request then Some(rows[|rows| - 1].chain)
    else LastHash(rows[..|rows| - 1], request)
  }

  /** Row i does not name the hash of the row before it in its request's history. */
  predicate BadLink(rows: seq<Row>, i: nat)
    requires i < |rows|
  {
    PrevHash(rows[i]) != LastHash(rows[..i], rows[i].request)
  }

  predicate BadSeal(r: Row, text: Row -> Text, sha: Digest) {
    r.chain != sha(text(r))
  }

  /** What the loop reports of a row after this previous hash. */
  function RowIssues(r: Row, expected: Option<Text>, text: Row -> Text, sha: Digest): seq<Issue> {
    (if PrevHash(r) != expected then [PrevMismatch(r.request, r.id, expected, PrevHash(r))] else [])
      + if BadSeal(r, text, sha) then [ChainMismatch(r.request, r.id, sha(text(r)), r.chain)] else []
  }

  /** What it reports of one request's history. */
  function IssuesOf(events: seq<Row>, text: Row -> Text, sha: Digest): seq<Issue> {
    if events == [] then []
    else
      var n := |events| - 1;
      IssuesOf(events[..n], text, sha) + RowIssues(events[n], Expected(events, n), text, sha)
  }

  function HistoryIssues(rows: seq<Row>, text: Row -> Text, sha: Digest): Text -> seq<Issue> {
    (request: Text) => IssuesOf(Events(rows, request), text, sha)
  }

  /** The issues of row i, if it belongs to the request. */
  function IssuesAt(rows: seq<Row>, request: Text, text: Row -> Text, sha: Digest): nat -> seq<Issue> {
    (i: nat) =>
      if i < |rows| && rows[i].request == request
      then RowIssues(rows[i], LastHash(rows[..i], request), text, sha) else []
  }

  /** Some row has the issue: a wrong link in its request's history, or a wrong hash. */
  ghost predicate Reported(rows: seq<Row>, text: Row -> Text, sha: Digest, issue: Issue) {
    exists i :: 0 <= i < |rows| && ReportedAt(rows, i, text, sha, issue)
  }

  ghost predicate ReportedAt(rows: seq<Row>, i: nat, text: Row -> Text, sha: Digest, issue: Issue)
    requires i < |rows|
  {
    var r, last := rows[i], LastHash(rows[..i], rows[i].request);
    || (PrevHash(r) != last && issue == PrevMismatch(r.request, r.id, last, PrevHash(r)))
    || (sha(text(r)) != r.chain && issue == ChainMismatch(r.request, r.id, sha(text(r)), r.chain))
  }

  lemma {:induction false} LastHashIs(rows: seq<Row>, request: Text)
    ensures LastHash(rows, request) == Expected(Events(rows, request), |Events(rows, request)|)
  {
    if rows != [] { LastHashIs(rows[..|rows| - 1], request); }
  }

  /** The events of a request are the rows that name it. */
  lemma {:induction false} EventsAre(rows: seq<Row>, request: Text, r: Row)
    ensures r in Events(rows, request) <==> r in rows && r.request == request
  {
    if rows != [] {
      EventsAre(rows[..|rows| - 1], request, r);
      assert rows == rows[..|rows| - 1] + [rows[|rows| - 1]];
    }
  }

  lemma IssuesSnoc(events: seq<Row>, r: Row, text: Row -> Text, sha: Digest)
    ensures IssuesOf(events + [r], text, sha)
         == IssuesOf(events, text, sha) + RowIssues(r, Expected(events, |events|), text, sha)
  {
    assert (events + [r])[..|events|] == events;
    assert Expected(events + [r], |events|) == Expected(events, |events|);
  }

  lemma RowReported(rows: seq<Row>, i: nat, text: Row -> Text, sha: Digest, issue: Issue)
    requires i < |rows|
    ensures issue in RowIssues(rows[i], LastHash(rows[..i], rows[i].request), text, sha) <==>
              ReportedAt(rows, i, text, sha, issue)
  {}

  lemma OneRowMoreIssues(rows: seq<Row>, n: nat, request: Text, text: Row -> Text, sha: Digest)
    requires n < |rows|
    ensures IssuesOf(Events(rows[..n + 1], request), text, sha)
         == IssuesOf(Events(rows[..n], request), text, sha) + IssuesAt(rows, request, text, sha)(n)
  {
    EventsSnoc(rows, n);
    if rows[n].request == request {
      LastHashIs(rows[..n], request);
      IssuesSnoc(Events(rows[..n], request), rows[n], text, sha);
    }
  }

  /** The issues of a request's history are those of its rows. */
  lemma {:induction false} IssuesOfRequest(rows: seq<Row>, n: nat, request: Text, text: Row -> Text, sha: Digest)
    requires n <= |rows|
    ensures IssuesOf(Events(rows[..n], request), text, sha)
         == Concat<nat, Issue>(Positions(n), IssuesAt(rows, request, text, sha))
  {
    if n > 0 {
      IssuesOfRequest(rows, n - 1, request, text, sha);
      OneRowMoreIssues(rows, n - 1, request, text, sha);
      PositionsSnoc(n - 1);
      ConcatSnoc<nat, Issue>(Positions(n - 1), n - 1, IssuesAt(rows, request, text, sha));
    } else {
      assert rows[..0] == [] && Positions(0) == [];
    }
  }

  lemma HistoryHas(rows: seq<Row>, request: Text, text: Row -> Text, sha: Digest, issue: Issue)
    ensures issue in HistoryIssues(rows, text, sha)(request) <==>
              exists i :: i in Positions(|rows|) && issue in IssuesAt(rows, request, text, sha)(i)
  {
    assert rows[..|rows|] == rows;
    IssuesOfRequest(rows, |rows|, request, text, sha);
    ConcatHas<nat, Issue>(Positions(|rows|), IssuesAt(rows, request, text, sha), issue);
  }

  lemma FoundIsReported(rows: seq<Row>, k: Text, text: Row -> Text, sha: Digest, issue: Issue)
    requires issue in HistoryIssues(rows, text, sha)(k)
    ensures Reported(rows, text, sha, issue)
  {
    HistoryHas(rows, k, text, sha, issue);
    var i :| i in Positions(|rows|) && issue in IssuesAt(rows, k, text, sha)(i);
    RowReported(rows, i, text, sha, issue);
  }

  lemma ReportedIsFound(rows: seq<Row>, i: nat, text: Row -> Text, sha: Digest, issue: Issue)
    requires i < |rows| && ReportedAt(rows, i, text, sha, issue)
    ensures issue in HistoryIssues(rows, text, sha)(rows[i].request)
  {
    RowReported(rows, i, text, sha, issue);
    assert Positions(|rows|)[i] == i && issue in IssuesAt(rows, rows[i].request, text, sha)(i);
    HistoryHas(rows, rows[i].request, text, sha, issue);
  }

  lemma AllIssues(rows: seq<Row>, order: seq<Text>, text: Row -> Text, sha: Digest, issue: Issue)
    requires Covers(rows, |rows|, order, RequestOf())
    ensures issue in Concat(order, HistoryIssues(rows, text, sha)) <==> Reported(rows, text, sha, issue)
  {
    ConcatHas(order, HistoryIssues(rows, text, sha), issue);
    if issue in Concat(order, HistoryIssues(rows, text, sha)) {
      var k :| k in order && issue in HistoryIssues(rows, text, sha)(k);
      FoundIsReported(rows, k, text, sha, issue);
    }
    if Reported(rows, text, sha, issue) {
      var i :| 0 <= i < |rows| && ReportedAt(rows, i, text, sha, issue);
      ReportedIsFound(rows, i, text, sha, issue);
      assert RequestOf()(rows[i]) in order;
    }
  }

  /** The issues of all rows, row by row. */
  function TableIssues(rows: seq<Row>, text: Row -> Text, sha: Digest): seq<Issue> {
    Concat<nat, Issue>(Positions(|rows|), IssuesOfRow(rows, text, sha))
  }

  function IssuesOfRow(rows: seq<Row>, text: Row -> Text, sha: Digest): nat -> seq<Issue> {
    (i: nat) => if i < |rows| then RowIssues(rows[i], LastHash(rows[..i], rows[i].request), text, sha) else []
  }

  /** An issue is listed exactly if some row has it. */
  lemma TableIssuesAre(rows: seq<Row>, text: Row -> Text, sha: Digest, issue: Issue)
    ensures issue in TableIssues(rows, text, sha) <==> Reported(rows, text, sha, issue)
  {
    ConcatHas<nat, Issue>(Positions(|rows|), IssuesOfRow(rows, text, sha), issue);
    if issue in TableIssues(rows, text, sha) {
      var i: nat :| i in Positions(|rows|) && issue in IssuesOfRow(rows, text, sha)(i);
      RowReported(rows, i, text, sha, issue);
    }
    if Reported(rows, text, sha, issue) {
      var i: nat :| i < |rows| && ReportedAt(rows, i, text, sha, issue);
      RowReported(rows, i, text, sha, issue);
      assert Positions(|rows|)[i] == i && issue in IssuesOfRow(rows, text, sha)(i);
    }
  }

  lemma GroupsListTable(rows: seq<Row>, order: seq<Text>, text: Row -> Text, sha: Digest)
    requires Covers(rows, |rows|, order, RequestOf())
    ensures forall issue ::
              issue in Concat(order, HistoryIssues(rows, text, sha)) <==> issue in TableIssues(rows, text, sha)
  {
    forall issue
      ensures issue in Concat(order, HistoryIssues(rows, text, sha)) <==> issue in TableIssues(rows, text, sha)
    {
      AllIssues(rows, order, text, sha, issue);
      TableIssuesAre(rows, text, sha, issue);
    }
  }

  // ---------- Counting over requests ----------

  function Unsealed(text: Row -> Text, sha: Digest): Row -> nat {
    (r: Row) => if r.chain != sha(text(r)) then 1 else 0
  }

  function Single(): Row -> nat {
    (r: Row) => 1
  }

  /** Per request: the weight of its events, and its chain breaks. */
  function GroupWeight(rows: seq<Row>, w: Row -> nat): Text -> nat {
    (k: Text) => Sum(Events(rows, k), w)
  }

  function GroupBreaks(rows: seq<Row>): Text -> nat {
    (k: Text) => Breaks(Events(rows, k), None)
  }

  lemma {:induction false} SingleWeight(rows: seq<Row>)
    ensures Sum(rows, Single()) == |rows|
  {
    if rows != [] {
      SingleWeight(rows[..|rows| - 1]);
    }
  }

  function RequestOf(): Row -> Text {
    (r: Row) => r.request
  }

  function FirstRows(rows: seq<Row>, n: nat): seq<Row> {
    if n < |rows| then rows[..n] else rows
  }

  /** The weight of each request's events among the first n rows. */
  function GroupedWeight(rows: seq<Row>, w: Row -> nat): nat -> (Text -> nat) {
    (n: nat) => GroupWeight(FirstRows(rows, n), w)
  }

  lemma EventsOneMore(rows: seq<Row>, n: nat, k: Text, w: Row -> nat)
    requires n < |rows|
    ensures Sum(Events(FirstRows(rows, n + 1), k), w)
         == Sum(Events(FirstRows(rows, n), k), w) + if k == rows[n].request then w(rows[n]) else 0
  {
    assert rows[..|rows|] == rows;
    EventsSnoc(rows, n);
    if k == rows[n].request {
      SumSnoc(Events(rows[..n], k), rows[n], w);
    }
  }

  lemma OneRowMore(rows: seq<Row>, n: nat, w: Row -> nat)
    requires n < |rows|
    ensures RaisedAt(GroupedWeight(rows, w)(n), GroupedWeight(rows, w)(n + 1), rows[n].request, w(rows[n]))
  {
    forall k
      ensures GroupedWeight(rows, w)(n + 1)(k)
           == GroupedWeight(rows, w)(n)(k) + if k == rows[n].request then w(rows[n]) else 0
    {
      EventsOneMore(rows, n, k, w);
    }
  }

  lemma NothingGrouped(rows: seq<Row>, w: Row -> nat)
    ensures forall k :: GroupedWeight(rows, w)(0)(k) == 0
  {
    assert FirstRows(rows, 0) == [];
  }

  /** Going through the requests, one group after the other, meets every row once. */
  lemma GroupsCoverRows(rows: seq<Row>, order: seq<Text>, w: Row -> nat)
    requires Distinct(order) && Covers(rows, |rows|, order, RequestOf())
    ensures Sum(order, GroupWeight(rows, w)) == Sum(rows, w)
  {
    forall m: nat | m < |rows|
      ensures RaisedAt(GroupedWeight(rows, w)(m), GroupedWeight(rows, w)(m + 1), RequestOf()(rows[m]), w(rows[m]))
    {
      OneRowMore(rows, m, w);
    }
    NothingGrouped(rows, w);
    GroupedSum(rows, |rows|, order, RequestOf(), w, GroupedWeight(rows, w));
    assert rows[..|rows|] == rows;
  }

  lemma SealedIff(rows: seq<Row>, text: Row -> Text, sha: Digest)
    ensures Sum(rows, Unsealed(text, sha)) == 0 <==> Sealed(rows, text, sha)
  {
    SumZeroIff(rows, Unsealed(text, sha));
    assert forall i :: 0 <= i < |rows| ==> rows[i] in rows;
  }

  lemma AcceptedIff(rows: seq<Row>, order: seq<Text>, text: Row -> Text, sha: Digest)
    ensures Sum(order, GroupWeight(rows, Unsealed(text, sha))) == 0 && Sum(order, GroupBreaks(rows)) == 0
       <==> forall k :: k in order ==> Accepted(Events(rows, k), text, sha)
  {
    SumZeroIff(order, GroupWeight(rows, Unsealed(text, sha)));
    SumZeroIff(order, GroupBreaks(rows));
    forall k
      ensures GroupWeight(rows, Unsealed(text, sha))(k) == 0 && GroupBreaks(rows)(k) == 0 <==>
                Accepted(Events(rows, k), text, sha)
    {
      SealedIff(Events(rows, k), text, sha);
      BreaksZeroIffLinked(Events(rows, k));
    }
  }

  /** The Map from request id to its rows; `order` is its insertion order. */
  method GroupByRequest(rows: seq<Row>) returns (order: seq<Text>, byRequest: map<Text, seq<Row>>)
    ensures forall k :: k in order <==> k in byRequest
    ensures forall k :: k in byRequest ==> byRequest[k] == Events(rows, k)
    ensures forall k :: k !in byRequest ==> Events(rows, k) == []
    ensures Distinct(order) && Covers(rows, |rows|, order, RequestOf())
  {
    order, byRequest := [], map[];
    for i := 0 to |rows|
      invariant forall k :: k in order <==> k in byRequest
      invariant Grouped(byRequest, rows, i)
      invariant Distinct(order) && Covers(rows, i, order, RequestOf())
    {
      var key := rows[i].request;
      CoversOneMore(rows, i, order, if key in order then order else order + [key], RequestOf());
      ghost var before := byRequest;
      if key !in byRequest {
        DistinctSnoc(order, key);
        order := order + [key];
        byRequest := byRequest[key := []];
      }
      byRequest := byRequest[key := byRequest[key] + [rows[i]]];
      GroupedOneMore(before, byRequest, rows, i);
    }
    assert rows[..|rows|] == rows;
  }

  /** The map holds the first i rows by request. */
  ghost predicate Grouped(byRequest: map<Text, seq<Row>>, rows: seq<Row>, i: nat)
    requires i <= |rows|
  {
    && (forall k :: k in byRequest ==> byRequest[k] == Events(rows[..i], k))
    && (forall k :: k !in byRequest ==> Events(rows[..i], k) == [])
  }

  lemma GroupedOneMore(before: map<Text, seq<Row>>, after: map<Text, seq<Row>>, rows: seq<Row>, i: nat)
    requires i < |rows| && Grouped(before, rows, i)
    requires var key := rows[i].request;
             after == before[key := (if key in before then before[key] else []) + [rows[i]]]
    ensures Grouped(after, rows, i + 1)
  {
    EventsSnoc(rows, i);
  }

  lemma EventsSnoc(rows: seq<Row>, i: nat)
    requires i < |rows|
    ensures forall k :: k != rows[i].request ==> Events(rows[..i + 1], k) == Events(rows[..i], k)
    ensures Events(rows[..i + 1], rows[i].request) == Events(rows[..i], rows[i].request) + [rows[i]]
  {
    assert rows[..i + 1][..i] == rows[..i];
  }

  /** The inner loop: one request's events, in order. */
  method VerifyEvents(events: seq<Row>, text: Row -> Text, sha: Digest)
    returns (invalid: nat, breaks: nat, issues: seq<Issue>)
    ensures breaks == Breaks(events, None)
    ensures invalid == Sum(events, Unsealed(text, sha))
    ensures |issues| == invalid + breaks
    ensures issues == IssuesOf(events, text, sha)
  {
    invalid, breaks, issues := 0, 0, [];
    var previousHash: Option<Text> := None;
    for i := 0 to |events|
      invariant previousHash == Expected(events, i) && |issues| == invalid + breaks
      invariant VerifiedUpTo(events, i, text, sha, invalid, breaks, issues)
    {
      var event := events[i];
      VerifiedStep(events, i, text, sha, invalid, breaks, issues);
      var prevHash := PrevHash(event);
      if prevHash != previousHash {
        breaks := breaks + 1;
        issues := issues + [PrevMismatch(event.request, event.id, previousHash, prevHash)];
      }
      var expectedHash := sha(text(event));
      if expectedHash != event.chain {
        invalid := invalid + 1;
        issues := issues + [ChainMismatch(event.request, event.id, expectedHash, event.chain)];
      }
      previousHash := Some(event.chain);
    }
    assert events[..|events|] == events;
  }

  /** The counters and the issues after the first i events. */
  ghost predicate VerifiedUpTo(events: seq<Row>, i: nat, text: Row -> Text, sha: Digest, invalid: nat, breaks: nat,
                               issues: seq<Issue>)
    requires i <= |events|
  {
    && breaks == Breaks(events[..i], None) && invalid == Sum(events[..i], Unsealed(text, sha))
    && issues == IssuesOf(events[..i], text, sha)
  }

  lemma VerifiedStep(events: seq<Row>, i: nat, text: Row -> Text, sha: Digest, invalid: nat, breaks: nat,
                     issues: seq<Issue>)
    requires i < |events| && VerifiedUpTo(events, i, text, sha, invalid, breaks, issues)
    ensures VerifiedUpTo(events, i + 1, text, sha, invalid + Unsealed(text, sha)(events[i]),
                         breaks + (if PrevHash(events[i]) != Expected(events, i) then 1 else 0),
                         issues + RowIssues(events[i], Expected(events, i), text, sha))
  {
    assert events[..i + 1] == events[..i] + [events[i]];
    assert Expected(events[..i], i) == Expected(events, i);
    BreaksSnoc(events[..i], events[i], None);
    SumSnoc(events[..i], events[i], Unsealed(text, sha));
    IssuesSnoc(events[..i], events[i], text, sha);
  }

  // ---------- The counters in terms of the rows ----------

  lemma {:induction false} BreaksSnoc(events: seq<Row>, r: Row, previous: Option<Text>)
    ensures Breaks(events + [r], previous) == Breaks(events, previous)
              + (if PrevHash(r) != (if events == [] then previous else Some(events[|events| - 1].chain)) then 1 else 0)
  {
    if events == [] {
      assert events + [r] == [r] && [r][1..] == [];
    } else {
      assert (events + [r])[1..] == events[1..] + [r];
      BreaksSnoc(events[1..], r, Some(events[0].chain));
    }
  }

  function RequestAt(rows: seq<Row>): nat -> Text {
    (i: nat) => if i < |rows| then rows[i].request else []
  }

  function BreakFlag(rows: seq<Row>): nat -> bool {
    (i: nat) => i < |rows| && BadLink(rows, i)
  }

  function BreaksUpTo(rows: seq<Row>): nat -> (Text -> nat) {
    (n: nat) => GroupBreaks(FirstRows(rows, n))
  }

  lemma BreaksStep(rows: seq<Row>, n: nat, k: Text)
    requires n < |rows|
    ensures Breaks(Events(rows[..n + 1], k), None)
         == Breaks(Events(rows[..n], k), None) + if k == rows[n].request && BadLink(rows, n) then 1 else 0
  {
    EventsSnoc(rows, n);
    LastHashIs(rows[..n], k);
    if k == rows[n].request {
      BreaksSnoc(Events(rows[..n], k), rows[n], None);
    }
  }

  lemma FirstRowsAre(rows: seq<Row>, n: nat)
    requires n <= |rows|
    ensures FirstRows(rows, n) == rows[..n]
  {
    assert rows[..|rows|] == rows;
  }

  lemma BreaksOneMore(rows: seq<Row>, n: nat)
    requires n < |rows|
    ensures RaisedAt(BreaksUpTo(rows)(n), BreaksUpTo(rows)(n + 1), rows[n].request, Ones(BreakFlag(rows))(n))
  {
    FirstRowsAre(rows, n);
    FirstRowsAre(rows, n + 1);
    var f, g, more := BreaksUpTo(rows)(n), BreaksUpTo(rows)(n + 1), Ones(BreakFlag(rows))(n);
    assert more == if BadLink(rows, n) then 1 else 0;
    forall k ensures g(k) == f(k) + if k == rows[n].request then more else 0 {
      BreaksStep(rows, n, k);
    }
    RaisedIs(f, g, rows[n].request, more);
  }

  lemma RaisedIs(f: Text -> nat, g: Text -> nat, key: Text, more: nat)
    requires forall k :: g(k) == f(k) + if k == key then more else 0
    ensures RaisedAt(f, g, key, more)
  {}

  lemma PositionsCover(rows: seq<Row>, order: seq<Text>)
    requires Covers(rows, |rows|, order, RequestOf())
    ensures Covers(Positions(|rows|), |rows|, order, RequestAt(rows))
  {
    forall i | 0 <= i < |rows| ensures RequestAt(rows)(Positions(|rows|)[i]) in order {
      assert RequestOf()(rows[i]) in order;
    }
  }

  /** The chain breaks, group by group, are the rows with a bad link. */
  lemma BreaksAre(rows: seq<Row>, order: seq<Text>)
    requires Distinct(order) && Covers(rows, |rows|, order, RequestOf())
    ensures Sum(order, GroupBreaks(rows)) == |Flagged(|rows|, BreakFlag(rows))|
  {
    var at, n := Positions(|rows|), |rows|;
    PositionsCover(rows, order);
    forall m: nat | m < n
      ensures RaisedAt(BreaksUpTo(rows)(m), BreaksUpTo(rows)(m + 1), RequestAt(rows)(at[m]),
                       Ones(BreakFlag(rows))(at[m]))
    {
      BreaksOneMore(rows, m);
    }
    forall k ensures BreaksUpTo(rows)(0)(k) == 0 { assert FirstRows(rows, 0) == []; }
    GroupedSum<nat, Text>(at, n, order, RequestAt(rows), Ones(BreakFlag(rows)), BreaksUpTo(rows));
    assert at[..n] == at && BreaksUpTo(rows)(n) == GroupBreaks(rows);
    SumOfFlags(n, BreakFlag(rows));
  }

  /** The rows with a wrong link, and those among the first n with a wrong hash. */
  ghost function BadLinks(rows: seq<Row>): set<nat> {
    set i: nat | i < |rows| && BadLink(rows, i)
  }

  ghost function BadSeals(rows: seq<Row>, n: nat, text: Row -> Text, sha: Digest): set<nat>
    requires n <= |rows|
  {
    set i: nat | i < n && BadSeal(rows[i], text, sha)
  }

  lemma BreaksAreLinks(rows: seq<Row>, order: seq<Text>)
    requires Distinct(order) && Covers(rows, |rows|, order, RequestOf())
    ensures Sum(order, GroupBreaks(rows)) == |BadLinks(rows)|
  {
    BreaksAre(rows, order);
    assert Flagged(|rows|, BreakFlag(rows)) == BadLinks(rows);
  }

  lemma BadSealsStep(rows: seq<Row>, n: nat, text: Row -> Text, sha: Digest)
    requires n < |rows|
    ensures |BadSeals(rows, n + 1, text, sha)|
         == |BadSeals(rows, n, text, sha)| + if BadSeal(rows[n], text, sha) then 1 else 0
  {
    if BadSeal(rows[n], text, sha) {
      assert BadSeals(rows, n + 1, text, sha) == BadSeals(rows, n, text, sha) + {n};
    } else {
      assert BadSeals(rows, n + 1, text, sha) == BadSeals(rows, n, text, sha);
    }
  }

  lemma {:induction false} UnsealedAre(rows: seq<Row>, text: Row -> Text, sha: Digest, n: nat)
    requires n <= |rows|
    ensures Sum(rows[..n], Unsealed(text, sha)) == |BadSeals(rows, n, text, sha)|
  {
    if n > 0 {
      UnsealedAre(rows, text, sha, n - 1);
      assert rows[..n] == rows[..n - 1] + [rows[n - 1]];
      SumSnoc(rows[..n - 1], rows[n - 1], Unsealed(text, sha));
      BadSealsStep(rows, n - 1, text, sha);
    }
  }

  /** The outer loop, over the groups in the Map's order. */
  method VerifyGroups(rows: seq<Row>, order: seq<Text>, byRequest: map<Text, seq<Row>>, text: Row -> Text, sha: Digest)
    returns (total: nat, invalid: nat, breaks: nat, issues: seq<Issue>)
    requires forall k :: k in order ==> k in byRequest && byRequest[k] == Events(rows, k)
    ensures Counted(rows, order, text, sha, total, invalid, breaks)
    ensures |issues| == invalid + breaks
    ensures issues == Concat(order, HistoryIssues(rows, text, sha))
  {
    total, invalid, breaks, issues := 0, 0, 0, [];
    for i := 0 to |order|
      invariant |issues| == invalid + breaks
      invariant Counted(rows, order[..i], text, sha, total, invalid, breaks)
      invariant issues == Concat(order[..i], HistoryIssues(rows, text, sha))
    {
      var events := byRequest[order[i]];
      var badSeals, badLinks, found := VerifyEvents(events, text, sha);
      OneGroupMore(rows, order, i, text, sha, total, invalid, breaks);
      GroupAdded(rows, order, i, text, sha, issues, found);
      total := total + |events|;
      invalid, breaks, issues := invalid + badSeals, breaks + badLinks, issues + found;
    }
    assert order[..|order|] == order;
  }

  lemma GroupAdded(rows: seq<Row>, order: seq<Text>, i: nat, text: Row -> Text, sha: Digest, issues: seq<Issue>,
                   found: seq<Issue>)
    requires i < |order| && issues == Concat(order[..i], HistoryIssues(rows, text, sha))
    requires found == IssuesOf(Events(rows, order[i]), text, sha)
    ensures issues + found == Concat(order[..i + 1], HistoryIssues(rows, text, sha))
  {
    assert order[..i + 1] == order[..i] + [order[i]];
    ConcatSnoc(order[..i], order[i], HistoryIssues(rows, text, sha));
  }

  /** The whole verification: every row is counted once, whatever its group; the table is
      ok exactly when the events of every request form an accepted chain. */
  method VerifyRows(rows: seq<Row>, text: Row -> Text, sha: Digest)
    returns (total: nat, invalid: nat, breaks: nat, ok: bool, issues: seq<Issue>)
    ensures total == |rows|
    ensures invalid == |BadSeals(rows, |rows|, text, sha)| && breaks == |BadLinks(rows)|
    ensures ok <==> AllAccepted(rows, text, sha)
    ensures ok <==> invalid == 0 && breaks == 0
    ensures |issues| == invalid + breaks
    ensures forall issue :: issue in issues <==> issue in TableIssues(rows, text, sha)
  {
    var order, byRequest := GroupByRequest(rows);
    total, invalid, breaks, issues := VerifyGroups(rows, order, byRequest, text, sha);
    ok := invalid == 0 && breaks == 0;
    CountersAre(rows, order, text, sha, total, invalid, breaks);
    GroupsListTable(rows, order, text, sha);
  }

  lemma CountersAre(rows: seq<Row>, order: seq<Text>, text: Row -> Text, sha: Digest, total: nat, invalid: nat,
                    breaks: nat)
    requires Distinct(order) && Covers(rows, |rows|, order, RequestOf())
    requires forall k :: k !in order ==> Events(rows, k) == []
    requires Counted(rows, order, text, sha, total, invalid, breaks)
    ensures total == |rows| && invalid == |BadSeals(rows, |rows|, text, sha)| && breaks == |BadLinks(rows)|
    ensures AllAccepted(rows, text, sha) <==> invalid == 0 && breaks == 0
  {
    assert invalid == |BadSeals(rows, |rows|, text, sha)| by { AllUnsealed(rows, order, text, sha); }
    assert breaks == |BadLinks(rows)| by { BreaksAreLinks(rows, order); }
    Conclude(rows, order, text, sha);
  }

  lemma AllUnsealed(rows: seq<Row>, order: seq<Text>, text: Row -> Text, sha: Digest)
    requires Distinct(order) && Covers(rows, |rows|, order, RequestOf())
    ensures Sum(order, GroupWeight(rows, Unsealed(text, sha))) == |BadSeals(rows, |rows|, text, sha)|
  {
    GroupsCoverRows(rows, order, Unsealed(text, sha));
    UnsealedAre(rows, text, sha, |rows|);
    assert rows[..|rows|] == rows;
  }

  /** The counters after the groups of `order`. */
  ghost predicate Counted(rows: seq<Row>, order: seq<Text>, text: Row -> Text, sha: Digest, total: nat, invalid: nat,
                          breaks: nat) {
    && total == Sum(order, GroupWeight(rows, Single()))
    && invalid == Sum(order, GroupWeight(rows, Unsealed(text, sha)))
    && breaks == Sum(order, GroupBreaks(rows))
  }

  lemma OneGroupMore(rows: seq<Row>, order: seq<Text>, i: nat, text: Row -> Text, sha: Digest, total: nat,
                     invalid: nat, breaks: nat)
    requires i < |order| && Counted(rows, order[..i], text, sha, total, invalid, breaks)
    ensures var events := Events(rows, order[i]);
            Counted(rows, order[..i + 1], text, sha, total + |events|,
                    invalid + Sum(events, Unsealed(text, sha)), breaks + Breaks(events, None))
  {
    assert order[..i + 1] == order[..i] + [order[i]];
    SumSnoc(order[..i], order[i], GroupWeight(rows, Single()));
    SumSnoc(order[..i], order[i], GroupWeight(rows, Unsealed(text, sha)));
    SumSnoc(order[..i], order[i], GroupBreaks(rows));
    SingleWeight(Events(rows, order[i]));
  }

  lemma Conclude(rows: seq<Row>, order: seq<Text>, text: Row -> Text, sha: Digest)
    requires Distinct(order) && Covers(rows, |rows|, order, RequestOf())
    requires forall k :: k !in order ==> Events(rows, k) == []
    ensures Sum(order, GroupWeight(rows, Single())) == |rows|
    ensures AllAccepted(rows, text, sha) <==>
              Sum(order, GroupWeight(rows, Unsealed(text, sha))) == 0 && Sum(order, GroupBreaks(rows)) == 0
  {
    GroupsCoverRows(rows, order, Single());
    SingleWeight(rows);
    AcceptedIff(rows, order, text, sha);
    EveryRequest(rows, order, text, sha);
  }

  /** A request without rows has the empty, accepted history. */
  lemma EveryRequest(rows: seq<Row>, order: seq<Text>, text: Row -> Text, sha: Digest)
    requires forall k :: k !in order ==> Events(rows, k) == []
    ensures AllAccepted(rows, text, sha) <==> forall k :: k in order ==> Accepted(Events(rows, k), text, sha)
  {}
}
