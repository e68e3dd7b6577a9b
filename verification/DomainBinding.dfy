/** The domain audit and the bind loop that acts on its report.  The name service is the
    chain state: one text record (type 16) per registered name.  Texts are as the audit
    reads them, without surrounding blanks. */
module DomainBinding {
  import opened Wrappers
  import opened Sorting

  /** A contract's domain and the address its record should hold; "" when unknown. */
  datatype Binding = Binding(domain: string, expected: string)

  datatype NnsStatus = NnsConfigMissing | NnsSkipped | NnsError | NnsMissing | NnsResolved

  datatype Status = Fine | ConfigMissing | ConfiguredUnverified | ChainError | ChainMissing | ChainMismatch

  datatype Record = Record(binding: Binding, nns: NnsStatus, resolved: string, status: Status)

  type Texts = map<string, string>

  // ---------- The audit ----------

  /** `classifyRecord` */
  function ClassifyRecord(b: Binding, nns: NnsStatus, resolved: string): Status {
    if b.domain == "" then ConfigMissing
    else if nns == NnsSkipped then ConfiguredUnverified
    else if nns == NnsError then ChainError
    else if resolved == "" then ChainMissing
    else if resolved != b.expected then ChainMismatch
    else Fine
  }

  /** `annotateResolvedMatch` */
  function AnnotateResolvedMatch(b: Binding, resolved: string): string {
    if resolved == "" then "" else if resolved == b.expected then "address" else ""
  }

  function Enrich(b: Binding, nns: NnsStatus, resolved: string): Record {
    var status := if AnnotateResolvedMatch(b, resolved) != "" then Fine else ClassifyRecord(b, nns, resolved);
    Record(b, nns, resolved, status)
  }

  /** `resolveDomain` on a reachable node; a name that is not registered faults. */
  function Resolve(domain: string, texts: Texts, registered: set<string>): (NnsStatus, string) {
    if domain == "" then (NnsConfigMissing, "")
    else if domain !in registered then (NnsError, "")
    else if domain in texts && texts[domain] != "" then (NnsResolved, texts[domain])
    else (NnsMissing, "")
  }

  function Audit(b: Binding, texts: Texts, registered: set<string>): Record {
    var (nns, resolved) := Resolve(b.domain, texts, registered);
    Enrich(b, nns, resolved)
  }

  /** With `--skip-rpc` */
  function AuditOffline(b: Binding): Record {
    Enrich(b, if b.domain != "" then NnsSkipped else NnsConfigMissing, "")
  }

  /** Nothing but a matching record on chain makes a binding fine, and offline nothing does. */
  lemma FineIffHeld(b: Binding, texts: Texts, registered: set<string>)
    ensures Audit(b, texts, registered).status == Fine <==> Holds(b, texts, registered)
    ensures AuditOffline(b).status == if b.domain == "" then ConfigMissing else ConfiguredUnverified
  {}

  predicate Holds(b: Binding, texts: Texts, registered: set<string>) {
    b.domain != "" && b.domain in registered && b.domain in texts && texts[b.domain] == b.expected != ""
  }

  /** The status by what the name service holds. */
  lemma StatusIs(b: Binding, texts: Texts, registered: set<string>)
    ensures var status := Audit(b, texts, registered).status;
            && (status == ConfigMissing <==> b.domain == "")
            && (status == ChainError <==> b.domain != "" && b.domain !in registered)
            && (status == ChainMissing <==>
                  b.domain in registered - {""} && (b.domain in texts ==> texts[b.domain] == ""))
            && (status == ChainMismatch <==>
                  b.domain in registered - {""} && b.domain in texts && texts[b.domain] !in {"", b.expected})
            && status != ConfiguredUnverified
  {}

  // ---------- Deduplication ----------

  /** The template text `domain|expected`. */
  function Key(r: Record): string {
    r.binding.domain + "|" + r.binding.expected
  }

  /** Addresses are base-58 text or empty: no bar inside. */
  predicate Plain(b: Binding) {
    '|' !in b.expected
  }

  lemma KeyInjective(r: Record, s: Record)
    requires Plain(r.binding) && Plain(s.binding)
    ensures Key(r) == Key(s) <==> r.binding == s.binding
  {
    if Key(r) == Key(s) {
      if |r.binding.expected| < |s.binding.expected| {
        BarPosition(r, s);
      } else if |s.binding.expected| < |r.binding.expected| {
        BarPosition(s, r);
      }
      var t, n := Key(r), |r.binding.domain|;
      assert n == |s.binding.domain|;
      assert t[..n] == r.binding.domain && t[..n] == s.binding.domain;
      assert t[n + 1..] == r.binding.expected && t[n + 1..] == s.binding.expected;
    }
  }

  /** The bar of the shorter address would lie inside the longer one. */
  lemma BarPosition(r: Record, s: Record)
    requires Key(r) == Key(s) && |r.binding.expected| < |s.binding.expected|
    ensures '|' in s.binding.expected
  {
    var n := |r.binding.domain|;
    assert Key(r)[n] == '|';
    var i := n - (|s.binding.domain| + 1);
    assert Key(s)[n] == s.binding.expected[i];
  }

  /** The records whose key did not come up before. */
  function FirstOfEach(records: seq<Record>): seq<Record> {
    if records == [] then []
    else
      var front, last := records[..|records| - 1], records[|records| - 1];
      if Key(last) in Keys(front) then FirstOfEach(front) else FirstOfEach(front) + [last]
  }

  function Keys(records: seq<Record>): set<string> {
    set r | r in records :: Key(r)
  }

  /** `dedupeDomainBindings` and `dedupeActionable` */
  method Dedupe(records: seq<Record>) returns (out: seq<Record>)
    ensures out == FirstOfEach(records)
  {
    var seen: set<string> := {};
    out := [];
    for i := 0 to |records|
      invariant seen == Keys(records[..i]) && out == FirstOfEach(records[..i])
    {
      var record := records[i];
      assert records[..i + 1][..i] == records[..i];
      assert Keys(records[..i + 1]) == Keys(records[..i]) + {Key(record)} by {
        KeysSnoc(records[..i], record);
        assert records[..i + 1] == records[..i] + [record];
      }
      if Key(record) in seen {
        assert seen + {Key(record)} == seen;
        continue;
      }
      seen := seen + {Key(record)};
      out := out + [record];
    }
    assert records[..|records|] == records;
  }

  lemma KeysSnoc(records: seq<Record>, last: Record)
    ensures Keys(records + [last]) == Keys(records) + {Key(last)}
  {
    forall k ensures k in Keys(records + [last]) <==> k in Keys(records) || k == Key(last) {
      if k in Keys(records) {
        var r :| r in records && Key(r) == k;
        assert r in records + [last];
      }
      if k == Key(last) {
        assert last in records + [last];
      }
    }
  }

  /** The kept records come from the list, cover every key, and have distinct keys. */
  lemma {:induction false} FirstOfEachIs(records: seq<Record>)
    ensures forall r :: r in FirstOfEach(records) ==> r in records
    ensures Keys(FirstOfEach(records)) == Keys(records)
    ensures DistinctKeys(FirstOfEach(records))
  {
    if records != [] {
      var front, last := records[..|records| - 1], records[|records| - 1];
      FirstOfEachIs(front);
      assert records == front + [last];
      KeysSnoc(front, last);
      KeysSnoc(FirstOfEach(front), last);
      if Key(last) !in Keys(front) {
        forall r | r in FirstOfEach(front) ensures Key(r) != Key(last) {
          assert Key(r) in Keys(FirstOfEach(front));
        }
      } else {
        assert Keys(front) + {Key(last)} == Keys(front);
      }
    }
  }

  ghost predicate DistinctKeys(records: seq<Record>) {
    forall i, j :: 0 <= i < j < |records| ==> Key(records[i]) != Key(records[j])
  }

  // ---------- The actionable list ----------

  predicate IsActionable(r: Record) {
    r.status != Fine && r.status != ConfiguredUnverified
  }

  predicate Complete(b: Binding) {
    b.domain != "" && b.expected != ""
  }

  predicate CanAct(r: Record) {
    Complete(r.binding)
  }

  function Select(records: seq<Record>, keep: Record -> bool): (out: seq<Record>)
    ensures forall r :: r in out <==> r in records && keep(r)
  {
    if records == [] then []
    else
      var rest := Select(records[..|records| - 1], keep);
      var last := records[|records| - 1];
      assert records == records[..|records| - 1] + [last];
      if keep(last) then rest + [last] else rest
  }

  /** `sort` by the collation rank of the domain. */
  function SortByDomain(records: seq<Record>, rank: string -> real): (out: seq<Record>)
    ensures forall r :: r in out <==> r in records
  {
    var byDomain := (r: Record) => rank(r.binding.domain);
    assert forall r {:trigger r in records} :: r in Sort(records, byDomain) <==> r in records by {
      forall r ensures r in Sort(records, byDomain) <==> r in records { SortKeeps(records, byDomain, r); }
    }
    Sort(records, byDomain)
  }

  lemma SortedByDomain(records: seq<Record>, rank: string -> real, i: nat, j: nat)
    requires i < j < |SortByDomain(records, rank)|
    ensures rank(SortByDomain(records, rank)[i].binding.domain) <= rank(SortByDomain(records, rank)[j].binding.domain)
  {
    var byDomain := (r: Record) => rank(r.binding.domain);
    SortSorts(records, byDomain);
    assert SortedBy(Sort(records, byDomain), byDomain);
    assert byDomain(Sort(records, byDomain)[i]) <= byDomain(Sort(records, byDomain)[j]);
  }

  function AuditAll(bindings: seq<Binding>, texts: Texts, registered: set<string>): (out: seq<Record>)
    ensures |out| == |bindings| && forall i :: 0 <= i < |out| ==> out[i] == Audit(bindings[i], texts, registered)
  {
    seq(|bindings|, i requires 0 <= i < |bindings| => Audit(bindings[i], texts, registered))
  }

  /** The `actionable` list of a report. */
  function Actionable(records: seq<Record>): seq<Record> {
    Select(FirstOfEach(records), r => IsActionable(r))
  }

  /** What the bind script reads of a report; one without an actionable list is older. */
  datatype Report = Report(records: seq<Record>, actionable: Option<seq<Record>>)

  function ReportOf(records: seq<Record>): Report {
    Report(records, Some(Actionable(records)))
  }

  predicate MissingOrMismatched(r: Record) {
    r.status == ChainMissing || r.status == ChainMismatch
  }

  function ReportedActions(report: Report): seq<Record> {
    match report.actionable
    case Some(actionable) => actionable
    case None => Select(report.records, r => MissingOrMismatched(r))
  }

  /** `loadActionable` */
  function LoadActionable(report: Report, rank: string -> real): seq<Record> {
    SortByDomain(Select(FirstOfEach(ReportedActions(report)), r => CanAct(r)), rank)
  }

  ghost predicate AllPlain(bindings: seq<Binding>) {
    forall b :: b in bindings ==> Plain(b)
  }

  /** Deduplication drops no binding: a binding is in the list exactly when it is not fine. */
  lemma ActionableIff(bindings: seq<Binding>, texts: Texts, registered: set<string>, b: Binding)
    requires AllPlain(bindings) && b in bindings
    ensures Audit(b, texts, registered) in Actionable(AuditAll(bindings, texts, registered)) <==>
              !Holds(b, texts, registered)
  {
    var all, r := AuditAll(bindings, texts, registered), Audit(b, texts, registered);
    FineIffHeld(b, texts, registered);
    assert r in all by {
      var i :| 0 <= i < |bindings| && bindings[i] == b;
      assert all[i] == r;
    }
    KeptIfAudited(bindings, texts, registered, b, all);
  }

  lemma KeptIfAudited(bindings: seq<Binding>, texts: Texts, registered: set<string>, b: Binding, records: seq<Record>)
    requires AllPlain(bindings) && b in bindings && Audit(b, texts, registered) in records
    requires forall r :: r in records ==> r.binding in bindings && r == Audit(r.binding, texts, registered)
    ensures Audit(b, texts, registered) in FirstOfEach(records)
  {
    var r := Audit(b, texts, registered);
    FirstOfEachIs(records);
    assert Key(r) in Keys(FirstOfEach(records));
    var s :| s in FirstOfEach(records) && Key(s) == Key(r);
    KeyInjective(r, s);
  }

  lemma LoadedIff(bindings: seq<Binding>, texts: Texts, registered: set<string>, rank: string -> real)
    requires AllPlain(bindings)
    ensures var actions := LoadActionable(ReportOf(AuditAll(bindings, texts, registered)), rank);
            && (forall a :: a in actions ==> a.binding in bindings && CanAct(a) && !Holds(a.binding, texts, registered))
            && (forall b :: b in bindings && Complete(b) && !Holds(b, texts, registered) ==>
                  Audit(b, texts, registered) in actions)
  {
    var all := AuditAll(bindings, texts, registered);
    FirstOfEachIs(all);
    forall r | r in Actionable(all) ensures r in all {}
    forall b | b in bindings && !Holds(b, texts, registered) ensures Audit(b, texts, registered) in Actionable(all) {
      ActionableIff(bindings, texts, registered, b);
    }
    LoadedFrom(bindings, texts, registered, Actionable(all), rank);
  }

  /** An older report's list: the bindings of registered names only. */
  lemma LoadedFromRecordsIff(bindings: seq<Binding>, texts: Texts, registered: set<string>, rank: string -> real)
    requires AllPlain(bindings)
    ensures var actions := LoadActionable(Report(AuditAll(bindings, texts, registered), None), rank);
            && (forall a :: a in actions ==>
                  && a.binding in bindings && CanAct(a)
                  && !Holds(a.binding, texts, registered) && a.binding.domain in registered)
            && (forall b :: b in bindings && b.domain in registered && Complete(b) && !Holds(b, texts, registered) ==>
                  Audit(b, texts, registered) in actions)
  {
    var all := AuditAll(bindings, texts, registered);
    var report := ReportedActions(Report(all, None));
    forall r | r in report ensures r in all && !Holds(r.binding, texts, registered) && r.binding.domain in registered {
      assert r == Audit(r.binding, texts, registered);
    }
    forall b | b in bindings && b.domain in registered && b.domain != "" && !Holds(b, texts, registered)
      ensures Audit(b, texts, registered) in report
    {
      var i :| 0 <= i < |bindings| && bindings[i] == b;
      assert all[i] == Audit(b, texts, registered);
    }
    LoadedFrom(bindings, texts, registered, report, rank);
  }

  /** Deduplicating, filtering and sorting a list of audited records loses none to act on. */
  lemma LoadedFrom(bindings: seq<Binding>, texts: Texts, registered: set<string>, report: seq<Record>,
                   rank: string -> real)
    requires AllPlain(bindings) && forall r :: r in report ==> r in AuditAll(bindings, texts, registered)
    ensures var actions := SortByDomain(Select(FirstOfEach(report), r => CanAct(r)), rank);
            && (forall a :: a in actions ==>
                  a in report && CanAct(a) && a.binding in bindings && a == Audit(a.binding, texts, registered))
            && (forall b :: b in bindings && Complete(b) && Audit(b, texts, registered) in report ==>
                  Audit(b, texts, registered) in actions)
  {
    FirstOfEachIs(report);
    forall b | b in bindings && Audit(b, texts, registered) in report
      ensures Audit(b, texts, registered) in FirstOfEach(report)
    {
      KeptIfAudited(bindings, texts, registered, b, report);
    }
  }

  // ---------- Binding ----------

  /** What a pass in which every simulation halts and every transaction lands leaves. */
  function Written(texts: Texts, actions: seq<Record>, writable: set<string>): Texts {
    if actions == [] then texts
    else
      var last, before := actions[|actions| - 1].binding, Written(texts, actions[..|actions| - 1], writable);
      if last.domain in writable then before[last.domain := last.expected] else before
  }

  /** A name that the actions agree on ends with that text; a name without an action keeps
      its own. */
  lemma {:induction false} WrittenValue(texts: Texts, actions: seq<Record>, writable: set<string>, domain: string,
                                        text: string)
    requires forall a :: a in actions && a.binding.domain == domain ==> a.binding.expected == text
    ensures var after := Written(texts, actions, writable);
            if domain in writable && exists a :: a in actions && a.binding.domain == domain
            then domain in after && after[domain] == text
            else (domain in after <==> domain in texts) && (domain in texts ==> after[domain] == texts[domain])
  {
    if actions != [] {
      var front, last := actions[..|actions| - 1], actions[|actions| - 1];
      WrittenValue(texts, front, writable, domain, text);
      assert actions == front + [last];
    }
  }

  datatype RowStatus = BlockedSimulationFault | DryRunReady | Submitted | RowError

  class NameService {
    var texts: Texts
    /** names with an owner, and those of them the signer may write */
    const registered: set<string>
    const writable: set<string>

    ghost predicate Valid()
      reads this
    {
      writable <= registered
    }

    /** The send, with its fee probe: it may fail, and a sent transaction may not land. */
    method SetRecord(b: Binding, quiet: bool) returns (sent: bool)
      requires b.domain in writable
      modifies this`texts
      ensures texts == old(texts)[b.domain := b.expected] || (!quiet && texts == old(texts))
      ensures quiet ==> sent
    {
      var landed, answered := *, *;
      sent := answered || quiet;
      if landed || quiet {
        texts := texts[b.domain := b.expected];
      }
    }

    /** One row: simulate, and on HALT send if asked to. */
    method BindRow(r: Record, execute: bool, quiet: bool) returns (status: RowStatus)
      modifies this`texts
      ensures texts != old(texts) ==>
                execute && r.binding.domain in writable && texts == old(texts)[r.binding.domain := r.binding.expected]
      ensures status == Submitted ==> execute && r.binding.domain in writable
      ensures status == BlockedSimulationFault ==> r.binding.domain !in writable
      ensures quiet ==>
                status == if r.binding.domain !in writable then BlockedSimulationFault
                          else if execute then Submitted else DryRunReady
      ensures quiet && execute && r.binding.domain in writable ==>
                texts == old(texts)[r.binding.domain := r.binding.expected]
    {
      var answered := *;
      if !answered && !quiet {
        return RowError;
      }
      if r.binding.domain !in writable {
        return BlockedSimulationFault;
      }
      if !execute {
        return DryRunReady;
      }
      var sent := SetRecord(r.binding, quiet);
      status := if sent then Submitted else RowError;
    }

    /** The loop over the actions. */
    method Bind(actions: seq<Record>, execute: bool, quiet: bool) returns (rows: seq<RowStatus>)
      modifies this`texts
      ensures |rows| == |actions|
      ensures !execute ==> texts == old(texts) && Submitted !in rows
      ensures forall d :: TextOf(texts, d) != TextOf(old(texts), d) ==> Asked(actions, d, TextOf(texts, d))
      ensures quiet && execute ==> texts == Written(old(texts), actions, writable)
      ensures quiet ==> forall i :: 0 <= i < |rows| ==>
                (rows[i] == BlockedSimulationFault <==> actions[i].binding.domain !in writable)
    {
      rows := [];
      ghost var start := texts;
      for i := 0 to |actions|
        invariant |rows| == i
        invariant !execute ==> texts == start && Submitted !in rows
        invariant forall d :: TextOf(texts, d) != TextOf(start, d) ==> Asked(actions[..i], d, TextOf(texts, d))
        invariant quiet && execute ==> texts == Written(start, actions[..i], writable)
        invariant quiet ==> forall j :: 0 <= j < i ==>
                    (rows[j] == BlockedSimulationFault <==> actions[j].binding.domain !in writable)
      {
        ghost var before := texts;
        var status := BindRow(actions[i], execute, quiet);
        rows := rows + [status];
        assert actions[..i + 1] == actions[..i] + [actions[i]];
        assert actions[..i + 1][..i] == actions[..i];
        AskedGrows(actions[..i], actions[i], start, before, texts);
      }
      assert actions[..|actions|] == actions;
    }
  }

  function TextOf(texts: Texts, domain: string): string {
    if domain in texts then texts[domain] else ""
  }

  ghost predicate Asked(actions: seq<Record>, domain: string, text: string) {
    exists a :: a in actions && a.binding == Binding(domain, text)
  }

  lemma AskedGrows(actions: seq<Record>, last: Record, start: Texts, before: Texts, after: Texts)
    requires forall d :: TextOf(before, d) != TextOf(start, d) ==> Asked(actions, d, TextOf(before, d))
    requires after == before || after == before[last.binding.domain := last.binding.expected]
    ensures forall d :: TextOf(after, d) != TextOf(start, d) ==> Asked(actions + [last], d, TextOf(after, d))
  {
    forall d | TextOf(after, d) != TextOf(start, d) ensures Asked(actions + [last], d, TextOf(after, d)) {
      if TextOf(after, d) == TextOf(before, d) {
        var a :| a in actions && a.binding == Binding(d, TextOf(before, d));
        assert a in actions + [last];
      } else {
        assert last in actions + [last] && last.binding == Binding(d, TextOf(after, d));
      }
    }
  }

  // ---------- One pass ----------

  /** No domain is required at two addresses, and none without an address. */
  ghost predicate Bindable(bindings: seq<Binding>) {
    forall b, c :: b in bindings && c in bindings && b.domain == c.domain != "" ==> b.expected == c.expected != ""
  }

  /** A fresh audit lists no actionable record that has a domain. */
  ghost predicate Clean(bindings: seq<Binding>, texts: Texts, registered: set<string>) {
    forall r :: r in Actionable(AuditAll(bindings, texts, registered)) ==> r.binding.domain == ""
  }

  lemma CleanIffHeld(bindings: seq<Binding>, texts: Texts, registered: set<string>)
    requires AllPlain(bindings)
    ensures Clean(bindings, texts, registered) <==>
              forall b :: b in bindings && b.domain != "" ==> Holds(b, texts, registered)
  {
    var all := AuditAll(bindings, texts, registered);
    FirstOfEachIs(all);
    forall b | b in bindings
      ensures Audit(b, texts, registered) in Actionable(all) <==> !Holds(b, texts, registered)
    {
      ActionableIff(bindings, texts, registered, b);
    }
    forall r | r in Actionable(all) ensures r.binding in bindings && r == Audit(r.binding, texts, registered) {
      assert r in all;
    }
  }

  /** With a conflicting pair, or a domain without an address, no state of the name service
      is clean. */
  lemma CleanNeedsBindable(bindings: seq<Binding>, texts: Texts, registered: set<string>)
    requires AllPlain(bindings) && Clean(bindings, texts, registered)
    ensures Bindable(bindings)
  {
    CleanIffHeld(bindings, texts, registered);
  }

  /** Every binding that the chain does not hold is for a name that the signer may write. */
  ghost predicate UnheldWritable(bindings: seq<Binding>, texts: Texts, registered: set<string>, writable: set<string>) {
    forall b :: b in bindings && b.domain != "" && !Holds(b, texts, registered) ==> b.domain in writable
  }

  /** One full pass from any records leaves a clean audit exactly when the bindings do not
      contradict each other and the signer may write the names whose records are wrong. */
  lemma OnePassCleansIff(bindings: seq<Binding>, texts: Texts, registered: set<string>, writable: set<string>,
                         rank: string -> real)
    requires AllPlain(bindings) && writable <= registered
    ensures var actions := LoadActionable(ReportOf(AuditAll(bindings, texts, registered)), rank);
            Clean(bindings, Written(texts, actions, writable), registered)
            <==> Bindable(bindings) && UnheldWritable(bindings, texts, registered, writable)
  {
    var actions := LoadActionable(ReportOf(AuditAll(bindings, texts, registered)), rank);
    var after := Written(texts, actions, writable);
    CleanIffHeld(bindings, after, registered);
    if Bindable(bindings) {
      LoadedIff(bindings, texts, registered, rank);
      forall b | b in bindings && b.domain != ""
        ensures Holds(b, after, registered) <==> Holds(b, texts, registered) || b.domain in writable
      {
        WrittenValue(texts, actions, writable, b.domain, b.expected);
        if !Holds(b, texts, registered) {
          assert Audit(b, texts, registered) in actions;
        }
      }
    } else if Clean(bindings, after, registered) {
      CleanNeedsBindable(bindings, after, registered);
    }
  }

  /** Audit, bind everything, audit again. */
  method AuditAndBind(ns: NameService, bindings: seq<Binding>, rank: string -> real) returns (left: seq<Record>)
    requires ns.Valid() && AllPlain(bindings)
    modifies ns`texts
    ensures (forall r :: r in left ==> r.binding.domain == "")
            <==> Bindable(bindings) && UnheldWritable(bindings, old(ns.texts), ns.registered, ns.writable)
  {
    var unique := Dedupe(AuditAll(bindings, ns.texts, ns.registered));
    var report := Select(unique, r => IsActionable(r));
    unique := Dedupe(report);
    var actions := SortByDomain(Select(unique, r => CanAct(r)), rank);
    assert actions == LoadActionable(ReportOf(AuditAll(bindings, ns.texts, ns.registered)), rank);
    OnePassCleansIff(bindings, ns.texts, ns.registered, ns.writable, rank);
    var rows := ns.Bind(actions, true, true);
    unique := Dedupe(AuditAll(bindings, ns.texts, ns.registered));
    left := Select(unique, r => IsActionable(r));
  }
}
