/** The 24-hour timelocked registry update: the registry's pending slot, the clock, the
    transactions in flight and the tool that sends them, as one state machine.

    Assumed of the registry: `scheduleUpdate` overwrites the slot and restarts the clock,
    `update` succeeds only on the pinned artifact after maturity and clears the slot,
    `cancelUpdate` clears it.  Nobody but this tool's operator writes. */
module UpdateTimelock {
  import opened Wrappers
  import opened ByteStrings

  type Digest = Bytes -> Bytes

  const TIMELOCK_MS := 86_400_000

  datatype Artifact = Artifact(nef: Bytes, manifest: Bytes)

  /** `ruUpdateDigest`: one hash over the two files' bytes back to back. */
  function UpdateDigest(a: Artifact, sha: Digest): Bytes {
    sha(a.nef + a.manifest)
  }

  /** Without a hash collision the digest pins the concatenation of the files, and so the
      pair exactly when the two NEFs have the same length. */
  lemma DigestPinsConcatenation(a: Artifact, b: Artifact, sha: Digest)
    requires sha(a.nef + a.manifest) == sha(b.nef + b.manifest) ==> a.nef + a.manifest == b.nef + b.manifest
    ensures UpdateDigest(a, sha) == UpdateDigest(b, sha) <==> a.nef + a.manifest == b.nef + b.manifest
    ensures UpdateDigest(a, sha) == UpdateDigest(b, sha) ==> (a == b <==> |a.nef| == |b.nef|)
  {
    if a.nef + a.manifest == b.nef + b.manifest && |a.nef| == |b.nef| {
      assert a.nef == (a.nef + a.manifest)[..|a.nef|] == b.nef;
      assert a.manifest == (a.nef + a.manifest)[|a.nef|..] == b.manifest;
    }
  }

  /** Moving the boundary between the files keeps the digest. */
  lemma BoundaryIsNotPinned(nef: Bytes, x: Byte, manifest: Bytes, sha: Digest)
    ensures UpdateDigest(Artifact(nef + [x], manifest), sha) == UpdateDigest(Artifact(nef, [x] + manifest), sha)
  {
    assert (nef + [x]) + manifest == nef + ([x] + manifest);
  }

  // ---------- The registry ----------

  datatype Pending = Pending(digest: Bytes, matureAt: int)

  datatype Event = Scheduled(digest: Bytes, at: int) | Executed(digest: Bytes, at: int) | Cancelled(at: int)

  datatype Tx = ScheduleTx(a: Artifact) | UpdateTx(a: Artifact) | CancelTx

  /** The slot, the clock (ms), the transactions sent but not yet in a block, and every
      change of the slot so far. */
  datatype World = World(slot: Option<Pending>, now: int, inFlight: seq<Tx>, log: seq<Event>)

  datatype Fault = NoUpgradeScheduled | TimelockActive | DataMismatch

  /** What invoking `update` with an artifact would do now.  Whether the registry looks at
      the clock or at the digest first is not known; both are covered. */
  function ProbeUpdate(w: World, a: Artifact, clockFirst: bool, sha: Digest): Option<Fault> {
    match w.slot
    case None => Some(NoUpgradeScheduled)
    case Some(p) =>
      var locked, mismatch := w.now < p.matureAt, p.digest != UpdateDigest(a, sha);
      if locked && (clockFirst || !mismatch) then Some(TimelockActive)
      else if mismatch then Some(DataMismatch)
      else None
  }

  /** A transaction lands in a block. */
  function Land(w: World, tx: Tx, sha: Digest): World {
    match tx
    case ScheduleTx(a) =>
      var d := UpdateDigest(a, sha);
      w.(slot := Some(Pending(d, w.now + TIMELOCK_MS)), log := w.log + [Scheduled(d, w.now)])
    case UpdateTx(a) =>
      if ProbeUpdate(w, a, true, sha) == None
      then w.(slot := None, log := w.log + [Executed(UpdateDigest(a, sha), w.now)])
      else w
    case CancelTx => w.(slot := None, log := w.log + [Cancelled(w.now)])
  }

  // ---------- The tool ----------

  datatype Action = Status | Schedule | Execute | Cancel

  datatype ProbeStatus = Matured | NoneScheduled | PendingStatus | Conflict | Unknown

  function Lower(s: string): string {
    seq(|s|, i requires 0 <= i < |s| => if 'A' <= s[i] <= 'Z' then (s[i] as int + 32) as char else s[i])
  }

  predicate Space(c: char) { c in {' ', '\t', '\n', '\r'} }

  function TrimLeft(s: string): string {
    if s != [] && Space(s[0]) then TrimLeft(s[1..]) else s
  }

  function TrimRight(s: string): string {
    if s != [] && Space(s[|s| - 1]) then TrimRight(s[..|s| - 1]) else s
  }

  function Trim(s: string): string { TrimRight(TrimLeft(s)) }

  predicate Contains(s: string, t: string) {
    exists i :: 0 <= i <= |s| - |t| && OccursAt(s, t, i)
  }

  predicate OccursAt(s: string, t: string, i: int) {
    0 <= i <= |s| - |t| && s[i..i + |t|] == t
  }

  /** `ruClassifyUpdateProbe(state, exception)` */
  function ClassifyUpdateProbe(state: string, exception: string): ProbeStatus {
    if Lower(Trim(state)) == "halt" then Matured else
    var fault := Lower(Trim(exception));
    if Contains(fault, "no upgrade scheduled") then NoneScheduled
    else if Contains(fault, "timelock active") then PendingStatus
    else if Contains(fault, "upgrade data mismatch") then Conflict
    else Unknown
  }

  function Message(f: Fault): string {
    match f
    case NoUpgradeScheduled => "no upgrade scheduled"
    case TimelockActive => "timelock active"
    case DataMismatch => "upgrade data mismatch"
  }

  /** `explain` renders a fault as the node's exception text: around the registry's own
      message, and without another of its messages. */
  ghost predicate Explains(explain: Fault -> string) {
    forall f, g: Fault :: Contains(Lower(Trim(explain(f))), Message(g)) <==> f == g
  }

  function ProbeStatusOf(w: World, a: Artifact, clockFirst: bool, explain: Fault -> string, sha: Digest): ProbeStatus {
    match ProbeUpdate(w, a, clockFirst, sha)
    case None => ClassifyUpdateProbe("HALT", "")
    case Some(f) => ClassifyUpdateProbe("FAULT", explain(f))
  }

  /** The text classification recovers the registry's state: "none" exactly on an empty
      slot, "matured" exactly when an update would succeed, never "unknown". */
  lemma ClassificationIsExact(w: World, a: Artifact, clockFirst: bool, explain: Fault -> string, sha: Digest)
    requires Explains(explain)
    ensures var s := ProbeStatusOf(w, a, clockFirst, explain, sha);
            && s != Unknown
            && (s == NoneScheduled <==> w.slot == None)
            && (s == Matured <==>
                  w.slot.Some? && w.slot.value.digest == UpdateDigest(a, sha) && w.now >= w.slot.value.matureAt)
            && (s == PendingStatus <==>
                  && w.slot.Some? && w.now < w.slot.value.matureAt
                  && (clockFirst || w.slot.value.digest == UpdateDigest(a, sha)))
            && (s == Conflict ==> w.slot.Some? && w.slot.value.digest != UpdateDigest(a, sha))
  {
    HaltText();
    match ProbeUpdate(w, a, clockFirst, sha)
    case None =>
    case Some(f) =>
      assert Contains(Lower(Trim(explain(f))), Message(NoUpgradeScheduled)) <==> f == NoUpgradeScheduled;
      assert Contains(Lower(Trim(explain(f))), Message(TimelockActive)) <==> f == TimelockActive;
      assert Contains(Lower(Trim(explain(f))), Message(DataMismatch)) <==> f == DataMismatch;
  }

  lemma HaltText()
    ensures Lower(Trim("HALT")) == "halt" && Lower(Trim("FAULT")) != "halt"
  {
    assert |Lower(Trim("FAULT"))| == 5;
  }

  /** "pending" means a matching update is pending, as the tool reports, exactly when the
      registry compares digests before it looks at the clock. */
  lemma PendingMeansMatchingIffDigestFirst(clockFirst: bool, explain: Fault -> string, sha: Digest, a: Artifact,
                                           other: Bytes)
    requires Explains(explain) && other != UpdateDigest(a, sha)
    ensures (forall w :: ProbeStatusOf(w, a, clockFirst, explain, sha) == PendingStatus ==>
                           w.slot.Some? && w.slot.value.digest == UpdateDigest(a, sha))
        <==> !clockFirst
  {
    if clockFirst {
      var w := World(Some(Pending(other, 1)), 0, [], []);
      ClassificationIsExact(w, a, clockFirst, explain, sha);
      assert ProbeUpdate(w, a, clockFirst, sha) == Some(TimelockActive);
      assert Contains(Lower(Trim(explain(TimelockActive))), Message(TimelockActive));
      assert !Contains(Lower(Trim(explain(TimelockActive))), Message(NoUpgradeScheduled));
      HaltText();
      assert ProbeStatusOf(w, a, clockFirst, explain, sha) == PendingStatus;
    } else {
      forall w | ProbeStatusOf(w, a, clockFirst, explain, sha) == PendingStatus
        ensures w.slot.Some? && w.slot.value.digest == UpdateDigest(a, sha)
      {
        ClassificationIsExact(w, a, clockFirst, explain, sha);
        HaltText();
        assert w.slot.value.digest != UpdateDigest(a, sha) ==> ProbeUpdate(w, a, clockFirst, sha) == Some(DataMismatch);
        assert Contains(Lower(Trim(explain(DataMismatch))), Message(TimelockActive)) <==> false;
      }
    }
  }

  // ---------- Runs of the tool, the network and the clock ----------

  datatype Step =
    | Tick(ms: nat)
    | Run(action: Action, a: Artifact, dryRun: bool, clockFirst: bool)
    | Confirm(i: nat)  // the i-th transaction in flight lands
    | Expire(i: nat)   // it never does

  /** The transaction one invocation of the tool sends, if any: status and dry runs send
      nothing, schedule sends only when the probe says that nothing is scheduled. */
  ghost function Sends(w: World, action: Action, a: Artifact, dryRun: bool, clockFirst: bool, explain: Fault -> string,
                       sha: Digest): Option<Tx> {
    if dryRun then None
    else match action
      case Status => None
      case Cancel => Some(CancelTx)
      case Execute => Some(UpdateTx(a))
      case Schedule =>
        if ProbeStatusOf(w, a, clockFirst, explain, sha) == NoneScheduled then Some(ScheduleTx(a)) else None
  }

  ghost function Next(w: World, step: Step, explain: Fault -> string, sha: Digest): World {
    match step
    case Tick(ms) => w.(now := w.now + ms)
    case Run(action, a, dryRun, clockFirst) =>
      (match Sends(w, action, a, dryRun, clockFirst, explain, sha)
       case None => w
       case Some(tx) => w.(inFlight := w.inFlight + [tx]))
    case Confirm(i) =>
      if i < |w.inFlight| then Land(w.(inFlight := w.inFlight[..i] + w.inFlight[i + 1..]), w.inFlight[i], sha) else w
    case Expire(i) =>
      if i < |w.inFlight| then w.(inFlight := w.inFlight[..i] + w.inFlight[i + 1..]) else w
  }

  ghost function After(w: World, steps: seq<Step>, explain: Fault -> string, sha: Digest): World {
    if steps == [] then w
    else Next(After(w, steps[..|steps| - 1], explain, sha), steps[|steps| - 1], explain, sha)
  }

  /** The slot is what the last change made it. */
  ghost predicate SlotFromLog(w: World) {
    w.slot == if w.log != [] && w.log[|w.log| - 1].Scheduled?
              then Some(Pending(w.log[|w.log| - 1].digest, w.log[|w.log| - 1].at + TIMELOCK_MS))
              else None
  }

  /** An execution directly follows the scheduling of the same digest, a day or more later. */
  ghost predicate ExecutedAfterADay(log: seq<Event>) {
    forall i :: 0 <= i < |log| && log[i].Executed? ==>
      i > 0 && log[i - 1].Scheduled? && log[i - 1].digest == log[i].digest
      && log[i].at - log[i - 1].at >= 24 * 60 * 60 * 1000
  }

  lemma LandKeepsTimelock(w: World, tx: Tx, sha: Digest)
    requires SlotFromLog(w) && ExecutedAfterADay(w.log)
    ensures var v := Land(w, tx, sha);
            SlotFromLog(v) && ExecutedAfterADay(v.log) && w.log <= v.log && w.now <= v.now
  {}

  lemma NextKeepsTimelock(w: World, step: Step, explain: Fault -> string, sha: Digest)
    requires SlotFromLog(w) && ExecutedAfterADay(w.log)
    ensures var v := Next(w, step, explain, sha);
            SlotFromLog(v) && ExecutedAfterADay(v.log) && w.log <= v.log && w.now <= v.now
  {
    if step.Confirm? && step.i < |w.inFlight| {
      var rest := w.(inFlight := w.inFlight[..step.i] + w.inFlight[step.i + 1..]);
      LandKeepsTimelock(rest, w.inFlight[step.i], sha);
    }
  }

  /** In every run, with any transactions in flight, landing or expiring in any order:
      every executed digest was scheduled at least 24 hours earlier, and nothing happened
      to the slot in between. */
  lemma {:induction false} TimelockHolds(w: World, steps: seq<Step>, explain: Fault -> string, sha: Digest)
    requires SlotFromLog(w) && ExecutedAfterADay(w.log)
    ensures var v := After(w, steps, explain, sha); SlotFromLog(v) && ExecutedAfterADay(v.log)
  {
    if steps != [] {
      TimelockHolds(w, steps[..|steps| - 1], explain, sha);
      NextKeepsTimelock(After(w, steps[..|steps| - 1], explain, sha), steps[|steps| - 1], explain, sha);
    }
  }

  // ---------- Scheduling never restarts a clock that is running ----------

  predicate ScheduleInFlight(w: World) {
    exists i :: 0 <= i < |w.inFlight| && w.inFlight[i].ScheduleTx?
  }

  /** The operator does not run `schedule` for real while an earlier one is unconfirmed. */
  ghost predicate Patient(w: World, step: Step) {
    step.Run? && step.action == Schedule && !step.dryRun ==> !ScheduleInFlight(w)
  }

  ghost predicate PatientRun(w: World, steps: seq<Step>, explain: Fault -> string, sha: Digest) {
    steps == [] ||
    (PatientRun(w, steps[..|steps| - 1], explain, sha)
     && Patient(After(w, steps[..|steps| - 1], explain, sha), steps[|steps| - 1]))
  }

  /** No scheduling replaced a pending update: its digest and its maturity stand until it is
      executed or cancelled. */
  ghost predicate NeverOverwritten(log: seq<Event>) {
    forall i :: 0 < i < |log| && log[i].Scheduled? ==> !log[i - 1].Scheduled?
  }

  /** At most one `scheduleUpdate` is in flight, and only while the slot is empty. */
  ghost predicate OneSchedule(w: World) {
    && (ScheduleInFlight(w) ==> w.slot == None)
    && forall i, j :: 0 <= i < j < |w.inFlight| ==> !(w.inFlight[i].ScheduleTx? && w.inFlight[j].ScheduleTx?)
  }

  lemma Without(txs: seq<Tx>, i: nat)
    requires i < |txs|
    ensures var rest := txs[..i] + txs[i + 1..];
            forall k :: 0 <= k < |rest| ==> rest[k] == txs[if k < i then k else k + 1]
  {}

  lemma RestHasNoOther(w: World, i: nat)
    requires OneSchedule(w) && i < |w.inFlight|
    ensures var rest := w.(inFlight := w.inFlight[..i] + w.inFlight[i + 1..]);
            && OneSchedule(rest)
            && (w.inFlight[i].ScheduleTx? ==> !ScheduleInFlight(rest))
  {
    var rest := w.(inFlight := w.inFlight[..i] + w.inFlight[i + 1..]);
    Without(w.inFlight, i);
    if ScheduleInFlight(rest) {
      var k :| 0 <= k < |rest.inFlight| && rest.inFlight[k].ScheduleTx?;
      var k' := if k < i then k else k + 1;
      assert w.inFlight[k'].ScheduleTx?;
      assert k' < i || i < k';
    }
  }

  lemma RunKeepsSchedule(w: World, step: Step, explain: Fault -> string, sha: Digest)
    requires step.Run? && Explains(explain) && OneSchedule(w) && Patient(w, step)
    ensures OneSchedule(Next(w, step, explain, sha))
  {
    var v := Next(w, step, explain, sha);
    ClassificationIsExact(w, step.a, step.clockFirst, explain, sha);
    assert ScheduleInFlight(v) ==> ScheduleInFlight(w) || v.slot == None;
  }

  lemma LandKeepsSchedule(rest: World, tx: Tx, sha: Digest)
    requires SlotFromLog(rest) && NeverOverwritten(rest.log) && OneSchedule(rest)
    requires tx.ScheduleTx? ==> rest.slot == None && !ScheduleInFlight(rest)
    ensures NeverOverwritten(Land(rest, tx, sha).log) && OneSchedule(Land(rest, tx, sha))
  {
    assert ScheduleInFlight(Land(rest, tx, sha)) <==> ScheduleInFlight(rest);
  }

  lemma NextKeepsSchedule(w: World, step: Step, explain: Fault -> string, sha: Digest)
    requires Explains(explain) && SlotFromLog(w) && NeverOverwritten(w.log) && OneSchedule(w) && Patient(w, step)
    ensures NeverOverwritten(Next(w, step, explain, sha).log) && OneSchedule(Next(w, step, explain, sha))
  {
    match step
    case Tick(_) => assert ScheduleInFlight(Next(w, step, explain, sha)) <==> ScheduleInFlight(w);
    case Run(_, _, _, _) => RunKeepsSchedule(w, step, explain, sha);
    case Confirm(i) =>
      if i < |w.inFlight| {
        assert w.inFlight[i].ScheduleTx? ==> ScheduleInFlight(w);
        RestHasNoOther(w, i);
        LandKeepsSchedule(w.(inFlight := w.inFlight[..i] + w.inFlight[i + 1..]), w.inFlight[i], sha);
      }
    case Expire(i) =>
      if i < |w.inFlight| {
        RestHasNoOther(w, i);
      }
  }

  /** Over every run of a patient operator, scheduling never changes the digest or the
      maturity of a pending update. */
  lemma {:induction false} PatientRunsNeverOverwrite(w: World, steps: seq<Step>, explain: Fault -> string, sha: Digest)
    requires Explains(explain) && PatientRun(w, steps, explain, sha)
    requires SlotFromLog(w) && ExecutedAfterADay(w.log) && NeverOverwritten(w.log) && OneSchedule(w)
    ensures var v := After(w, steps, explain, sha); NeverOverwritten(v.log) && OneSchedule(v)
  {
    if steps != [] {
      var front := steps[..|steps| - 1];
      PatientRunsNeverOverwrite(w, front, explain, sha);
      TimelockHolds(w, front, explain, sha);
      NextKeepsSchedule(After(w, front, explain, sha), steps[|steps| - 1], explain, sha);
    }
  }

  /** Patience is needed: from any world with an empty slot and one `scheduleUpdate` in
      flight, running `schedule` again leads to a reset clock as soon as both land. */
  lemma ImpatienceRestartsClock(w: World, i: nat, a: Artifact, clockFirst: bool, wait: nat, explain: Fault -> string,
                                sha: Digest)
    requires Explains(explain) && w.slot == None && i < |w.inFlight| && w.inFlight[i].ScheduleTx?
    ensures var first := Confirm(i);
            var second := Confirm(|w.inFlight| - 1);
            var v := After(w, [Run(Schedule, a, false, clockFirst), first], explain, sha);
            var u := After(w, [Run(Schedule, a, false, clockFirst), first, Tick(wait), second], explain, sha);
            && v.slot == Some(Pending(UpdateDigest(w.inFlight[i].a, sha), w.now + TIMELOCK_MS))
            && u.slot == Some(Pending(UpdateDigest(a, sha), w.now + wait + TIMELOCK_MS))
            && !NeverOverwritten(u.log)
  {
    var run := Run(Schedule, a, false, clockFirst);
    ClassificationIsExact(w, a, clockFirst, explain, sha);
    var w1 := Next(w, run, explain, sha);
    assert w1.inFlight == w.inFlight + [ScheduleTx(a)];
    var w2 := Next(w1, Confirm(i), explain, sha);
    var w3 := Next(w2, Tick(wait), explain, sha);
    Without(w1.inFlight, i);
    assert w3.inFlight[|w.inFlight| - 1] == ScheduleTx(a);
    var w4 := Next(w3, Confirm(|w.inFlight| - 1), explain, sha);
    assert [run, Confirm(i)][..1] == [run] && [run][..0] == [];
    assert [run, Confirm(i), Tick(wait), Confirm(|w.inFlight| - 1)][..3] == [run, Confirm(i), Tick(wait)];
    assert [run, Confirm(i), Tick(wait)][..2] == [run, Confirm(i)];
    assert After(w, [run], explain, sha) == w1;
    assert After(w, [run, Confirm(i)], explain, sha) == w2;
    assert After(w, [run, Confirm(i), Tick(wait)], explain, sha) == w3;
    assert After(w, [run, Confirm(i), Tick(wait), Confirm(|w.inFlight| - 1)], explain, sha) == w4;
    assert w4.log[|w4.log| - 1].Scheduled? && w4.log[|w4.log| - 2].Scheduled?;
  }

  // ---------- An update goes through ----------

  /** The tool is run for real and the transaction it sends is the next to land. */
  ghost function Confirmed(w: World, action: Action, a: Artifact, clockFirst: bool, explain: Fault -> string,
                           sha: Digest): World {
    After(w, [Run(action, a, false, clockFirst), Confirm(|w.inFlight|)], explain, sha)
  }

  lemma ConfirmedIs(w: World, action: Action, a: Artifact, tx: Tx, clockFirst: bool, explain: Fault -> string,
                    sha: Digest)
    requires Sends(w, action, a, false, clockFirst, explain, sha) == Some(tx)
    ensures Confirmed(w, action, a, clockFirst, explain, sha) == Land(w, tx, sha)
  {
    var run, confirm := Run(action, a, false, clockFirst), Confirm(|w.inFlight|);
    var sent := Next(w, run, explain, sha);
    assert sent.inFlight[|w.inFlight|] == tx;
    assert sent.inFlight[..|w.inFlight|] + sent.inFlight[|w.inFlight| + 1..] == w.inFlight;
    assert [run, confirm][..1] == [run] && [run][..0] == [];
    assert After(w, [run], explain, sha) == sent;
  }

  /** The update is carried out and leaves the slot empty exactly if the slot pins this
      artifact and its day is over; otherwise nothing changes. */
  lemma ExecuteLands(w: World, a: Artifact, clockFirst: bool, explain: Fault -> string, sha: Digest)
    ensures Confirmed(w, Execute, a, clockFirst, explain, sha)
         == if w.slot.Some? && w.slot.value.digest == UpdateDigest(a, sha) && w.now >= w.slot.value.matureAt
            then World(None, w.now, w.inFlight, w.log + [Executed(UpdateDigest(a, sha), w.now)])
            else w
  {
    ConfirmedIs(w, Execute, a, UpdateTx(a), clockFirst, explain, sha);
  }

  /** Scheduling into an empty slot pins the artifact for 24 hours from its confirmation. */
  lemma ScheduleLands(w: World, a: Artifact, clockFirst: bool, explain: Fault -> string, sha: Digest)
    requires Explains(explain) && w.slot == None
    ensures Confirmed(w, Schedule, a, clockFirst, explain, sha)
         == World(Some(Pending(UpdateDigest(a, sha), w.now + 24 * 60 * 60 * 1000)), w.now, w.inFlight,
                  w.log + [Scheduled(UpdateDigest(a, sha), w.now)])
  {
    ClassificationIsExact(w, a, clockFirst, explain, sha);
    ConfirmedIs(w, Schedule, a, ScheduleTx(a), clockFirst, explain, sha);
  }

  /** Cancelling empties the slot, whatever it holds. */
  lemma CancelLands(w: World, a: Artifact, clockFirst: bool, explain: Fault -> string, sha: Digest)
    ensures Confirmed(w, Cancel, a, clockFirst, explain, sha)
         == World(None, w.now, w.inFlight, w.log + [Cancelled(w.now)])
  {
    ConfirmedIs(w, Cancel, a, CancelTx, clockFirst, explain, sha);
  }

  /** Schedule, wait, execute, each confirmed: the update goes through exactly if the wait is
      24 hours or more. */
  lemma UpdateGoesThroughIff(w: World, a: Artifact, wait: nat, clockFirst: bool, explain: Fault -> string, sha: Digest)
    requires Explains(explain) && w.slot == None
    ensures var scheduled := Confirmed(w, Schedule, a, clockFirst, explain, sha);
            var waited := scheduled.(now := scheduled.now + wait);
            var v := Confirmed(waited, Execute, a, clockFirst, explain, sha);
            v.slot == None && v.log == scheduled.log + [Executed(UpdateDigest(a, sha), w.now + wait)]
            <==> wait >= 24 * 60 * 60 * 1000
  {
    ScheduleLands(w, a, clockFirst, explain, sha);
    var scheduled := Confirmed(w, Schedule, a, clockFirst, explain, sha);
    ExecuteLands(scheduled.(now := scheduled.now + wait), a, clockFirst, explain, sha);
  }

  // ---------- The tool as a program ----------

  datatype Outcome = Reported | WouldSend | Sent | AlreadyPending | AlreadyMatured | ConflictError | UnclassifiedError

  /** Why scheduling is refused: this artifact's update is mature or still locked, or the
      slot pins another artifact. */
  ghost predicate RefusedFor(outcome: Outcome, p: Pending, now: int, digest: Bytes, clockFirst: bool) {
    && (outcome == AlreadyMatured <==> p.digest == digest && now >= p.matureAt)
    && (outcome == AlreadyPending <==> now < p.matureAt && (clockFirst || p.digest == digest))
    && outcome in {AlreadyMatured, AlreadyPending, ConflictError}
  }

  /** One invocation of the tool against the registry, with its report. */
  class Tool {
    var world: World
    var transactions: seq<Tx>
    var chainWritesPerformed: bool

    constructor (w: World)
      ensures world == w && transactions == [] && !chainWritesPerformed
    {
      world, transactions, chainWritesPerformed := w, [], false;
    }

    /** One transaction went out and is in the report, and nothing else changed. */
    ghost predicate Submitted(tx: Tx, before: World, listed: seq<Tx>)
      reads this
    {
      && world == World(before.slot, before.now, before.inFlight + [tx], before.log)
      && transactions == listed + [tx] && chainWritesPerformed
    }

    method SendCall(tx: Tx)
      modifies this
      ensures world == old(world).(inFlight := old(world.inFlight) + [tx])
      ensures transactions == old(transactions) + [tx] && chainWritesPerformed
    {
      world := world.(inFlight := world.inFlight + [tx]);
      transactions := transactions + [tx];
      chainWritesPerformed := true;
    }

    /** `ruCancelUpdate` up to its confirmation. */
    method CancelUpdate(dryRun: bool) returns (outcome: Outcome)
      modifies this
      ensures dryRun ==> unchanged(this) && outcome == WouldSend
      ensures !dryRun ==> world == old(world).(inFlight := old(world.inFlight) + [CancelTx]) && outcome == Sent
      ensures !dryRun ==> transactions == old(transactions) + [CancelTx] && chainWritesPerformed
    {
      if dryRun {
        return WouldSend;
      }
      SendCall(CancelTx);
      return Sent;
    }

    /** `ruSubmitUpdate` up to its confirmation: it takes the world one `Run` step, sends
        and reports the transaction of its action, and refuses to schedule exactly when
        the slot is occupied. */
    method SubmitUpdate(action: Action, a: Artifact, dryRun: bool, clockFirst: bool, explain: Fault -> string,
                        sha: Digest)
      returns (outcome: Outcome)
      requires action != Status && Explains(explain)
      modifies this
      ensures world == Next(old(world), Run(action, a, dryRun, clockFirst), explain, sha)
      ensures dryRun ==> unchanged(this)
      ensures !dryRun && action == Execute ==> Submitted(UpdateTx(a), old(world), old(transactions))
      ensures !dryRun && action == Cancel ==> Submitted(CancelTx, old(world), old(transactions))
      ensures !dryRun && action == Schedule && old(world.slot) == None ==>
                Submitted(ScheduleTx(a), old(world), old(transactions))
      ensures action == Schedule && old(world.slot).Some? ==> unchanged(this)
      ensures action != Schedule || old(world.slot) == None ==> outcome == if dryRun then WouldSend else Sent
      ensures action == Schedule && old(world.slot).Some? ==>
                RefusedFor(outcome, old(world.slot).value, old(world.now), UpdateDigest(a, sha), clockFirst)
    {
      if action == Cancel {
        outcome := CancelUpdate(dryRun);
        return;
      }
      ClassificationIsExact(world, a, clockFirst, explain, sha);
      if action == Schedule {
        var probe := ProbeStatusOf(world, a, clockFirst, explain, sha);
        match probe {
          case PendingStatus => return AlreadyPending;
          case Matured => return AlreadyMatured;
          case Conflict => return ConflictError;
          case Unknown => return UnclassifiedError;
          case NoneScheduled =>
        }
      }
      if dryRun {
        return WouldSend;
      }
      SendCall(if action == Execute then UpdateTx(a) else ScheduleTx(a));
      return Sent;
    }
  }
}
