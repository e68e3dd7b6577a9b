/** The reconciler itself: planning and executing against a registry that may answer with
    errors, lose transactions and confirmations, and be changed by others between any two
    calls, also between a simulation and the transaction it announced.  When `quiet` holds
    none of that happens. */
module Reconciler {
  import opened Descriptors
  import opened Fleet
  import opened Wrappers

  datatype Read = ReadError | Unset | Value(v: int)
  datatype Probe = ProbeError | Unregistered | Row(a: App)
  datatype Simulation = CallError | Halt | AlreadyAttached | EngineInactive | OtherFault

  /** The two transactions of the tool. */
  datatype Call = AttachCall | SetCall(i: nat, v: int)

  /** The chain lets the signer's transaction through. */
  predicate Permits(a: App, call: Call, signer: string) {
    match call
    case AttachCall => CanAttach(a, signer)
    case SetCall(i, v) => Accepts(a, i, v, signer)
  }

  function Landed(a: App, call: Call, signer: string, defaults: seq<int>): App
    requires ValidApp(a)
  {
    if !Permits(a, call, signer) then a
    else
      match call
      case AttachCall => Attach(a, defaults)
      case SetCall(i, v) => SetDescriptor(a, i, v, signer)
  }

  lemma LandedIsValid(a: App, call: Call, signer: string, defaults: seq<int>)
    requires ValidApp(a) && ValidRow(defaults)
    ensures ValidApp(Landed(a, call, signer, defaults)) && Landed(a, call, signer, defaults).admin == a.admin
  {}

  /** Every app that came under the signer between the two states is in `gained`. */
  ghost predicate Noticed(before: seq<App>, after: seq<App>, gained: set<nat>, signer: string) {
    && |before| == |after|
    && forall k :: 0 <= k < |before| && after[k].admin == signer && before[k].admin != signer ==> k in gained
  }

  lemma NoticedTwice(a: seq<App>, b: seq<App>, c: seq<App>, gained: set<nat>, more: set<nat>, signer: string)
    requires Noticed(a, b, gained, signer) && Noticed(b, c, more, signer) && gained <= more
    ensures Noticed(a, c, more, signer)
  {}

  /** What the tool asked of the chain, and the answers. */
  datatype Step =
    | RowRead(k: nat, found: Probe)
    | KeyRead(k: nat, i: nat, value: Read)
    | EngineRead(ok: bool)
    | Simulated(k: nat, call: Call, result: Simulation)
    | Sent(k: nat, call: Call, ok: bool)

  ghost predicate OrderedAt(trace: seq<Step>, n: nat)
    requires n < |trace|
  {
    trace[n].Sent? ==> n > 0 && trace[n - 1] == Simulated(trace[n].k, trace[n].call, Halt)
  }

  /** Every transaction was simulated to HALT directly before it was sent. */
  ghost predicate SimulatedFirst(trace: seq<Step>) {
    forall n: nat :: n < |trace| ==> OrderedAt(trace, n)
  }

  lemma OneMoreStep(trace: seq<Step>, step: Step)
    requires SimulatedFirst(trace)
    requires step.Sent? ==> trace != [] && trace[|trace| - 1] == Simulated(step.k, step.call, Halt)
    ensures SimulatedFirst(trace + [step])
  {
    forall n: nat | n <= |trace| ensures OrderedAt(trace + [step], n) {
      if n < |trace| { assert OrderedAt(trace, n); }
    }
  }

  /** The chain side, with the number of transactions the tool has broadcast, and the apps
      that others have handed to the signer since the run began. */
  class Registry {
    var apps: seq<App>
    var sent: nat
    ghost var gained: set<nat>
    ghost var trace: seq<Step>
    const signer: string
    const defaults: seq<int>

    ghost predicate Valid()
      reads this
    {
      ValidRow(defaults) && (forall k :: 0 <= k < |apps| ==> ValidApp(apps[k])) && SimulatedFirst(trace)
    }

    /** What any stretch of time keeps. */
    ghost predicate Since(apps0: seq<App>, gained0: set<nat>, sent0: nat)
      reads this
    {
      gained0 <= gained && sent0 <= sent && Noticed(apps0, apps, gained, signer)
    }

    /** The app is not under the signer, or was handed over. */
    ghost predicate Watched(k: nat)
      reads this
    {
      k < |apps| && (apps[k].admin == signer ==> k in gained)
    }

    constructor (apps: seq<App>, signer: string, defaults: seq<int>)
      requires ValidRow(defaults) && forall k :: 0 <= k < |apps| ==> ValidApp(apps[k])
      ensures Valid() && this.apps == apps && sent == 0 && this.signer == signer && this.defaults == defaults
    {
      this.apps, this.sent, this.signer, this.defaults := apps, 0, signer, defaults;
      this.gained, this.trace := {}, [];
    }

    /** Others may change any app in any way, its admin included. */
    method Interfere(quiet: bool)
      requires Valid()
      modifies this`apps, this`gained
      ensures Valid() && Since(old(apps), old(gained), sent)
      ensures quiet ==> apps == old(apps) && gained == old(gained)
    {
      if !quiet {
        var changed: seq<App> := *;
        if |changed| == |apps| && forall k :: 0 <= k < |changed| ==> ValidApp(changed[k]) {
          gained := gained + set k | 0 <= k < |apps| && changed[k].admin == signer && apps[k].admin != signer;
          apps := changed;
        }
      }
    }

    /** The one change by others that the planned count does not cover. */
    method HandOver(k: nat)
      requires Valid() && k < |apps|
      modifies this`apps, this`gained
      ensures Valid() && Since(old(apps), old(gained), sent)
      ensures apps == old(apps)[k := old(apps[k]).(admin := signer)] && gained == old(gained) + {k}
    {
      gained := gained + {k};
      apps := apps[k := apps[k].(admin := signer)];
    }

    method ProbeApp(k: nat, quiet: bool) returns (p: Probe)
      requires Valid() && k < |apps|
      modifies this`apps, this`gained, this`trace
      ensures Valid() && Since(old(apps), old(gained), sent)
      ensures trace == old(trace) + [RowRead(k, p)]
      ensures p.Row? ==> p.a == apps[k] && apps[k].registered
      ensures p.Unregistered? ==> !apps[k].registered
      ensures quiet ==> !p.ProbeError? && apps == old(apps) && gained == old(gained)
    {
      Interfere(quiet);
      p := ProbeError;
      var answered: bool := *;
      if quiet || answered {
        p := if apps[k].registered then Row(apps[k]) else Unregistered;
      }
      OneMoreStep(trace, RowRead(k, p));
      trace := trace + [RowRead(k, p)];
    }

    method ReadDescriptor(k: nat, i: nat, quiet: bool) returns (r: Read)
      requires Valid() && k < |apps| && i < 9
      modifies this`apps, this`gained, this`trace
      ensures Valid() && Since(old(apps), old(gained), sent)
      ensures trace == old(trace) + [KeyRead(k, i, r)]
      ensures r.Value? ==> apps[k].copy[i] == Some(r.v)
      ensures r.Unset? ==> apps[k].copy[i] == None
      ensures quiet ==> !r.ReadError? && apps == old(apps) && gained == old(gained)
    {
      Interfere(quiet);
      r := ReadError;
      var answered: bool := *;
      if quiet || answered {
        r := match apps[k].copy[i] case None => Unset case Some(v) => Value(v);
      }
      OneMoreStep(trace, KeyRead(k, i, r));
      trace := trace + [KeyRead(k, i, r)];
    }

    /** The engine's own row for the app, read after an attach: hash and game type. */
    method EngineConfirms(quiet: bool) returns (ok: bool)
      requires Valid()
      modifies this`apps, this`gained, this`trace
      ensures Valid() && Since(old(apps), old(gained), sent)
      ensures trace == old(trace) + [EngineRead(ok)]
      ensures quiet ==> ok && apps == old(apps) && gained == old(gained)
    {
      Interfere(quiet);
      ok := *;
      ok := ok || quiet;
      OneMoreStep(trace, EngineRead(ok));
      trace := trace + [EngineRead(ok)];
    }

    method Simulate(k: nat, call: Call, quiet: bool) returns (s: Simulation)
      requires Valid() && k < |apps|
      modifies this`apps, this`gained, this`trace
      ensures Valid() && Since(old(apps), old(gained), sent)
      ensures trace == old(trace) + [Simulated(k, call, s)]
      ensures s.Halt? ==> Permits(apps[k], call, signer)
      ensures s.AlreadyAttached? ==> call == AttachCall && apps[k].attached != Lite
      ensures quiet ==> apps == old(apps) && gained == old(gained)
      ensures quiet ==> (s.Halt? <==> Permits(apps[k], call, signer)) && !s.CallError? && !s.EngineInactive?
    {
      Interfere(quiet);
      s := if Permits(apps[k], call, signer) then Halt
           else if call == AttachCall && apps[k].attached != Lite then AlreadyAttached else OtherFault;
      var answered: bool, active: bool := *, *;
      if !quiet {
        s := if !answered then CallError else if !active then EngineInactive else s;
      }
      OneMoreStep(trace, Simulated(k, call, s));
      trace := trace + [Simulated(k, call, s)];
    }

    /** Send the transaction just simulated, and wait.  It may fail to be broadcast, be
        broadcast and never land, find the chain changed when it lands, or land without its
        confirmation arriving; one that lands later still is a change by others.  That it was
        simulated is no demand of the chain but an obligation of the tool. */
    method Send(k: nat, call: Call, quiet: bool) returns (ok: bool)
      requires Valid() && k < |apps|
      requires trace != [] && trace[|trace| - 1] == Simulated(k, call, Halt)
      modifies this
      ensures Valid() && Since(old(apps), old(gained), old(sent))
      ensures trace == old(trace) + [Sent(k, call, ok)]
      ensures sent <= old(sent) + 1 && (ok ==> sent == old(sent) + 1)
      ensures ok && call.AttachCall? ==> apps[k].attached == Here
      ensures ok && call.SetCall? ==> call.i < 9 && apps[k].copy[call.i] == Some(call.v)
      ensures quiet ==> ok == Permits(old(apps[k]), call, signer) && sent == old(sent) + 1
      ensures quiet ==> apps == old(apps)[k := Landed(old(apps[k]), call, signer, defaults)] && gained == old(gained)
    {
      Interfere(quiet);
      var broadcast: bool, landed: bool, confirmed: bool := *, *, *;
      if quiet { broadcast, landed, confirmed := true, true, true; }
      if broadcast { sent := sent + 1; }
      ok := broadcast && landed && confirmed && Permits(apps[k], call, signer);
      if broadcast && landed {
        LandedIsValid(apps[k], call, signer, defaults);
        apps := apps[k := Landed(apps[k], call, signer, defaults)];
      }
      OneMoreStep(trace, Sent(k, call, ok));
      trace := trace + [Sent(k, call, ok)];
    }
  }

  // ---------- The report ----------

  datatype DescriptorStatus = Pending | Planned | Set | SkippedPresent | NotReady | Failed

  datatype AppStatus = AppPending | AppPlanned | AppAttached | AppSkippedExisting | AppNotReady | AppFailed | AppInvalid

  datatype Record = Record(status: AppStatus, target: seq<int>, descriptors: seq<DescriptorStatus>)

  ghost predicate Shaped(rec: Record) {
    |rec.target| == |rec.descriptors| == 9
  }

  /** Writes the plan counts for one app: the attach and nine keys, or the planned keys. */
  function PlannedWrites(rec: Record): nat {
    match rec.status
    case AppPlanned => 1 + |rec.descriptors|
    case AppSkippedExisting => Count(rec.descriptors, Planned)
    case _ => 0
  }

  function Count(ds: seq<DescriptorStatus>, status: DescriptorStatus): nat {
    if ds == [] then 0
    else Count(ds[..|ds| - 1], status) + if ds[|ds| - 1] == status then 1 else 0
  }

  predicate RecordFailed(rec: Record) {
    rec.status == AppFailed || Failed in rec.descriptors
  }

  // ---------- Plan ----------

  /** What the plan knows about a record in the loop, `a` being the row it probed: on an
      attached app the keys are "not-ready" exactly if the signer is not the admin. */
  ghost predicate PlannedFor(rec: Record, a: App, signer: string) {
    && Shaped(rec)
    && (rec.status == AppSkippedExisting ==>
          forall i :: 0 <= i < 9 ==> KeyPlanned(rec.descriptors[i], AdminMismatch(a, signer)))
    && (rec.status == AppPlanned ==> forall i :: 0 <= i < 9 ==> rec.descriptors[i] == Pending)
    && (rec.status != AppPlanned && rec.status != AppSkippedExisting ==> Failed !in rec.descriptors)
  }

  predicate KeyPlanned(status: DescriptorStatus, adminMismatch: bool) {
    if adminMismatch then status == NotReady else status in {Planned, SkippedPresent, Failed}
  }

  function QuietStatus(stored: Option<int>, target: int, adminMismatch: bool): DescriptorStatus {
    if adminMismatch then NotReady else if stored == Some(target) then SkippedPresent else Planned
  }

  /** The plan of a quiet run reflects the chain exactly. */
  ghost predicate PlannedExactly(rec: Record, a: App, signer: string)
    requires ValidApp(a)
  {
    && Shaped(rec)
    && (rec.status in {AppPlanned, AppSkippedExisting} <==> InLoop(a, rec.target, signer))
    && (InLoop(a, rec.target, signer) ==> (rec.status == AppPlanned <==> a.attached == Lite))
    && (rec.status == AppSkippedExisting ==> forall i :: 0 <= i < 9 ==>
          rec.descriptors[i] == QuietStatus(a.copy[i], rec.target[i], AdminMismatch(a, signer)))
  }

  /** `seen` is the row the plan goes by.  If that row is under another admin, the signer can
      write to the app later only if others hand it over. */
  method PlanApp(reg: Registry, k: nat, rec: Record, quiet: bool) returns (r: Record, ghost seen: App)
    requires reg.Valid() && k < |reg.apps| && Shaped(rec) && ValidRow(rec.target)
    requires rec.status == AppPending && forall i :: 0 <= i < 9 ==> rec.descriptors[i] == Pending
    modifies reg`apps, reg`gained, reg`trace
    ensures reg.Valid() && reg.Since(old(reg.apps), old(reg.gained), reg.sent)
    ensures ValidApp(seen) && PlannedFor(r, seen, reg.signer) && r.target == rec.target && r.status != AppInvalid
    ensures AdminMismatch(seen, reg.signer) ==> reg.Watched(k)
    ensures quiet ==> seen == reg.apps[k] && PlannedExactly(r, seen, reg.signer)
    ensures quiet ==> (r.status == AppFailed <==> seen.registered && seen.attached == Elsewhere)
    ensures quiet ==>
              (r.status == AppNotReady
               <==> !seen.registered || (seen.attached == Lite && AdminMismatch(seen, reg.signer)))
    ensures r.status in {AppFailed, AppNotReady} ==> forall i :: 0 <= i < 9 ==> r.descriptors[i] == NotReady
    ensures quiet ==> reg.apps == old(reg.apps) && reg.gained == old(reg.gained)
  {
    r := rec;
    var probe := reg.ProbeApp(k, quiet);
    seen := reg.apps[k];
    match probe
    case ProbeError => r := MarkAll(rec, AppFailed);
    case Unregistered => r := MarkAll(rec, AppNotReady);
    case Row(a) =>
      var adminMismatch := AdminMismatch(a, reg.signer);
      match a.attached {
        case Here => r := ClassifyDescriptors(reg, k, rec, a, quiet);
        case Lite =>
          r := if adminMismatch then MarkAll(rec, AppNotReady) else rec.(status := AppPlanned);
        case Elsewhere =>
          r := MarkAll(rec, AppFailed);
      }
  }

  /** The keys of an attached app. */
  method ClassifyDescriptors(reg: Registry, k: nat, rec: Record, a: App, quiet: bool) returns (r: Record)
    requires reg.Valid() && k < |reg.apps| && Shaped(rec) && ValidApp(a) && a == reg.apps[k]
    modifies reg`apps, reg`gained, reg`trace
    ensures reg.Valid() && reg.Since(old(reg.apps), old(reg.gained), reg.sent)
    ensures Shaped(r) && r.target == rec.target && r.status == AppSkippedExisting
    ensures forall i :: 0 <= i < 9 ==> KeyPlanned(r.descriptors[i], AdminMismatch(a, reg.signer))
    ensures quiet ==> reg.apps == old(reg.apps) && reg.gained == old(reg.gained)
    ensures quiet ==> forall i :: 0 <= i < 9 ==>
              r.descriptors[i] == QuietStatus(a.copy[i], rec.target[i], AdminMismatch(a, reg.signer))
  {
    var adminMismatch := AdminMismatch(a, reg.signer);
    r := rec.(status := AppSkippedExisting);
    for i := 0 to 9
      invariant reg.Valid() && reg.Since(old(reg.apps), old(reg.gained), reg.sent)
      invariant quiet ==> reg.apps == old(reg.apps) && reg.gained == old(reg.gained)
      invariant Shaped(r) && r.target == rec.target && r.status == AppSkippedExisting
      invariant forall j :: 0 <= j < i ==> KeyPlanned(r.descriptors[j], adminMismatch)
      invariant quiet ==> forall j :: 0 <= j < i ==>
                  r.descriptors[j] == QuietStatus(a.copy[j], rec.target[j], adminMismatch)
    {
      var status := NotReady;
      if !adminMismatch {
        var current := reg.ReadDescriptor(k, i, quiet);
        status := match current
          case ReadError => Failed
          case Unset => Planned
          case Value(v) => if v == rec.target[i] then SkippedPresent else Planned;
      }
      r := r.(descriptors := r.descriptors[i := status]);
    }
  }

  /** `atgMarkDescriptors` with the record's own status. */
  function MarkAll(rec: Record, status: AppStatus): (r: Record)
    requires Shaped(rec) && forall i :: 0 <= i < 9 ==> rec.descriptors[i] == Pending
    ensures Shaped(r) && r.target == rec.target && r.status == status
    ensures forall i :: 0 <= i < 9 ==> r.descriptors[i] == NotReady
  {
    rec.(status := status, descriptors := seq(9, _ => NotReady))
  }

  // ---------- Execute ----------

  /** What an undisturbed dry run reports of a key. */
  function DryStatus(a: App, i: nat, target: int, signer: string): DescriptorStatus
    requires |a.copy| == 9 && i < 9
  {
    if a.copy[i] == Some(target) then SkippedPresent else if Accepts(a, i, target, signer) then Planned else Failed
  }

  /** The status that one key gets, from what was asked and answered. */
  ghost predicate KeyTrace(steps: seq<Step>, k: nat, i: nat, target: int, status: DescriptorStatus) {
    var call := SetCall(i, target);
    && steps != [] && steps[0].KeyRead? && steps[0] == KeyRead(k, i, steps[0].value)
    && match status
       case SkippedPresent => steps == [KeyRead(k, i, Value(target))]
       case Planned => steps == [steps[0], Simulated(k, call, Halt)] && steps[0].value != Value(target)
       case Set =>
         && steps == [steps[0], Simulated(k, call, Halt), Sent(k, call, true), KeyRead(k, i, Value(target))]
         && steps[0].value !in {ReadError, Value(target)}
       case Failed =>
         || steps == [KeyRead(k, i, ReadError)]
         || (|steps| == 2 && steps[1].Simulated? && steps[1].result != Halt)
         || steps == [steps[0], Simulated(k, call, Halt), Sent(k, call, false)]
         || (|steps| == 4 && steps[1] == Simulated(k, call, Halt) && steps[2] == Sent(k, call, true)
             && steps[3].KeyRead? && steps[3] == KeyRead(k, i, steps[3].value) && steps[3].value != Value(target))
       case _ => false
  }

  /** One key: re-read, simulate, and in write mode send and read back.  Nothing is sent for
      an app that was not under the signer and was not handed over. */
  method ExecuteDescriptor(reg: Registry, k: nat, i: nat, target: int, dryRun: bool, quiet: bool)
    returns (status: DescriptorStatus)
    requires reg.Valid() && k < |reg.apps| && i < 9
    modifies reg
    ensures reg.Valid() && reg.Since(old(reg.apps), old(reg.gained), old(reg.sent))
    ensures old(reg.trace) <= reg.trace && KeyTrace(reg.trace[|old(reg.trace)|..], k, i, target, status)
    ensures reg.sent <= old(reg.sent) + 1
    ensures dryRun || (old(reg.Watched(k)) && k !in reg.gained) ==> reg.sent == old(reg.sent)
    ensures status == Set ==> reg.sent == old(reg.sent) + 1 && reg.apps[k].copy[i] == Some(target)
    ensures status == SkippedPresent ==> reg.sent == old(reg.sent) && reg.apps[k].copy[i] == Some(target)
    ensures status in {Set, SkippedPresent, Failed} || (dryRun && status == Planned)
    ensures dryRun && quiet ==> reg.apps == old(reg.apps)
    ensures dryRun && quiet ==> status == DryStatus(reg.apps[k], i, target, reg.signer)
    ensures quiet ==> reg.gained == old(reg.gained)
    ensures quiet && !dryRun ==>
              && reg.apps == old(reg.apps)[k := WriteStep(old(reg.apps[k]), i, target, reg.signer)]
              && reg.sent == old(reg.sent) + (if Due(old(reg.apps[k]), i, target, reg.signer) then 1 else 0)
              && (status == Failed <==> reg.apps[k].copy[i] != Some(target))
  {
    ghost var start := reg.trace;
    var current := reg.ReadDescriptor(k, i, quiet);
    assert reg.trace[|start|..] == [KeyRead(k, i, current)];
    assert quiet ==> reg.apps == reg.apps[k := reg.apps[k]];
    if current.ReadError? {
      return Failed;
    }
    if current == Value(target) {
      return SkippedPresent;
    }
    var simulation := reg.Simulate(k, SetCall(i, target), quiet);
    assert reg.trace[|start|..] == [KeyRead(k, i, current), Simulated(k, SetCall(i, target), simulation)];
    if !simulation.Halt? {
      return Failed;
    }
    if dryRun {
      return Planned;
    }
    var ok := reg.Send(k, SetCall(i, target), quiet);
    assert reg.trace[|start|..]
        == [KeyRead(k, i, current), Simulated(k, SetCall(i, target), Halt), Sent(k, SetCall(i, target), ok)];
    if !ok {
      return Failed;
    }
    var after := reg.ReadDescriptor(k, i, quiet);
    assert reg.trace[|start|..]
        == [KeyRead(k, i, current), Simulated(k, SetCall(i, target), Halt), Sent(k, SetCall(i, target), true),
            KeyRead(k, i, after)];
    status := if after == Value(target) then Set else Failed;
  }

  /** The status that the attach step gets, from what was asked and answered. */
  ghost predicate AttachTrace(steps: seq<Step>, k: nat, status: AppStatus) {
    && steps != [] && steps[0].Simulated? && steps[0] == Simulated(k, AttachCall, steps[0].result)
    && match status
       case AppPlanned => steps == [Simulated(k, AttachCall, Halt)]
       case AppSkippedExisting => steps == [Simulated(k, AttachCall, AlreadyAttached)]
       case AppNotReady => steps == [Simulated(k, AttachCall, EngineInactive)]
       case AppAttached =>
         && |steps| == 4 && steps[0].result == Halt && steps[1] == Sent(k, AttachCall, true)
         && FoundHere(steps[2], k) && steps[3] == EngineRead(true)
       case AppFailed =>
         || (|steps| == 1 && steps[0].result in {CallError, OtherFault})
         || (steps[0].result == Halt && steps[1..] == [Sent(k, AttachCall, false)])
         || (|steps| == 3 && steps[0].result == Halt && steps[1] == Sent(k, AttachCall, true)
             && steps[2].RowRead? && !FoundHere(steps[2], k))
         || (|steps| == 4 && steps[0].result == Halt && steps[1] == Sent(k, AttachCall, true)
             && FoundHere(steps[2], k) && steps[3] == EngineRead(false))
       case _ => false
  }

  predicate FoundHere(step: Step, k: nat) {
    step.RowRead? && step.k == k && step.found.Row? && step.found.a.attached == Here
  }

  /** The attach step of a planned app. */
  method ExecuteAttach(reg: Registry, k: nat, dryRun: bool, quiet: bool)
    returns (status: AppStatus, attachReady: bool)
    requires reg.Valid() && k < |reg.apps|
    modifies reg
    ensures reg.Valid() && reg.Since(old(reg.apps), old(reg.gained), old(reg.sent))
    ensures old(reg.trace) <= reg.trace && AttachTrace(reg.trace[|old(reg.trace)|..], k, status)
    ensures reg.sent <= old(reg.sent) + 1
    ensures dryRun ==> reg.sent == old(reg.sent)
    ensures dryRun && quiet ==> reg.apps == old(reg.apps)
    ensures dryRun && quiet && reg.apps[k].attached == Lite ==>
              !attachReady && status == if CanAttach(reg.apps[k], reg.signer) then AppPlanned else AppFailed
    ensures quiet ==> reg.gained == old(reg.gained)
    ensures attachReady ==> status in {AppAttached, AppSkippedExisting}
    ensures !attachReady ==> status in {AppFailed, AppNotReady} || (dryRun && status == AppPlanned)
    ensures status == AppAttached ==> reg.sent == old(reg.sent) + 1
    ensures quiet && !dryRun && old(reg.apps[k]).attached == Lite ==>
              && reg.apps == old(reg.apps)[k := AfterAttach(old(reg.apps[k]), reg.signer, reg.defaults)]
              && (attachReady <==> CanAttach(old(reg.apps[k]), reg.signer))
              && reg.sent == old(reg.sent) + (if attachReady then 1 else 0)
              && (attachReady ==> status == AppAttached) && (!attachReady ==> status == AppFailed)
  {
    var simulation := reg.Simulate(k, AttachCall, quiet);
    assert quiet ==> reg.apps == reg.apps[k := reg.apps[k]];
    match simulation {
      case CallError => return AppFailed, false;
      case AlreadyAttached => return AppSkippedExisting, true;
      case EngineInactive => return AppNotReady, false;
      case OtherFault => return AppFailed, false;
      case Halt =>
    }
    if dryRun {
      return AppPlanned, false;
    }
    var ok := reg.Send(k, AttachCall, quiet);
    if !ok {
      return AppFailed, false;
    }
    var probe := reg.ProbeApp(k, quiet);
    if !probe.Row? || probe.a.attached != Here {
      return AppFailed, false;
    }
    var confirmed := reg.EngineConfirms(quiet);
    if !confirmed {
      return AppFailed, false;
    }
    return AppAttached, true;
  }

  /** A key the lane still executes. */
  predicate Open(status: DescriptorStatus) {
    status !in {SkippedPresent, Set, Failed}
  }

  /** The keys for which a lane may send: the open ones, the "not-ready" ones only if `late`. */
  function Allowance(ds: seq<DescriptorStatus>, late: bool): nat {
    if ds == [] then 0
    else Allowance(ds[..|ds| - 1], late) + Allowed(ds[|ds| - 1], late)
  }

  function Allowed(status: DescriptorStatus, late: bool): nat {
    if Open(status) && (late || status != NotReady) then 1 else 0
  }

  lemma {:induction false} AllowanceGrows(ds: seq<DescriptorStatus>, late: bool)
    ensures Allowance(ds, false) <= Allowance(ds, late) <= Allowance(ds, true) <= |ds|
  {
    if ds != [] { AllowanceGrows(ds[..|ds| - 1], late); }
  }

  /** The allowance of a record planned for an attached app. */
  lemma {:induction false} AllowanceIs(ds: seq<DescriptorStatus>, adminMismatch: bool, late: bool)
    requires forall i :: 0 <= i < |ds| ==> KeyPlanned(ds[i], adminMismatch)
    ensures Allowance(ds, late) == Count(ds, Planned) + if adminMismatch && late then |ds| else 0
  {
    if ds != [] {
      assert KeyPlanned(ds[|ds| - 1], adminMismatch);
      AllowanceIs(ds[..|ds| - 1], adminMismatch, late);
    }
  }

  /** Every key the lane passes over was skipped because it is at its target. */
  ghost predicate SkipsAreRight(rec: Record, a: App)
    requires Shaped(rec) && |a.copy| == 9
  {
    forall i :: 0 <= i < 9 && !Open(rec.descriptors[i]) ==>
      rec.descriptors[i] == SkippedPresent && a.copy[i] == Some(rec.target[i])
  }

  ghost predicate LaneTurned(before: seq<App>, after: seq<App>, k: nat, i: nat, current: DescriptorStatus, target: int,
                             status: DescriptorStatus, signer: string, written: int)
    requires k < |before| == |after| && |before[k].copy| == |after[k].copy| == 9 && i < 9
  {
    if !Open(current) then after == before && status == current && written == 0
    else
      && after == before[k := WriteStep(before[k], i, target, signer)]
      && written == (if Due(before[k], i, target, signer) then 1 else 0)
      && (status == Failed <==> after[k].copy[i] != Some(target))
  }

  /** The first i keys are done. */
  ghost predicate LaneDone(rec: Record, r: Record, start: seq<App>, now: seq<App>, k: nat, signer: string, i: nat,
                           written: int)
    requires Shaped(rec) && Shaped(r) && k < |start| == |now| && |start[k].copy| == |now[k].copy| == 9 && i <= 9
  {
    && now == start[k := Steps(start[k], rec.target, signer, i)]
    && written == Writes(start[k], rec.target, signer, i)
    && forall j :: 0 <= j < i ==> (r.descriptors[j] == Failed <==> now[k].copy[j] != Some(rec.target[j]))
  }

  lemma LaneGoesOn(rec: Record, r: Record, status: DescriptorStatus, start: seq<App>, before: seq<App>, after: seq<App>,
                   k: nat, signer: string, i: nat, written: int, more: int)
    requires Shaped(rec) && Shaped(r) && k < |start| == |before| == |after| && i < 9
    requires |start[k].copy| == |before[k].copy| == |after[k].copy| == 9
    requires SkipsAreRight(rec, start[k]) && r.descriptors[i] == rec.descriptors[i]
    requires LaneDone(rec, r, start, before, k, signer, i, written)
    requires LaneTurned(before, after, k, i, rec.descriptors[i], rec.target[i], status, signer, more)
    ensures LaneDone(rec, r.(descriptors := r.descriptors[i := status]), start, after, k, signer, i + 1, written + more)
  {
    StepsTouchNothingLater(start[k], rec.target, signer, i);
    StepTouchesOne(before[k], i, rec.target[i], signer);
  }

  lemma StepTouchesOne(a: App, i: nat, v: int, signer: string)
    requires |a.copy| == 9 && i < 9
    ensures forall j :: 0 <= j < 9 && j != i ==> WriteStep(a, i, v, signer).copy[j] == a.copy[j]
  {}

  /** After the first i keys of a dry run. */
  ghost predicate DriedUpTo(rec: Record, r: Record, a: App, signer: string, i: nat)
    requires Shaped(rec) && Shaped(r) && |a.copy| == 9 && i <= 9
  {
    forall j :: 0 <= j < i ==>
      r.descriptors[j] == if Open(rec.descriptors[j]) then DryStatus(a, j, rec.target[j], signer)
                          else rec.descriptors[j]
  }

  /** A dry lane reports a failure exactly if some key on its own is refused. */
  lemma DryLaneFails(rec: Record, r: Record, a: App, signer: string)
    requires Shaped(rec) && Shaped(r) && |a.copy| == 9
    requires SkipsAreRight(rec, a) && DriedUpTo(rec, r, a, signer, 9)
    ensures Failed in r.descriptors <==> DryRunFails(a, rec.target, signer)
  {
    forall j: nat | j < 9 ensures r.descriptors[j] == Failed <==> DryRefused(a, rec.target, j, signer) {}
    if Failed in r.descriptors {
      var j: nat :| j < 9 && r.descriptors[j] == Failed;
      assert DryRefused(a, rec.target, j, signer);
    }
  }

  /** One turn of the lane that started with `rec`: a key already skipped, set or failed is
      passed over. */
  method LaneStep(reg: Registry, k: nat, i: nat, rec: Record, r: Record, ghost start: seq<App>, ghost sent: nat,
                  ghost watched: bool, dryRun: bool, quiet: bool)
    returns (r': Record)
    requires reg.Valid() && k < |reg.apps| == |start| && |start[k].copy| == 9 && i < 9
    requires Shaped(rec) && Shaped(r) && r.target == rec.target && r.descriptors[i] == rec.descriptors[i]
    requires quiet && !dryRun && SkipsAreRight(rec, start[k]) ==>
               LaneDone(rec, r, start, reg.apps, k, reg.signer, i, reg.sent - sent)
    requires watched ==> reg.Watched(k)
    requires reg.sent <= sent + Allowance(rec.descriptors[..i], !watched || k in reg.gained)
    modifies reg
    ensures reg.Valid() && reg.Since(old(reg.apps), old(reg.gained), old(reg.sent))
    ensures Shaped(r') && r'.target == r.target && r'.status == r.status
    ensures forall j :: 0 <= j < 9 && j != i ==> r'.descriptors[j] == r.descriptors[j]
    ensures watched ==> reg.Watched(k)
    ensures reg.sent <= sent + Allowance(rec.descriptors[..i + 1], !watched || k in reg.gained)
    ensures dryRun ==> reg.sent == old(reg.sent)
    ensures dryRun && quiet ==> reg.apps == old(reg.apps)
    ensures dryRun && quiet && Open(r.descriptors[i]) ==>
              r'.descriptors[i] == DryStatus(reg.apps[k], i, r.target[i], reg.signer)
    ensures !Open(r.descriptors[i]) ==> r'.descriptors[i] == r.descriptors[i]
    ensures quiet ==> reg.gained == old(reg.gained)
    ensures quiet && !dryRun && SkipsAreRight(rec, start[k]) ==>
              LaneDone(rec, r', start, reg.apps, k, reg.signer, i + 1, reg.sent - sent)
  {
    ghost var prior, priorSent := reg.apps, reg.sent;
    AllowanceStep(rec.descriptors, i, !watched || k in reg.gained);
    var status := r.descriptors[i];
    if Open(status) {
      status := ExecuteDescriptor(reg, k, i, r.target[i], dryRun, quiet);
    }
    AllowanceStep(rec.descriptors, i, !watched || k in reg.gained);
    r' := r.(descriptors := r.descriptors[i := status]);
    if quiet && !dryRun && SkipsAreRight(rec, start[k]) {
      LaneGoesOn(rec, r, status, start, prior, reg.apps, k, reg.signer, i, priorSent - sent, reg.sent - priorSent);
    }
  }

  /** The descriptor lane: keys already skipped, set or failed are passed over; the rest are
      executed, the "not-ready" ones of an attached app included. */
  method ExecuteLane(reg: Registry, k: nat, rec: Record, dryRun: bool, quiet: bool) returns (r: Record)
    requires reg.Valid() && k < |reg.apps| && Shaped(rec)
    modifies reg
    ensures reg.Valid() && reg.Since(old(reg.apps), old(reg.gained), old(reg.sent))
    ensures Shaped(r) && r.target == rec.target && r.status == rec.status
    ensures reg.sent <= old(reg.sent) + Allowance(rec.descriptors, !old(reg.Watched(k)) || k in reg.gained)
    ensures dryRun ==> reg.sent == old(reg.sent)
    ensures dryRun && quiet ==> reg.apps == old(reg.apps)
    ensures dryRun && quiet && SkipsAreRight(rec, reg.apps[k]) ==>
              (Failed in r.descriptors <==> DryRunFails(reg.apps[k], rec.target, reg.signer))
    ensures quiet ==> reg.gained == old(reg.gained)
    ensures quiet && !dryRun && SkipsAreRight(rec, old(reg.apps[k])) ==>
              && reg.apps == old(reg.apps)[k := Pass(old(reg.apps[k]), rec.target, reg.signer)]
              && reg.sent == old(reg.sent) + Writes(old(reg.apps[k]), rec.target, reg.signer, 9)
              && (Failed in r.descriptors <==> !AtTarget(reg.apps[k], rec.target))
  {
    r := rec;
    ghost var start, sent, watched := reg.apps, reg.sent, reg.Watched(k);
    for i := 0 to 9
      invariant reg.Valid() && reg.Since(start, old(reg.gained), sent)
      invariant Shaped(r) && r.target == rec.target && r.status == rec.status
      invariant forall j :: i <= j < 9 ==> r.descriptors[j] == rec.descriptors[j]
      invariant watched ==> reg.Watched(k)
      invariant reg.sent <= sent + Allowance(rec.descriptors[..i], !watched || k in reg.gained)
      invariant dryRun ==> reg.sent == sent
      invariant dryRun && quiet ==> reg.apps == start && DriedUpTo(rec, r, start[k], reg.signer, i)
      invariant quiet ==> reg.gained == old(reg.gained)
      invariant quiet && !dryRun && SkipsAreRight(rec, start[k]) ==>
                  LaneDone(rec, r, start, reg.apps, k, reg.signer, i, reg.sent - sent)
    {
      r := LaneStep(reg, k, i, rec, r, start, sent, watched, dryRun, quiet);
    }
    assert rec.descriptors[..9] == rec.descriptors;
    if dryRun && quiet && SkipsAreRight(rec, start[k]) {
      DryLaneFails(rec, r, start[k], reg.signer);
    }
  }

  lemma AllowanceStep(ds: seq<DescriptorStatus>, i: nat, late: bool)
    requires i < |ds|
    ensures Allowance(ds[..i + 1], late) == Allowance(ds[..i], late) + Allowed(ds[i], late)
    ensures Allowance(ds[..i], late) <= Allowance(ds[..i], true)
  {
    assert ds[..i + 1][..i] == ds[..i];
    AllowanceGrows(ds[..i], late);
  }

  /** The keys of an app that was not attached. */
  method MarkRest(rec: Record, mark: DescriptorStatus) returns (r: Record)
    requires Shaped(rec)
    ensures Shaped(r) && r.target == rec.target && r.status == rec.status
    ensures forall i :: 0 <= i < 9 ==> r.descriptors[i] == if Open(rec.descriptors[i]) then mark else rec.descriptors[i]
  {
    r := rec;
    for i := 0 to 9
      invariant Shaped(r) && r.target == rec.target && r.status == rec.status
      invariant forall j :: 0 <= j < 9 ==>
                  r.descriptors[j] == if j < i && Open(rec.descriptors[j]) then mark else rec.descriptors[j]
    {
      if Open(r.descriptors[i]) {
        r := r.(descriptors := r.descriptors[i := mark]);
      }
    }
  }

  /** The not-ready keys of an app that was planned under another admin and has been handed
      to the signer since. */
  function LateWrites(rec: Record, a: App, k: nat, gained: set<nat>, signer: string): nat {
    if rec.status == AppSkippedExisting && AdminMismatch(a, signer) && k in gained then 9 else 0
  }

  /** The dry run of one app ends in a failure. */
  ghost predicate DryTurnFails(a: App, target: seq<int>, signer: string)
    requires |a.copy| == |target| == 9
  {
    if a.attached == Lite then !CanAttach(a, signer) else DryRunFails(a, target, signer)
  }

  /** The dry run of an app foretells how its turn ends exactly if the signer is not the admin,
      or a lite app needs one pass, or an attached one needs two or no new floor exceeds a
      current limit. */
  lemma DryTurnForetellsIff(a: App, target: seq<int>, signer: string, defaults: seq<int>)
    requires ValidApp(a) && ValidRow(defaults) && InLoop(a, target, signer)
    ensures (DryTurnFails(a, target, signer) <==> Fails(a, target, signer, defaults)) <==>
              || a.admin != signer
              || (a.attached == Lite && !Hard(Attach(a, defaults), target))
              || (a.attached == Here && (Hard(a, target) || !FloorAboveCurrentLimit(a, target)))
  {
    if a.attached == Lite {
      if a.admin == signer {
        OnePassSufficesIff(Attach(a, defaults), target, signer);
      } else {
        PassWithoutAttach(a, target, signer);
      }
    } else if a.admin == signer {
      DryRunForetellsIff(a, target, signer);
    } else {
      StrangerChangesNothing(a, target, signer, 9);
      forall i: nat | i < 9 ensures DryRefused(a, target, i, signer) <==> a.copy[i] != Some(target[i]) {}
      if !AtTarget(a, target) {
        var i: nat :| i < 9 && a.copy[i] != Some(target[i]);
        assert DryRefused(a, target, i, signer);
      }
    }
  }

  /** One app: attach step and lane.  It sends at most what the plan counted, and nine more
      if the app was handed over. */
  method ExecuteApp(reg: Registry, k: nat, rec: Record, ghost seen: App, dryRun: bool, quiet: bool) returns (r: Record)
    requires reg.Valid() && k < |reg.apps| && PlannedFor(rec, seen, reg.signer)
    requires AdminMismatch(seen, reg.signer) ==> reg.Watched(k)
    requires rec.status in {AppPlanned, AppSkippedExisting}
    modifies reg
    ensures reg.Valid() && reg.Since(old(reg.apps), old(reg.gained), old(reg.sent))
    ensures Shaped(r) && r.target == rec.target
    ensures reg.sent <= old(reg.sent) + PlannedWrites(rec) + LateWrites(rec, seen, k, reg.gained, reg.signer)
    ensures dryRun ==> reg.sent == old(reg.sent)
    ensures dryRun && quiet ==> reg.apps == old(reg.apps)
    ensures dryRun && quiet && PlannedExactly(rec, reg.apps[k], reg.signer) ==>
              (RecordFailed(r) <==> DryTurnFails(reg.apps[k], rec.target, reg.signer))
    ensures quiet ==> reg.gained == old(reg.gained)
    ensures quiet && !dryRun && PlannedExactly(rec, old(reg.apps[k]), reg.signer) ==>
              && ValidRow(rec.target)
              && reg.apps == old(reg.apps)[k := Process(old(reg.apps[k]), rec.target, reg.signer, reg.defaults)]
              && reg.sent == old(reg.sent) + TurnWrites(old(reg.apps[k]), rec.target, reg.signer, reg.defaults)
              && (RecordFailed(r) <==> !AtTarget(reg.apps[k], rec.target))
    ensures quiet && !dryRun && rec.status == AppSkippedExisting && SkipsAreRight(rec, old(reg.apps[k])) ==>
              reg.sent == old(reg.sent) + Writes(old(reg.apps[k]), rec.target, reg.signer, 9)
  {
    r := rec;
    if rec.status == AppPlanned {
      r := ExecutePlanned(reg, k, rec, dryRun, quiet);
    } else {
      AllowanceIs(rec.descriptors, AdminMismatch(seen, reg.signer), false);
      AllowanceIs(rec.descriptors, AdminMismatch(seen, reg.signer), true);
      r := ExecuteLane(reg, k, rec, dryRun, quiet);
    }
  }

  /** A planned app: the lane follows only if the attach step succeeded. */
  method ExecutePlanned(reg: Registry, k: nat, rec: Record, dryRun: bool, quiet: bool) returns (r: Record)
    requires reg.Valid() && k < |reg.apps| && Shaped(rec) && rec.status == AppPlanned
    requires forall i :: 0 <= i < 9 ==> rec.descriptors[i] == Pending
    modifies reg
    ensures reg.Valid() && reg.Since(old(reg.apps), old(reg.gained), old(reg.sent))
    ensures Shaped(r) && r.target == rec.target
    ensures reg.sent <= old(reg.sent) + 10
    ensures dryRun ==> reg.sent == old(reg.sent)
    ensures dryRun && quiet ==> reg.apps == old(reg.apps)
    ensures dryRun && quiet && reg.apps[k].attached == Lite ==>
              (RecordFailed(r) <==> !CanAttach(reg.apps[k], reg.signer))
    ensures quiet ==> reg.gained == old(reg.gained)
    ensures quiet && !dryRun && old(reg.apps[k]).attached == Lite && ValidRow(rec.target) ==>
              && reg.apps == old(reg.apps)[k := Process(old(reg.apps[k]), rec.target, reg.signer, reg.defaults)]
              && reg.sent == old(reg.sent) + TurnWrites(old(reg.apps[k]), rec.target, reg.signer, reg.defaults)
              && (RecordFailed(r) <==> !AtTarget(reg.apps[k], rec.target))
  {
    ghost var a := reg.apps[k];
    var status, attachReady := ExecuteAttach(reg, k, dryRun, quiet);
    r := rec.(status := status);
    if attachReady {
      AllowanceGrows(r.descriptors, false);
      r := ExecuteLane(reg, k, r, dryRun, quiet);
    } else {
      var mark := if dryRun && r.status == AppPlanned then Planned else NotReady;
      r := MarkRest(r, mark);
      if !dryRun && a.attached == Lite && ValidRow(rec.target) {
        PassWithoutAttach(a, rec.target, reg.signer);
      }
    }
  }

  /** A row without an engine takes no writes. */
  lemma PassWithoutAttach(a: App, target: seq<int>, signer: string)
    requires ValidApp(a) && |target| == 9 && a.attached == Lite
    ensures Pass(a, target, signer) == a && !AtTarget(a, target) && Writes(a, target, signer, 9) == 0
  {
    forall k: nat | k <= 9 ensures Writes(a, target, signer, k) == 0 {
      NothingWithoutEngine(a, target, signer, k);
    }
    NoWritesNoChange(a, target, signer, 9);
    assert a.copy[0] == None;
  }

  lemma {:induction false} NothingWithoutEngine(a: App, target: seq<int>, signer: string, k: nat)
    requires |a.copy| == 9 && |target| == 9 && a.attached == Lite && k <= 9
    ensures Writes(a, target, signer, k) == 0
  {
    if k > 0 { NothingWithoutEngine(a, target, signer, k - 1); }
  }

  /** The count is no bound in general: hand an attached app of another admin to the signer
      between plan and execution, and though nothing was counted for it the undisturbed
      lane sends its writes, some exactly if the app is not at its target. */
  method PlanHandOverExecute(reg: Registry, k: nat, rec: Record) returns (counted: nat, r: Record)
    requires reg.Valid() && k < |reg.apps| && Shaped(rec) && ValidRow(rec.target)
    requires rec.status == AppPending && forall i :: 0 <= i < 9 ==> rec.descriptors[i] == Pending
    requires reg.apps[k].registered && reg.apps[k].attached == Here && AdminMismatch(reg.apps[k], reg.signer)
    modifies reg
    ensures counted == 0
    ensures reg.sent == old(reg.sent) + Writes(old(reg.apps[k]).(admin := reg.signer), rec.target, reg.signer, 9)
    ensures reg.sent > old(reg.sent) <==> !AtTarget(old(reg.apps[k]), rec.target)
  {
    ghost var a := reg.apps[k];
    var planned, seen := PlanApp(reg, k, rec, true);
    AllowanceIs(planned.descriptors, true, false);
    AllowanceOfNotReady(planned.descriptors);
    counted := PlannedWrites(planned);
    reg.HandOver(k);
    PassWritesIff(a.(admin := reg.signer), rec.target, reg.signer);
    r := ExecuteApp(reg, k, planned, seen, false, true);
  }

  lemma {:induction false} AllowanceOfNotReady(ds: seq<DescriptorStatus>)
    requires forall i :: 0 <= i < |ds| ==> ds[i] == NotReady
    ensures Allowance(ds, false) == 0
  {
    if ds != [] { AllowanceOfNotReady(ds[..|ds| - 1]); }
  }

  // ---------- The run ----------

  function TotalPlanned(recs: seq<Record>): nat {
    if recs == [] then 0 else TotalPlanned(recs[..|recs| - 1]) + PlannedWrites(recs[|recs| - 1])
  }

  /** The late writes of the first n records. */
  function TotalLate(recs: seq<Record>, seen: seq<App>, n: nat, gained: set<nat>, signer: string): nat
    requires n <= |recs| == |seen|
  {
    if n == 0 then 0
    else TotalLate(recs, seen, n - 1, gained, signer) + LateWrites(recs[n - 1], seen[n - 1], n - 1, gained, signer)
  }

  /** The apps among the first n that were attached under another admin when the plan looked,
      and have been handed to the signer since. */
  ghost function HandedOver(recs: seq<Record>, seen: seq<App>, n: nat, gained: set<nat>, signer: string): set<nat>
    requires n <= |recs| == |seen|
  {
    set k: nat | k < n && k in gained && recs[k].status == AppSkippedExisting && AdminMismatch(seen[k], signer)
  }

  /** Each of them may send nine. */
  lemma {:induction false} NineEach(recs: seq<Record>, seen: seq<App>, n: nat, gained: set<nat>, signer: string)
    requires n <= |recs| == |seen|
    ensures TotalLate(recs, seen, n, gained, signer) == 9 * |HandedOver(recs, seen, n, gained, signer)|
  {
    if n == 0 {
      assert HandedOver(recs, seen, n, gained, signer) == {};
    } else {
      NineEach(recs, seen, n - 1, gained, signer);
      var before := HandedOver(recs, seen, n - 1, gained, signer);
      if LateWrites(recs[n - 1], seen[n - 1], n - 1, gained, signer) > 0 {
        assert HandedOver(recs, seen, n, gained, signer) == before + {n - 1};
      } else {
        assert HandedOver(recs, seen, n, gained, signer) == before;
      }
    }
  }

  /** No app that was attached under another admin when the plan looked has been handed to the signer. */
  ghost predicate NoneHandedOver(recs: seq<Record>, seen: seq<App>, gained: set<nat>, signer: string)
    requires |recs| == |seen|
  {
    forall k :: 0 <= k < |recs| && k in gained ==>
      !(recs[k].status == AppSkippedExisting && AdminMismatch(seen[k], signer))
  }

  lemma {:induction false} NothingLate(recs: seq<Record>, seen: seq<App>, n: nat, gained: set<nat>, signer: string)
    requires n <= |recs| == |seen| && NoneHandedOver(recs, seen, gained, signer)
    ensures TotalLate(recs, seen, n, gained, signer) == 0
  {
    if n > 0 { NothingLate(recs, seen, n - 1, gained, signer); }
  }

  lemma {:induction false} LateGrows(recs: seq<Record>, seen: seq<App>, n: nat, gained: set<nat>, more: set<nat>,
                                     signer: string)
    requires n <= |recs| == |seen| && gained <= more
    ensures TotalLate(recs, seen, n, gained, signer) <= TotalLate(recs, seen, n, more, signer)
                <= TotalLate(recs, seen, |recs|, more, signer)
  {
    if n > 0 { LateGrows(recs, seen, n - 1, gained, more, signer); }
    LateMonotone(recs, seen, n, more, signer);
  }

  lemma {:induction false} LateMonotone(recs: seq<Record>, seen: seq<App>, n: nat, gained: set<nat>, signer: string)
    requires n <= |recs| == |seen|
    ensures TotalLate(recs, seen, n, gained, signer) <= TotalLate(recs, seen, |recs|, gained, signer)
    decreases |recs| - n
  {
    if n < |recs| { LateMonotone(recs, seen, n + 1, gained, signer); }
  }

  /** The target a record pursues; an invalid manifest entry pursues none. */
  function TargetsOf(recs: seq<Record>): seq<seq<int>> {
    seq(|recs|, k requires 0 <= k < |recs| => PursuedTarget(recs[k]))
  }

  function PursuedTarget(rec: Record): seq<int> {
    if rec.status == AppInvalid then [] else rec.target
  }

  ghost predicate Classified(recs: seq<Record>) {
    forall k :: 0 <= k < |recs| ==> Shaped(recs[k]) && (recs[k].status == AppInvalid || Fresh(recs[k]))
  }

  ghost predicate Fresh(rec: Record)
    requires Shaped(rec)
  {
    rec.status == AppPending && ValidRow(rec.target) && forall i :: 0 <= i < 9 ==> rec.descriptors[i] == Pending
  }

  ghost predicate PlannedLike(rec: Record, planned: Record, a: App, signer: string, quiet: bool)
    requires ValidApp(a)
  {
    && (rec.status == AppInvalid ==> planned == rec)
    && (rec.status != AppInvalid ==>
          && PlannedFor(planned, a, signer) && planned.target == rec.target && planned.status != AppInvalid
          && (quiet ==> PlannedExactly(planned, a, signer)))
  }

  /** The planned report, with the rows the plan went by. */
  ghost predicate RowsPlanned(recs: seq<Record>, planned: seq<Record>, seen: seq<App>, signer: string, quiet: bool) {
    && |recs| == |planned| == |seen|
    && forall k :: 0 <= k < |seen| ==> ValidApp(seen[k]) && PlannedLike(recs[k], planned[k], seen[k], signer, quiet)
  }

  /** Every app whose row was seen under another admin can be written only if handed over. */
  ghost predicate AllWatched(reg: Registry, seen: seq<App>)
    reads reg
  {
    forall k :: 0 <= k < |seen| && AdminMismatch(seen[k], reg.signer) ==> reg.Watched(k)
  }

  lemma RowsMore(recs: seq<Record>, planned: seq<Record>, seen: seq<App>, rec: Record, plan: Record, a: App,
                 signer: string, quiet: bool)
    requires RowsPlanned(recs, planned, seen, signer, quiet)
    requires ValidApp(a) && PlannedLike(rec, plan, a, signer, quiet)
    ensures RowsPlanned(recs + [rec], planned + [plan], seen + [a], signer, quiet)
  {}

  method PlanApps(reg: Registry, report: array<Record>, quiet: bool) returns (ghost seen: seq<App>)
    requires reg.Valid() && |reg.apps| == report.Length && Classified(report[..])
    modifies reg`apps, reg`gained, reg`trace, report
    ensures reg.Valid() && reg.Since(old(reg.apps), old(reg.gained), reg.sent)
    ensures RowsPlanned(old(report[..]), report[..], seen, reg.signer, quiet) && AllWatched(reg, seen)
    ensures quiet ==> seen == reg.apps == old(reg.apps) && reg.gained == old(reg.gained)
  {
    seen := [];
    for i := 0 to report.Length
      invariant reg.Valid() && reg.Since(old(reg.apps), old(reg.gained), reg.sent)
      invariant |seen| == i && AllWatched(reg, seen)
      invariant forall k :: i <= k < report.Length ==> report[k] == old(report[k])
      invariant RowsPlanned(old(report[..])[..i], report[..i], seen, reg.signer, quiet)
      invariant quiet ==> forall k :: 0 <= k < i ==> seen[k] == reg.apps[k]
      invariant quiet ==> reg.apps == old(reg.apps) && reg.gained == old(reg.gained)
    {
      assert report[i] == old(report[..])[i];
      ghost var row := reg.apps[i];
      if report[i].status == AppPending {
        var rec;
        rec, row := PlanApp(reg, i, report[i], quiet);
        report[i] := rec;
      }
      RowsMore(old(report[..])[..i], report[..i], seen, old(report[..])[i], report[i], row, reg.signer, quiet);
      assert old(report[..])[..i + 1] == old(report[..])[..i] + [old(report[..])[i]];
      assert report[..i + 1] == report[..i] + [report[i]];
      seen := seen + [row];
    }
  }

  ghost function With(ds: seq<DescriptorStatus>, status: DescriptorStatus, n: nat): set<nat>
    requires n <= |ds|
  {
    set i: nat | i < n && ds[i] == status
  }

  lemma WithStep(ds: seq<DescriptorStatus>, status: DescriptorStatus, n: nat)
    requires n < |ds|
    ensures |With(ds, status, n + 1)| == |With(ds, status, n)| + if ds[n] == status then 1 else 0
  {
    if ds[n] == status {
      assert With(ds, status, n + 1) == With(ds, status, n) + {n};
    } else {
      assert With(ds, status, n + 1) == With(ds, status, n);
    }
  }

  lemma {:induction false} CountIs(ds: seq<DescriptorStatus>, status: DescriptorStatus, n: nat)
    requires n <= |ds|
    ensures Count(ds[..n], status) == |With(ds, status, n)|
  {
    if n > 0 {
      CountIs(ds, status, n - 1);
      WithStep(ds, status, n - 1);
      assert ds[..n][..n - 1] == ds[..n - 1];
    }
  }

  /** On a quiet chain the plan counts for a record what its row needs. */
  lemma CountIsNeeded(rec: Record, planned: Record, a: App, signer: string)
    requires ValidApp(a) && Shaped(rec) && (rec.status == AppInvalid || Fresh(rec))
    requires PlannedLike(rec, planned, a, signer, true)
    ensures PlannedWrites(planned) == Needed(a, PursuedTarget(rec), signer)
  {
    if planned.status == AppSkippedExisting {
      var ds := planned.descriptors;
      CountIs(ds, Planned, 9);
      assert ds[..9] == ds;
      if AdminMismatch(a, signer) {
        assert With(ds, Planned, 9) == {};
      } else {
        assert With(ds, Planned, 9) == set i: nat | i < 9 && a.copy[i] != Some(rec.target[i]);
      }
    }
  }

  lemma {:induction false} NeededSnoc(apps: seq<App>, targets: seq<seq<int>>, a: App, target: seq<int>, signer: string)
    requires |apps| == |targets| && |a.copy| == 9 && forall k :: 0 <= k < |apps| ==> |apps[k].copy| == 9
    ensures TotalNeeded(apps + [a], targets + [target], signer)
         == TotalNeeded(apps, targets, signer) + Needed(a, target, signer)
  {
    if apps == [] {
      assert apps + [a] == [a] && targets + [target] == [target];
      assert TotalNeeded([a][1..], [target][1..], signer) == 0;
    } else {
      assert (apps + [a])[1..] == apps[1..] + [a] && (targets + [target])[1..] == targets[1..] + [target];
      NeededSnoc(apps[1..], targets[1..], a, target, signer);
    }
  }

  ghost predicate CountedRows(planned: seq<Record>, apps: seq<App>, targets: seq<seq<int>>, signer: string) {
    && |planned| == |apps| == |targets|
    && forall k :: 0 <= k < |apps| ==>
         |apps[k].copy| == 9 && PlannedWrites(planned[k]) == Needed(apps[k], targets[k], signer)
  }

  lemma {:induction false} TotalIsNeeded(planned: seq<Record>, apps: seq<App>, targets: seq<seq<int>>, n: nat,
                                         signer: string)
    requires CountedRows(planned, apps, targets, signer) && n <= |apps|
    ensures TotalPlanned(planned[..n]) == TotalNeeded(apps[..n], targets[..n], signer)
  {
    if n > 0 {
      TotalIsNeeded(planned, apps, targets, n - 1, signer);
      TotalGrows(planned, n - 1);
      assert apps[..n] == apps[..n - 1] + [apps[n - 1]];
      assert targets[..n] == targets[..n - 1] + [targets[n - 1]];
      NeededSnoc(apps[..n - 1], targets[..n - 1], apps[n - 1], targets[n - 1], signer);
    }
  }

  lemma AllCounted(recs: seq<Record>, planned: seq<Record>, apps: seq<App>, signer: string)
    requires Classified(recs) && RowsPlanned(recs, planned, apps, signer, true)
    ensures CountedRows(planned, apps, TargetsOf(recs), signer)
  {
    forall k | 0 <= k < |apps| ensures PlannedWrites(planned[k]) == Needed(apps[k], TargetsOf(recs)[k], signer) {
      CountIsNeeded(recs[k], planned[k], apps[k], signer);
    }
  }

  method CountTransactions(report: array<Record>) returns (txCount: nat)
    ensures txCount == TotalPlanned(report[..])
  {
    txCount := 0;
    for i := 0 to report.Length
      invariant txCount == TotalPlanned(report[..i])
    {
      assert report[..i + 1][..i] == report[..i];
      match report[i].status {
        case AppPlanned => txCount := txCount + 1 + |report[i].descriptors|;
        case AppSkippedExisting =>
          var planned := 0;
          for j := 0 to |report[i].descriptors|
            invariant planned == Count(report[i].descriptors[..j], Planned)
          {
            assert report[i].descriptors[..j + 1][..j] == report[i].descriptors[..j];
            if report[i].descriptors[j] == Planned { planned := planned + 1; }
          }
          assert report[i].descriptors[..|report[i].descriptors|] == report[i].descriptors;
          txCount := txCount + planned;
        case _ =>
      }
    }
    assert report[..report.Length] == report[..];
  }

  /** One turn of the execution loop. */
  method Turn(reg: Registry, report: array<Record>, i: nat, ghost seen: App, failures: nat, dryRun: bool, quiet: bool)
    returns (failures': nat)
    requires reg.Valid() && i < report.Length == |reg.apps|
    requires report[i].status == AppInvalid || PlannedFor(report[i], seen, reg.signer)
    requires AdminMismatch(seen, reg.signer) ==> reg.Watched(i)
    modifies reg, report
    ensures reg.Valid() && reg.Since(old(reg.apps), old(reg.gained), old(reg.sent))
    ensures forall k :: 0 <= k < report.Length && k != i ==> report[k] == old(report[k])
    ensures reg.sent <= old(reg.sent) + PlannedWrites(old(report[i]))
                          + LateWrites(old(report[i]), seen, i, reg.gained, reg.signer)
    ensures dryRun ==> reg.sent == old(reg.sent)
    ensures dryRun && quiet ==> reg.apps == old(reg.apps)
    ensures dryRun && quiet
            && old(report[i]).status != AppInvalid && PlannedExactly(old(report[i]), reg.apps[i], reg.signer) ==>
              var target := old(report[i]).target;
              failures' == if !InLoop(reg.apps[i], target, reg.signer) then failures
                           else if DryTurnFails(reg.apps[i], target, reg.signer) then failures + 1 else 0
    ensures quiet ==> reg.gained == old(reg.gained)
    ensures quiet && !dryRun
            && (old(report[i]).status == AppInvalid || PlannedExactly(old(report[i]), old(reg.apps[i]), reg.signer)) ==>
              var target := PursuedTarget(old(report[i]));
              if InLoop(old(reg.apps[i]), target, reg.signer)
              then
                && reg.apps == old(reg.apps)[i := Process(old(reg.apps[i]), target, reg.signer, reg.defaults)]
                && reg.sent == old(reg.sent) + TurnWrites(old(reg.apps[i]), target, reg.signer, reg.defaults)
                && failures' == if AtTarget(reg.apps[i], target) then 0 else failures + 1
              else reg.apps == old(reg.apps) && reg.sent == old(reg.sent) && failures' == failures
  {
    failures' := failures;
    if report[i].status == AppPlanned || report[i].status == AppSkippedExisting {
      var rec := ExecuteApp(reg, i, report[i], seen, dryRun, quiet);
      report[i] := rec;
      failures' := if RecordFailed(rec) then failures + 1 else 0;
    }
  }

  /** A run over the whole report.  It sends at most the planned number of transactions, and
      nine more for every app that the plan saw attached under another admin and that was
      handed to the signer since; none in dry-run.  Undisturbed, a write run does to the
      chain exactly what `RunFrom` says, aborts included. */
  method Run(reg: Registry, report: array<Record>, dryRun: bool, quiet: bool)
    returns (txCount: nat, aborted: bool, ghost planned: seq<Record>, ghost seen: seq<App>)
    requires reg.Valid() && |reg.apps| == report.Length && Classified(report[..])
    modifies reg, report
    ensures reg.Valid() && txCount == TotalPlanned(planned)
    ensures RowsPlanned(old(report[..]), planned, seen, reg.signer, quiet)
    ensures old(reg.sent) <= reg.sent <=
              old(reg.sent) + txCount + 9 * |HandedOver(planned, seen, |seen|, reg.gained, reg.signer)|
    ensures NoneHandedOver(planned, seen, reg.gained, reg.signer) ==> reg.sent <= old(reg.sent) + txCount
    ensures Noticed(old(reg.apps), reg.apps, reg.gained, reg.signer) && (quiet ==> reg.gained == {})
    ensures dryRun ==> reg.sent == old(reg.sent)
    ensures SimulatedFirst(reg.trace)
    ensures dryRun && quiet ==> reg.apps == old(reg.apps)
    ensures quiet ==> txCount == TotalNeeded(old(reg.apps), TargetsOf(old(report[..])), reg.signer)
    ensures quiet && !dryRun ==>
              RunResult(reg.apps, aborted, reg.sent - old(reg.sent))
                == RunFrom(old(reg.apps), TargetsOf(old(report[..])), 0, reg.signer, reg.defaults)
    ensures quiet && !dryRun && AllEasy(old(reg.apps), TargetsOf(old(report[..])), reg.signer, reg.defaults) ==>
              !aborted && reg.sent == old(reg.sent) + txCount
  {
    ghost var recs, apps := report[..], reg.apps;
    reg.gained := {};
    seen := PlanApps(reg, report, quiet);
    planned := report[..];
    ghost var afterPlan, gained := reg.apps, reg.gained;
    PlanIsKept(recs, planned, seen, reg.signer, quiet);
    txCount := CountTransactions(report);
    ghost var whole := RunFrom(seen, TargetsOf(recs), 0, reg.signer, reg.defaults);
    ContinuesFromStart(seen, TargetsOf(recs), reg.signer, reg.defaults);
    aborted := Execute(reg, report, seen, TargetsOf(recs), whole, dryRun, quiet);
    CountOfRun(recs, planned, seen, quiet, reg);
    NoticedTwice(apps, afterPlan, reg.apps, gained, reg.gained, reg.signer);
    NineEach(planned, seen, |seen|, reg.gained, reg.signer);
    if NoneHandedOver(planned, seen, reg.gained, reg.signer) {
      NothingLate(planned, seen, |seen|, reg.gained, reg.signer);
    }
  }

  ghost predicate PlanHolds(planned: seq<Record>, seen: seq<App>, targets: seq<seq<int>>, signer: string, quiet: bool)
    requires |seen| == |planned| == |targets| && forall k :: 0 <= k < |seen| ==> ValidApp(seen[k])
  {
    forall k :: 0 <= k < |planned| ==>
      && PursuedTarget(planned[k]) == targets[k]
      && (planned[k].status == AppInvalid || PlannedFor(planned[k], seen[k], signer))
      && (quiet ==> planned[k].status == AppInvalid || PlannedExactly(planned[k], seen[k], signer))
  }

  /** The count of a quiet run, and when it is sent in full. */
  lemma CountOfRun(recs: seq<Record>, planned: seq<Record>, apps: seq<App>, quiet: bool, reg: Registry)
    requires reg.Valid() && Classified(recs) && RowsPlanned(recs, planned, apps, reg.signer, quiet)
    ensures quiet ==> TotalPlanned(planned) == TotalNeeded(apps, TargetsOf(recs), reg.signer)
    ensures quiet && AllEasy(apps, TargetsOf(recs), reg.signer, reg.defaults) ==>
              var r := RunFrom(apps, TargetsOf(recs), 0, reg.signer, reg.defaults);
              !r.aborted && r.sent == TotalPlanned(planned)
  {
    if quiet {
      AllCounted(recs, planned, apps, reg.signer);
      TotalIsNeeded(planned, apps, TargetsOf(recs), |recs|, reg.signer);
      assert planned[..|recs|] == planned && apps[..|recs|] == apps && TargetsOf(recs)[..|recs|] == TargetsOf(recs);
      if AllEasy(apps, TargetsOf(recs), reg.signer, reg.defaults) {
        EasyRunSendsNeeded(apps, TargetsOf(recs), 0, reg.signer, reg.defaults);
      }
    }
  }

  lemma PlanIsKept(recs: seq<Record>, planned: seq<Record>, seen: seq<App>, signer: string, quiet: bool)
    requires RowsPlanned(recs, planned, seen, signer, quiet)
    ensures PlanHolds(planned, seen, TargetsOf(recs), signer, quiet)
  {}

  /** What the first i apps may send. */
  ghost function Budget(planned: seq<Record>, seen: seq<App>, i: nat, gained: set<nat>, signer: string): nat
    requires i <= |planned| == |seen|
  {
    TotalPlanned(planned[..i]) + TotalLate(planned, seen, i, gained, signer)
  }

  lemma BudgetStep(planned: seq<Record>, seen: seq<App>, i: nat, gained: set<nat>, more: set<nat>, signer: string)
    requires i < |planned| == |seen| && gained <= more
    ensures Budget(planned, seen, i, gained, signer) + PlannedWrites(planned[i])
              + LateWrites(planned[i], seen[i], i, more, signer)
            <= Budget(planned, seen, i + 1, more, signer)
  {
    TotalGrows(planned, i);
    LateGrows(planned, seen, i, gained, more, signer);
  }

  lemma BudgetAtMost(planned: seq<Record>, seen: seq<App>, i: nat, gained: set<nat>, signer: string)
    requires i <= |planned| == |seen|
    ensures Budget(planned, seen, i, gained, signer)
         <= TotalPlanned(planned) + TotalLate(planned, seen, |seen|, gained, signer)
  {
    TotalMonotone(planned, i);
    LateMonotone(planned, seen, i, gained, signer);
  }

  /** What an execution loop that began with these apps, hand-overs and transactions keeps. */
  ghost predicate Kept(reg: Registry, seen: seq<App>, apps: seq<App>, gained: set<nat>, sent: nat, dryRun: bool,
                       quiet: bool)
    reads reg
  {
    && reg.Valid() && reg.Since(apps, gained, sent) && AllWatched(reg, seen)
    && (dryRun ==> reg.sent == sent) && (dryRun && quiet ==> reg.apps == apps) && (quiet ==> reg.gained == gained)
  }

  /** The same turn, seen as the next step of the run `whole`. */
  method RunTurn(reg: Registry, report: array<Record>, i: nat, failures: nat, dryRun: bool, quiet: bool,
                 ghost whole: RunResult, ghost seen: seq<App>, ghost planned: seq<Record>, ghost targets: seq<seq<int>>,
                 ghost apps: seq<App>, ghost gained: set<nat>, ghost base: nat)
    returns (failures': nat)
    requires reg.Valid() && i < report.Length == |reg.apps| == |seen| == |planned| == |targets|
    requires (forall k :: 0 <= k < |seen| ==> ValidApp(seen[k])) && Kept(reg, seen, apps, gained, base, dryRun, quiet)
    requires PlanHolds(planned, seen, targets, reg.signer, quiet) && report[i] == planned[i]
    requires quiet && !dryRun ==>
               Continues(whole, reg.apps, seen, targets, i, failures, reg.signer, reg.defaults, reg.sent - base)
    requires reg.sent <= base + Budget(planned, seen, i, reg.gained, reg.signer)
    requires failures < MAX_CONSECUTIVE_FAILURES
    modifies reg, report
    ensures Kept(reg, seen, apps, gained, base, dryRun, quiet)
    ensures forall k :: 0 <= k < report.Length && k != i ==> report[k] == old(report[k])
    ensures reg.sent <= base + Budget(planned, seen, i + 1, reg.gained, reg.signer)
    ensures reg.sent <= base + TotalPlanned(planned) + TotalLate(planned, seen, |seen|, reg.gained, reg.signer)
    ensures quiet && !dryRun ==>
              if failures' >= MAX_CONSECUTIVE_FAILURES
              then whole == RunResult(reg.apps, true, reg.sent - base)
              else Continues(whole, reg.apps, seen, targets, i + 1, failures', reg.signer, reg.defaults,
                             reg.sent - base)
  {
    ghost var before, written, known := reg.apps, reg.sent - base, reg.gained;
    assert quiet && !dryRun ==> before[i..][0] == before[i] && seen[i..][0] == seen[i];
    failures' := Turn(reg, report, i, seen[i], failures, dryRun, quiet);
    NoticedTwice(apps, before, reg.apps, known, reg.gained, reg.signer);
    BudgetStep(planned, seen, i, known, reg.gained, reg.signer);
    BudgetAtMost(planned, seen, i + 1, reg.gained, reg.signer);
    if quiet && !dryRun {
      if InLoop(seen[i], targets[i], reg.signer) {
        ContinueProcess(whole, before, reg.apps, seen, targets, i, failures, reg.signer, reg.defaults, written);
      } else {
        ContinueSkip(whole, reg.apps, seen, targets, i, failures, reg.signer, reg.defaults, written);
      }
    }
  }

  /** The execution loop, undisturbed the run `whole`. */
  method Execute(reg: Registry, report: array<Record>, ghost seen: seq<App>, ghost targets: seq<seq<int>>,
                 ghost whole: RunResult, dryRun: bool, quiet: bool)
    returns (aborted: bool)
    requires reg.Valid() && |reg.apps| == report.Length == |seen| == |targets|
    requires (forall k :: 0 <= k < |seen| ==> ValidApp(seen[k])) && AllWatched(reg, seen)
    requires PlanHolds(report[..], seen, targets, reg.signer, quiet)
    requires quiet && !dryRun ==> Continues(whole, reg.apps, seen, targets, 0, 0, reg.signer, reg.defaults, 0)
    modifies reg, report
    ensures Kept(reg, seen, old(reg.apps), old(reg.gained), old(reg.sent), dryRun, quiet)
    ensures reg.sent <= old(reg.sent) + TotalPlanned(old(report[..]))
                          + TotalLate(old(report[..]), seen, |seen|, reg.gained, reg.signer)
    ensures quiet && !dryRun ==> whole == RunResult(reg.apps, aborted, reg.sent - old(reg.sent))
  {
    ghost var planned, apps, gained, sent := report[..], reg.apps, reg.gained, reg.sent;
    var consecutiveFailures: nat := 0;
    for i := 0 to report.Length
      invariant Kept(reg, seen, apps, gained, sent, dryRun, quiet)
      invariant forall k :: i <= k < report.Length ==> report[k] == planned[k]
      invariant reg.sent <= sent + Budget(planned, seen, i, reg.gained, reg.signer)
      invariant reg.sent <= sent + TotalPlanned(planned) + TotalLate(planned, seen, |seen|, reg.gained, reg.signer)
      invariant consecutiveFailures < MAX_CONSECUTIVE_FAILURES
      invariant quiet && !dryRun ==>
                  Continues(whole, reg.apps, seen, targets, i, consecutiveFailures, reg.signer, reg.defaults,
                            reg.sent - sent)
    {
      consecutiveFailures := RunTurn(reg, report, i, consecutiveFailures, dryRun, quiet, whole, seen, planned, targets,
                                     apps, gained, sent);
      if consecutiveFailures >= MAX_CONSECUTIVE_FAILURES {
        return true;
      }
    }
    if quiet && !dryRun {
      ContinuesToEnd(whole, reg.apps, seen, targets, consecutiveFailures, reg.signer, reg.defaults,
                     reg.sent - sent);
    }
    return false;
  }

  /** The loop has done the first `i` apps of the run `whole`; the rest is still to come. */
  ghost predicate Continues(whole: RunResult, now: seq<App>, apps: seq<App>, targets: seq<seq<int>>, i: nat, c: nat,
                            signer: string, defaults: seq<int>, written: int)
    requires i <= |apps| == |targets| && forall k :: 0 <= k < |apps| ==> ValidApp(apps[k])
  {
    var rest := RunFrom(apps[i..], targets[i..], c, signer, defaults);
    && |now| == |apps|
    && now[i..] == apps[i..]
    && whole == RunResult(now[..i] + rest.apps, rest.aborted, whole.sent) && whole.sent == written + rest.sent
  }

  lemma ContinuesFromStart(apps: seq<App>, targets: seq<seq<int>>, signer: string, defaults: seq<int>)
    requires |apps| == |targets| && forall k :: 0 <= k < |apps| ==> ValidApp(apps[k])
    ensures Continues(RunFrom(apps, targets, 0, signer, defaults), apps, apps, targets, 0, 0, signer, defaults, 0)
  {
    assert apps[0..] == apps && targets[0..] == targets;
  }

  lemma ContinuesToEnd(whole: RunResult, now: seq<App>, apps: seq<App>, targets: seq<seq<int>>, c: nat, signer: string,
                       defaults: seq<int>, written: int)
    requires |apps| == |targets| && forall k :: 0 <= k < |apps| ==> ValidApp(apps[k])
    requires Continues(whole, now, apps, targets, |apps|, c, signer, defaults, written)
    ensures whole == RunResult(now, false, written)
  {
    assert now[..|apps|] == now;
  }

  lemma ContinueSkip(whole: RunResult, now: seq<App>, apps: seq<App>, targets: seq<seq<int>>, i: nat, c: nat,
                     signer: string, defaults: seq<int>, written: int)
    requires i < |apps| == |targets| && forall k :: 0 <= k < |apps| ==> ValidApp(apps[k])
    requires Continues(whole, now, apps, targets, i, c, signer, defaults, written)
    requires !InLoop(apps[i], targets[i], signer)
    ensures Continues(whole, now, apps, targets, i + 1, c, signer, defaults, written)
  {
    assert apps[i..][1..] == apps[i + 1..] && targets[i..][1..] == targets[i + 1..] && now[i..][1..] == now[i + 1..];
    var rest := RunFrom(apps[i + 1..], targets[i + 1..], c, signer, defaults);
    assert now[i..][0] == now[i] && apps[i..][0] == apps[i];
    assert now[..i] + ([now[i]] + rest.apps) == now[..i + 1] + rest.apps;
  }

  lemma ContinueProcess(whole: RunResult, now: seq<App>, now': seq<App>, apps: seq<App>, targets: seq<seq<int>>, i: nat,
                        c: nat, signer: string, defaults: seq<int>, written: int)
    requires i < |apps| == |targets| && forall k :: 0 <= k < |apps| ==> ValidApp(apps[k])
    requires Continues(whole, now, apps, targets, i, c, signer, defaults, written)
    requires InLoop(apps[i], targets[i], signer)
    requires now' == now[i := Process(apps[i], targets[i], signer, defaults)]
    ensures var c' := if AtTarget(now'[i], targets[i]) then 0 else c + 1;
            var written' := written + TurnWrites(apps[i], targets[i], signer, defaults);
            if c' >= MAX_CONSECUTIVE_FAILURES then whole.apps == now' && whole.aborted && whole.sent == written'
            else Continues(whole, now', apps, targets, i + 1, c', signer, defaults, written')
  {
    var c' := if AtTarget(now'[i], targets[i]) then 0 else c + 1;
    assert apps[i..][1..] == apps[i + 1..] && targets[i..][1..] == targets[i + 1..] && now[i..][1..] == now[i + 1..];
    assert now'[i + 1..] == now[i + 1..] && now'[..i] == now[..i];
    if c' >= MAX_CONSECUTIVE_FAILURES {
      assert now' == now[..i] + ([now'[i]] + apps[i + 1..]);
    } else {
      var rest := RunFrom(apps[i + 1..], targets[i + 1..], c', signer, defaults);
      assert now'[..i] + ([now'[i]] + rest.apps) == now'[..i + 1] + rest.apps;
    }
  }

  lemma TotalGrows(recs: seq<Record>, i: nat)
    requires i < |recs|
    ensures TotalPlanned(recs[..i + 1]) == TotalPlanned(recs[..i]) + PlannedWrites(recs[i])
  {
    assert recs[..i + 1][..i] == recs[..i];
  }

  lemma {:induction false} TotalMonotone(recs: seq<Record>, i: nat)
    requires i <= |recs|
    ensures TotalPlanned(recs[..i]) <= TotalPlanned(recs)
    decreases |recs| - i
  {
    if i < |recs| {
      TotalGrows(recs, i);
      TotalMonotone(recs, i + 1);
    } else {
      assert recs[..i] == recs;
    }
  }
}
