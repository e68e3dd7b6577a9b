/** Whole runs of the reconciler over all manifest apps, with the abort after five
    consecutive failing apps, and how many runs it takes to converge. */
module Fleet {
  import opened Descriptors
  import opened Wrappers

  const MAX_CONSECUTIVE_FAILURES := 5

  predicate AdminMismatch(a: App, signer: string) {
    a.admin != "" && a.admin != signer
  }

  /** The plan leaves an app in the execution loop: "planned" or "skipped-existing". */
  predicate InLoop(a: App, target: seq<int>, signer: string) {
    ValidRow(target) && a.registered && (a.attached == Here || (a.attached == Lite && !AdminMismatch(a, signer)))
  }

  predicate CanAttach(a: App, signer: string) {
    a.registered && a.attached == Lite && a.admin == signer
  }

  function AfterAttach(a: App, signer: string, defaults: seq<int>): App
    requires |a.copy| == 9
  {
    if CanAttach(a, signer) then Attach(a, defaults) else a
  }

  /** One app's turn: attach when it is a lite row, then one pass of writes. */
  function Process(a: App, target: seq<int>, signer: string, defaults: seq<int>): App
    requires ValidApp(a) && ValidRow(target)
  {
    Pass(AfterAttach(a, signer, defaults), target, signer)
  }

  /** The transactions of one turn: the attach and the writes. */
  function TurnWrites(a: App, target: seq<int>, signer: string, defaults: seq<int>): nat
    requires ValidApp(a) && ValidRow(target)
  {
    (if CanAttach(a, signer) then 1 else 0) + Writes(AfterAttach(a, signer, defaults), target, signer, 9)
  }

  datatype RunResult = RunResult(apps: seq<App>, aborted: bool, sent: nat)

  /** The execution loop from the first app on, after `c` consecutive failures. */
  function RunFrom(apps: seq<App>, targets: seq<seq<int>>, c: nat, signer: string, defaults: seq<int>): (r: RunResult)
    requires |apps| == |targets| && forall k :: 0 <= k < |apps| ==> ValidApp(apps[k])
    ensures |r.apps| == |apps|
  {
    if apps == [] then RunResult([], false, 0)
    else if !InLoop(apps[0], targets[0], signer) then
      var rest := RunFrom(apps[1..], targets[1..], c, signer, defaults);
      RunResult([apps[0]] + rest.apps, rest.aborted, rest.sent)
    else
      var a := Process(apps[0], targets[0], signer, defaults);
      var c' := if AtTarget(a, targets[0]) then 0 else c + 1;
      var sent := TurnWrites(apps[0], targets[0], signer, defaults);
      if c' >= MAX_CONSECUTIVE_FAILURES then RunResult([a] + apps[1..], true, sent)
      else
        var rest := RunFrom(apps[1..], targets[1..], c', signer, defaults);
        RunResult([a] + rest.apps, rest.aborted, sent + rest.sent)
  }

  // ---------- What one turn does ----------

  predicate ValidFleet(apps: seq<App>, targets: seq<seq<int>>, defaults: seq<int>) {
    |apps| == |targets| && ValidRow(defaults) && forall k :: 0 <= k < |apps| ==> ValidApp(apps[k])
  }

  /** An app in the loop that the signer does not administer: no run changes it. */
  predicate Stuck(a: App, target: seq<int>, signer: string) {
    InLoop(a, target, signer) && a.admin != signer && !AtTarget(a, target)
  }

  /** The app needs a second pass. */
  predicate HardApp(a: App, target: seq<int>, signer: string, defaults: seq<int>)
    requires ValidApp(a) && ValidRow(defaults)
  {
    InLoop(a, target, signer) && a.admin == signer && Hard(AfterAttach(a, signer, defaults), target)
  }

  /** The turn of an app in the loop ends in a failure. */
  predicate Fails(a: App, target: seq<int>, signer: string, defaults: seq<int>)
    requires ValidApp(a) && ValidRow(target)
  {
    !AtTarget(Process(a, target, signer, defaults), target)
  }

  /** A turn fails exactly for stuck and hard apps; a stuck app stays as it is, no app stays
      hard, and the app stays in the loop under its admin. */
  lemma ProcessOutcome(a: App, target: seq<int>, signer: string, defaults: seq<int>)
    requires ValidApp(a) && InLoop(a, target, signer) && ValidRow(defaults)
    ensures var b := Process(a, target, signer, defaults);
            && ValidApp(b) && InLoop(b, target, signer) && b.admin == a.admin && !HardApp(b, target, signer, defaults)
            && (Stuck(b, target, signer) <==> Stuck(a, target, signer))
            && (Fails(a, target, signer, defaults)
                <==> Stuck(a, target, signer) || HardApp(a, target, signer, defaults))
            && (a.admin != signer ==> b == a)
  {
    if a.admin == signer {
      OnePassSufficesIff(AfterAttach(a, signer, defaults), target, signer);
    } else {
      StrangerChangesNothing(a, target, signer, 9);
    }
  }

  lemma TargetStays(a: App, target: seq<int>, signer: string, defaults: seq<int>)
    requires ValidApp(a) && InLoop(a, target, signer) && AtTarget(a, target)
    ensures Process(a, target, signer, defaults) == a
  {
    assert a.copy[0].Some?;
    AtTargetIsStable(a, target, signer, 9);
  }

  // ---------- How far a run gets ----------

  /** The consecutive failures counted when the loop comes to position p, if it started with
      c and did not abort. */
  function FailRun(apps: seq<App>, targets: seq<seq<int>>, p: nat, c: nat, signer: string, defaults: seq<int>): nat
    requires ValidFleet(apps, targets, defaults) && p <= |apps|
  {
    if p == 0 then c
    else
      var before := FailRun(apps, targets, p - 1, c, signer, defaults);
      if !InLoop(apps[p - 1], targets[p - 1], signer) then before
      else if Fails(apps[p - 1], targets[p - 1], signer, defaults) then before + 1 else 0
  }

  /** The loop comes to position p without aborting. */
  ghost predicate Reaches(apps: seq<App>, targets: seq<seq<int>>, p: nat, c: nat, signer: string, defaults: seq<int>)
    requires ValidFleet(apps, targets, defaults) && p <= |apps|
  {
    forall j :: 0 <= j <= p ==> FailRun(apps, targets, j, c, signer, defaults) < MAX_CONSECUTIVE_FAILURES
  }

  function AfterFirst(apps: seq<App>, targets: seq<seq<int>>, c: nat, signer: string, defaults: seq<int>): nat
    requires ValidFleet(apps, targets, defaults) && apps != []
  {
    if !InLoop(apps[0], targets[0], signer) then c
    else if Fails(apps[0], targets[0], signer, defaults) then c + 1 else 0
  }

  lemma {:induction false} FailRunShift(apps: seq<App>, targets: seq<seq<int>>, p: nat, c: nat, signer: string,
                                        defaults: seq<int>)
    requires ValidFleet(apps, targets, defaults) && 0 < p <= |apps|
    ensures FailRun(apps, targets, p, c, signer, defaults)
         == FailRun(apps[1..], targets[1..], p - 1, AfterFirst(apps, targets, c, signer, defaults), signer, defaults)
  {
    if p > 1 {
      FailRunShift(apps, targets, p - 1, c, signer, defaults);
      assert apps[1..][p - 2] == apps[p - 1] && targets[1..][p - 2] == targets[p - 1];
    } else {
      assert FailRun(apps, targets, 0, c, signer, defaults) == c;
    }
  }

  lemma ReachesShift(apps: seq<App>, targets: seq<seq<int>>, p: nat, c: nat, signer: string, defaults: seq<int>)
    requires ValidFleet(apps, targets, defaults) && 0 < p <= |apps| && c < MAX_CONSECUTIVE_FAILURES
    ensures Reaches(apps, targets, p, c, signer, defaults)
       <==> Reaches(apps[1..], targets[1..], p - 1, AfterFirst(apps, targets, c, signer, defaults), signer, defaults)
  {
    var c' := AfterFirst(apps, targets, c, signer, defaults);
    forall j | 0 < j <= p
      ensures FailRun(apps, targets, j, c, signer, defaults) ==
                FailRun(apps[1..], targets[1..], j - 1, c', signer, defaults)
    {
      FailRunShift(apps, targets, j, c, signer, defaults);
    }
    if Reaches(apps, targets, p, c, signer, defaults) {
      forall j | 0 <= j <= p - 1
        ensures FailRun(apps[1..], targets[1..], j, c', signer, defaults) < MAX_CONSECUTIVE_FAILURES
      {
        assert FailRun(apps, targets, j + 1, c, signer, defaults) < MAX_CONSECUTIVE_FAILURES;
      }
    }
  }

  lemma TooManyAtOnce(apps: seq<App>, targets: seq<seq<int>>, p: nat, c: nat, signer: string, defaults: seq<int>)
    requires ValidFleet(apps, targets, defaults) && p <= |apps| && c >= MAX_CONSECUTIVE_FAILURES
    ensures !Reaches(apps, targets, p, c, signer, defaults)
  {
    assert FailRun(apps, targets, 0, c, signer, defaults) == c;
  }

  /** What the first turn leaves to the rest of the run. */
  lemma RunTail(apps: seq<App>, targets: seq<seq<int>>, p: nat, c: nat, signer: string, defaults: seq<int>)
    requires ValidFleet(apps, targets, defaults) && 0 < p < |apps|
    ensures var c' := AfterFirst(apps, targets, c, signer, defaults);
            RunFrom(apps, targets, c, signer, defaults).apps[p]
              == if c' >= MAX_CONSECUTIVE_FAILURES && InLoop(apps[0], targets[0], signer) then apps[p]
                 else RunFrom(apps[1..], targets[1..], c', signer, defaults).apps[p - 1]
  {}

  /** A run processes exactly the apps in the loop that it reaches. */
  lemma {:induction false} RunAt(apps: seq<App>, targets: seq<seq<int>>, p: nat, c: nat, signer: string,
                                 defaults: seq<int>)
    requires ValidFleet(apps, targets, defaults) && p < |apps| && c < MAX_CONSECUTIVE_FAILURES
    ensures RunFrom(apps, targets, c, signer, defaults).apps[p]
         == if InLoop(apps[p], targets[p], signer) && Reaches(apps, targets, p, c, signer, defaults)
            then Process(apps[p], targets[p], signer, defaults) else apps[p]
  {
    if p == 0 {
      assert FailRun(apps, targets, 0, c, signer, defaults) == c;
    } else {
      var c' := AfterFirst(apps, targets, c, signer, defaults);
      RunTail(apps, targets, p, c, signer, defaults);
      ReachesShift(apps, targets, p, c, signer, defaults);
      if c' < MAX_CONSECUTIVE_FAILURES {
        RunAt(apps[1..], targets[1..], p - 1, c', signer, defaults);
      } else {
        TooManyAtOnce(apps[1..], targets[1..], p - 1, c', signer, defaults);
      }
    }
  }

  /** What every run keeps of every app. */
  ghost predicate Kept(a: App, b: App, target: seq<int>, signer: string, defaults: seq<int>)
    requires ValidRow(defaults) && ValidApp(a) && ValidApp(b)
  {
    && (InLoop(b, target, signer) <==> InLoop(a, target, signer)) && b.admin == a.admin
    && (Stuck(b, target, signer) <==> Stuck(a, target, signer))
    && (HardApp(b, target, signer, defaults) ==> HardApp(a, target, signer, defaults))
    && (InLoop(a, target, signer) && AtTarget(a, target) ==> b == a)
  }

  ghost predicate AllKept(apps: seq<App>, after: seq<App>, targets: seq<seq<int>>, signer: string, defaults: seq<int>)
    requires ValidFleet(apps, targets, defaults) && ValidFleet(after, targets, defaults)
  {
    forall k :: 0 <= k < |apps| ==> Kept(apps[k], after[k], targets[k], signer, defaults)
  }

  lemma RunKeeps(apps: seq<App>, targets: seq<seq<int>>, signer: string, defaults: seq<int>)
    requires ValidFleet(apps, targets, defaults)
    ensures var after := RunFrom(apps, targets, 0, signer, defaults).apps;
            ValidFleet(after, targets, defaults) && AllKept(apps, after, targets, signer, defaults)
  {
    var after := RunFrom(apps, targets, 0, signer, defaults).apps;
    forall k | 0 <= k < |apps| ensures ValidApp(after[k]) && Kept(apps[k], after[k], targets[k], signer, defaults) {
      RunAt(apps, targets, k, 0, signer, defaults);
      if InLoop(apps[k], targets[k], signer) {
        ProcessOutcome(apps[k], targets[k], signer, defaults);
        if AtTarget(apps[k], targets[k]) { TargetStays(apps[k], targets[k], signer, defaults); }
      }
    }
  }

  // ---------- Apps behind five stuck ones ----------

  /** The number of stuck apps in a row, among the apps in the loop, just before position p. */
  function StuckRun(apps: seq<App>, targets: seq<seq<int>>, p: nat, signer: string): nat
    requires |apps| == |targets| && p <= |apps|
  {
    if p == 0 then 0
    else
      var before := StuckRun(apps, targets, p - 1, signer);
      if !InLoop(apps[p - 1], targets[p - 1], signer) then before
      else if Stuck(apps[p - 1], targets[p - 1], signer) then before + 1 else 0
  }

  /** Five apps in the loop in a row, somewhere before p, fail in every run. */
  ghost predicate Walled(apps: seq<App>, targets: seq<seq<int>>, p: nat, signer: string)
    requires |apps| == |targets| && p <= |apps|
  {
    exists j :: 0 <= j <= p && StuckRun(apps, targets, j, signer) >= 5
  }

  lemma {:induction false} StuckRunFails(apps: seq<App>, targets: seq<seq<int>>, p: nat, signer: string,
                                         defaults: seq<int>)
    requires ValidFleet(apps, targets, defaults) && p <= |apps|
    ensures StuckRun(apps, targets, p, signer) <= FailRun(apps, targets, p, 0, signer, defaults)
  {
    if p > 0 {
      StuckRunFails(apps, targets, p - 1, signer, defaults);
      if InLoop(apps[p - 1], targets[p - 1], signer) {
        ProcessOutcome(apps[p - 1], targets[p - 1], signer, defaults);
      }
    }
  }

  /** Every run stops in front of the wall, so the app behind it is never touched. */
  lemma WallBlocks(apps: seq<App>, targets: seq<seq<int>>, p: nat, signer: string, defaults: seq<int>)
    requires ValidFleet(apps, targets, defaults) && p < |apps| && Walled(apps, targets, p, signer)
    ensures !Reaches(apps, targets, p, 0, signer, defaults)
    ensures RunFrom(apps, targets, 0, signer, defaults).apps[p] == apps[p]
  {
    var j :| 0 <= j <= p && StuckRun(apps, targets, j, signer) >= MAX_CONSECUTIVE_FAILURES;
    StuckRunFails(apps, targets, j, signer, defaults);
    RunAt(apps, targets, p, 0, signer, defaults);
  }

  lemma {:induction false} StuckRunKept(apps: seq<App>, after: seq<App>, targets: seq<seq<int>>, p: nat,
                                        signer: string, defaults: seq<int>)
    requires ValidFleet(apps, targets, defaults) && ValidFleet(after, targets, defaults) && p <= |apps|
    requires AllKept(apps, after, targets, signer, defaults)
    ensures StuckRun(after, targets, p, signer) == StuckRun(apps, targets, p, signer)
  {
    if p > 0 {
      StuckRunKept(apps, after, targets, p - 1, signer, defaults);
      assert Kept(apps[p - 1], after[p - 1], targets[p - 1], signer, defaults);
    }
  }

  lemma WallStays(apps: seq<App>, after: seq<App>, targets: seq<seq<int>>, p: nat, signer: string, defaults: seq<int>)
    requires ValidFleet(apps, targets, defaults) && ValidFleet(after, targets, defaults) && p <= |apps|
    requires AllKept(apps, after, targets, signer, defaults)
    ensures Walled(after, targets, p, signer) <==> Walled(apps, targets, p, signer)
  {
    forall j | 0 <= j <= p ensures StuckRun(after, targets, j, signer) == StuckRun(apps, targets, j, signer) {
      StuckRunKept(apps, after, targets, j, signer, defaults);
    }
    if Walled(apps, targets, p, signer) {
      var j :| 0 <= j <= p && StuckRun(apps, targets, j, signer) >= MAX_CONSECUTIVE_FAILURES;
      assert StuckRun(after, targets, j, signer) >= MAX_CONSECUTIVE_FAILURES;
    }
    if Walled(after, targets, p, signer) {
      var j :| 0 <= j <= p && StuckRun(after, targets, j, signer) >= MAX_CONSECUTIVE_FAILURES;
      assert StuckRun(apps, targets, j, signer) >= MAX_CONSECUTIVE_FAILURES;
    }
  }

  /** The hard apps before position p. */
  function HardBefore(apps: seq<App>, targets: seq<seq<int>>, p: nat, signer: string, defaults: seq<int>): nat
    requires ValidFleet(apps, targets, defaults) && p <= |apps|
  {
    if p == 0 then 0
    else
      var before := HardBefore(apps, targets, p - 1, signer, defaults);
      if HardApp(apps[p - 1], targets[p - 1], signer, defaults) then before + 1 else before
  }

  lemma {:induction false} HardBeforeKept(apps: seq<App>, after: seq<App>, targets: seq<seq<int>>, p: nat,
                                          signer: string, defaults: seq<int>)
    requires ValidFleet(apps, targets, defaults) && ValidFleet(after, targets, defaults) && p <= |apps|
    requires AllKept(apps, after, targets, signer, defaults)
    ensures HardBefore(after, targets, p, signer, defaults) <= HardBefore(apps, targets, p, signer, defaults)
    ensures (exists h :: 0 <= h < p && Softened(apps[h], after[h], targets[h], signer, defaults)) ==>
              HardBefore(after, targets, p, signer, defaults) < HardBefore(apps, targets, p, signer, defaults)
  {
    if p > 0 {
      HardBeforeKept(apps, after, targets, p - 1, signer, defaults);
      assert Kept(apps[p - 1], after[p - 1], targets[p - 1], signer, defaults);
    }
  }

  ghost predicate Softened(a: App, b: App, target: seq<int>, signer: string, defaults: seq<int>)
    requires ValidApp(a) && ValidApp(b) && ValidRow(defaults)
  {
    HardApp(a, target, signer, defaults) && !HardApp(b, target, signer, defaults)
  }

  /** More failures in a row than stuck apps: the run has failed on a hard app. */
  lemma {:induction false} HardAmongFailures(apps: seq<App>, targets: seq<seq<int>>, j: nat, signer: string,
                                             defaults: seq<int>)
    returns (h: nat)
    requires ValidFleet(apps, targets, defaults) && j <= |apps|
    requires StuckRun(apps, targets, j, signer) < FailRun(apps, targets, j, 0, signer, defaults)
    ensures h < j && HardApp(apps[h], targets[h], signer, defaults)
  {
    assert j > 0;
    if InLoop(apps[j - 1], targets[j - 1], signer) {
      ProcessOutcome(apps[j - 1], targets[j - 1], signer, defaults);
    }
    if HardApp(apps[j - 1], targets[j - 1], signer, defaults) {
      h := j - 1;
    } else {
      h := HardAmongFailures(apps, targets, j - 1, signer, defaults);
    }
  }

  /** The first position at which the count of failures reaches five. */
  lemma {:induction false} FirstAbort(apps: seq<App>, targets: seq<seq<int>>, p: nat, signer: string,
                                      defaults: seq<int>)
    returns (j: nat)
    requires ValidFleet(apps, targets, defaults) && p <= |apps| && !Reaches(apps, targets, p, 0, signer, defaults)
    ensures 0 < j <= p && FailRun(apps, targets, j, 0, signer, defaults) >= MAX_CONSECUTIVE_FAILURES
    ensures Reaches(apps, targets, j - 1, 0, signer, defaults)
  {
    assert FailRun(apps, targets, 0, 0, signer, defaults) == 0;
    if p > 0 && !Reaches(apps, targets, p - 1, 0, signer, defaults) {
      j := FirstAbort(apps, targets, p - 1, signer, defaults);
    } else {
      j := p;
    }
  }

  /** A run that stops before p, with no wall there, softens a hard app before p. */
  lemma BlockedRunSoftens(apps: seq<App>, targets: seq<seq<int>>, p: nat, signer: string, defaults: seq<int>)
    requires ValidFleet(apps, targets, defaults) && p <= |apps|
    requires !Reaches(apps, targets, p, 0, signer, defaults) && !Walled(apps, targets, p, signer)
    ensures var after := RunFrom(apps, targets, 0, signer, defaults).apps;
            && ValidFleet(after, targets, defaults)
            && HardBefore(after, targets, p, signer, defaults) < HardBefore(apps, targets, p, signer, defaults)
  {
    var after := RunFrom(apps, targets, 0, signer, defaults).apps;
    RunKeeps(apps, targets, signer, defaults);
    var j := FirstAbort(apps, targets, p, signer, defaults);
    assert StuckRun(apps, targets, j, signer) < MAX_CONSECUTIVE_FAILURES;
    var h := HardAmongFailures(apps, targets, j, signer, defaults);
    assert Reaches(apps, targets, h, 0, signer, defaults);
    RunAt(apps, targets, h, 0, signer, defaults);
    ProcessOutcome(apps[h], targets[h], signer, defaults);
    assert Softened(apps[h], after[h], targets[h], signer, defaults);
    HardBeforeKept(apps, after, targets, p, signer, defaults);
  }

  // ---------- Repeated runs ----------

  function Runs(apps: seq<App>, targets: seq<seq<int>>, n: nat, signer: string, defaults: seq<int>): (r: seq<App>)
    requires ValidFleet(apps, targets, defaults)
    ensures |r| == |apps|
    decreases n
  {
    if n == 0 then apps
    else
      RunKeeps(apps, targets, signer, defaults);
      Runs(RunFrom(apps, targets, 0, signer, defaults).apps, targets, n - 1, signer, defaults)
  }

  /** The signer administers the app, and it is in the loop. */
  predicate Ours(a: App, target: seq<int>, signer: string) {
    InLoop(a, target, signer) && a.admin == signer
  }

  /** After n runs the app is at its target. */
  ghost predicate Finished(apps: seq<App>, targets: seq<seq<int>>, p: nat, n: nat, signer: string, defaults: seq<int>)
    requires ValidFleet(apps, targets, defaults) && p < |apps|
  {
    AtTarget(Runs(apps, targets, n, signer, defaults)[p], targets[p])
  }

  lemma {:induction false} TargetKept(apps: seq<App>, targets: seq<seq<int>>, p: nat, n: nat, signer: string,
                                      defaults: seq<int>)
    requires ValidFleet(apps, targets, defaults) && p < |apps|
    requires InLoop(apps[p], targets[p], signer) && AtTarget(apps[p], targets[p])
    ensures Runs(apps, targets, n, signer, defaults)[p] == apps[p]
    decreases n
  {
    if n > 0 {
      var after := RunFrom(apps, targets, 0, signer, defaults).apps;
      RunKeeps(apps, targets, signer, defaults);
      assert Kept(apps[p], after[p], targets[p], signer, defaults);
      TargetKept(after, targets, p, n - 1, signer, defaults);
    }
  }

  lemma OneRunMore(apps: seq<App>, after: seq<App>, targets: seq<seq<int>>, n: nat, signer: string, defaults: seq<int>)
    requires ValidFleet(apps, targets, defaults) && ValidFleet(after, targets, defaults) && n > 0
    requires after == RunFrom(apps, targets, 0, signer, defaults).apps
    ensures Runs(apps, targets, n, signer, defaults) == Runs(after, targets, n - 1, signer, defaults)
  {}

  /** A turn of an app of ours leaves it easy, and at its target if it was easy. */
  ghost predicate Treated(a: App, b: App, target: seq<int>, signer: string, defaults: seq<int>)
    requires ValidApp(a) && ValidApp(b) && ValidRow(defaults)
  {
    !HardApp(b, target, signer, defaults) && (!HardApp(a, target, signer, defaults) ==> AtTarget(b, target))
  }

  /** One run, seen from an app of ours that is not behind a wall: the run comes to it, or
      leaves it alone and there is a hard app less before it. */
  lemma RunStep(apps: seq<App>, targets: seq<seq<int>>, p: nat, signer: string, defaults: seq<int>)
    requires ValidFleet(apps, targets, defaults) && p < |apps| && !Walled(apps, targets, p, signer)
    requires Ours(apps[p], targets[p], signer)
    ensures var after := RunFrom(apps, targets, 0, signer, defaults).apps;
            && ValidFleet(after, targets, defaults) && !Walled(after, targets, p, signer)
            && Ours(after[p], targets[p], signer)
            && HardBefore(after, targets, p, signer, defaults) <= HardBefore(apps, targets, p, signer, defaults)
            && (Treated(apps[p], after[p], targets[p], signer, defaults)
                || (after[p] == apps[p]
                    && HardBefore(after, targets, p, signer, defaults)
                         < HardBefore(apps, targets, p, signer, defaults)))
  {
    var after := RunFrom(apps, targets, 0, signer, defaults).apps;
    RunKeeps(apps, targets, signer, defaults);
    assert Kept(apps[p], after[p], targets[p], signer, defaults);
    RunAt(apps, targets, p, 0, signer, defaults);
    WallStays(apps, after, targets, p, signer, defaults);
    HardBeforeKept(apps, after, targets, p, signer, defaults);
    ProcessOutcome(apps[p], targets[p], signer, defaults);
    if !Reaches(apps, targets, p, 0, signer, defaults) {
      BlockedRunSoftens(apps, targets, p, signer, defaults);
    }
  }

  /** An app that needs one pass: one run more than there are hard apps before it. */
  lemma {:induction false} EasyAppFinishes(apps: seq<App>, targets: seq<seq<int>>, p: nat, n: nat, signer: string,
                                           defaults: seq<int>, done: App)
    requires ValidFleet(apps, targets, defaults) && p < |apps| && !Walled(apps, targets, p, signer)
    requires Ours(apps[p], targets[p], signer) && !HardApp(apps[p], targets[p], signer, defaults)
    requires n >= HardBefore(apps, targets, p, signer, defaults) + 1
    requires done == Runs(apps, targets, n, signer, defaults)[p]
    ensures AtTarget(done, targets[p])
    decreases n
  {
    var after := RunFrom(apps, targets, 0, signer, defaults).apps;
    RunStep(apps, targets, p, signer, defaults);
    OneRunMore(apps, after, targets, n, signer, defaults);
    if Treated(apps[p], after[p], targets[p], signer, defaults) {
      TargetKept(after, targets, p, n - 1, signer, defaults);
    } else {
      EasyAppFinishes(after, targets, p, n - 1, signer, defaults, done);
    }
  }

  /** Any app of ours that is not behind a wall: two runs more, whatever else fails. */
  lemma {:induction false} AppFinishes(apps: seq<App>, targets: seq<seq<int>>, p: nat, n: nat, signer: string,
                                       defaults: seq<int>, done: App)
    requires ValidFleet(apps, targets, defaults) && p < |apps| && !Walled(apps, targets, p, signer)
    requires Ours(apps[p], targets[p], signer)
    requires n >= HardBefore(apps, targets, p, signer, defaults) + 2
    requires done == Runs(apps, targets, n, signer, defaults)[p]
    ensures AtTarget(done, targets[p])
    decreases n
  {
    var after := RunFrom(apps, targets, 0, signer, defaults).apps;
    RunStep(apps, targets, p, signer, defaults);
    OneRunMore(apps, after, targets, n, signer, defaults);
    if Treated(apps[p], after[p], targets[p], signer, defaults) {
      EasyAppFinishes(after, targets, p, n - 1, signer, defaults, done);
    } else {
      AppFinishes(after, targets, p, n - 1, signer, defaults, done);
    }
  }

  /** Behind five apps in a row that fail for good, nothing ever happens. */
  lemma {:induction false} WalledAppStarves(apps: seq<App>, targets: seq<seq<int>>, p: nat, n: nat, signer: string,
                                            defaults: seq<int>)
    requires ValidFleet(apps, targets, defaults) && p < |apps| && Walled(apps, targets, p, signer)
    ensures Runs(apps, targets, n, signer, defaults)[p] == apps[p]
    decreases n
  {
    if n > 0 {
      var after := RunFrom(apps, targets, 0, signer, defaults).apps;
      RunKeeps(apps, targets, signer, defaults);
      WallBlocks(apps, targets, p, signer, defaults);
      WallStays(apps, after, targets, p, signer, defaults);
      WalledAppStarves(after, targets, p, n - 1, signer, defaults);
    }
  }

  /** An app of ours is brought to its target by repeated runs exactly if it is there already
      or no five apps in the loop in a row before it fail for good. */
  lemma AppFinishesIff(apps: seq<App>, targets: seq<seq<int>>, p: nat, signer: string, defaults: seq<int>)
    requires ValidFleet(apps, targets, defaults) && p < |apps| && Ours(apps[p], targets[p], signer)
    ensures (exists n: nat :: Finished(apps, targets, p, n, signer, defaults))
       <==> AtTarget(apps[p], targets[p]) || !Walled(apps, targets, p, signer)
  {
    if AtTarget(apps[p], targets[p]) {
      TargetKept(apps, targets, p, 1, signer, defaults);
      assert Finished(apps, targets, p, 1, signer, defaults);
    } else if Walled(apps, targets, p, signer) {
      forall n: nat ensures !Finished(apps, targets, p, n, signer, defaults) {
        WalledAppStarves(apps, targets, p, n, signer, defaults);
          }
    } else {
      var n := HardBefore(apps, targets, p, signer, defaults) + 2;
      AppFinishes(apps, targets, p, n, signer, defaults, Runs(apps, targets, n, signer, defaults)[p]);
      assert Finished(apps, targets, p, n, signer, defaults);
    }
  }

  // ---------- Fleets without stuck apps ----------

  ghost predicate NoneStuck(apps: seq<App>, targets: seq<seq<int>>, signer: string)
    requires |apps| == |targets|
  {
    forall k :: 0 <= k < |apps| ==> !Stuck(apps[k], targets[k], signer)
  }

  ghost predicate AllAtTarget(apps: seq<App>, targets: seq<seq<int>>, signer: string)
    requires |apps| == |targets|
  {
    forall k :: 0 <= k < |apps| && InLoop(apps[k], targets[k], signer) ==> AtTarget(apps[k], targets[k])
  }

  function HardCount(apps: seq<App>, targets: seq<seq<int>>, signer: string, defaults: seq<int>): nat
    requires ValidFleet(apps, targets, defaults)
  {
    if apps == [] then 0
    else
      var rest := HardCount(apps[1..], targets[1..], signer, defaults);
      if HardApp(apps[0], targets[0], signer, defaults) then rest + 1 else rest
  }

  /** A run that aborts leaves at least five apps fewer in need of a second pass, less the
      failures it started with; a run that does not abort leaves none. */
  lemma {:induction false} RunProgress(apps: seq<App>, targets: seq<seq<int>>, c: nat, signer: string,
                                       defaults: seq<int>)
    requires ValidFleet(apps, targets, defaults) && NoneStuck(apps, targets, signer) && c < MAX_CONSECUTIVE_FAILURES
    ensures var r := RunFrom(apps, targets, c, signer, defaults);
            && ValidFleet(r.apps, targets, defaults)
            && (if r.aborted
                then HardCount(r.apps, targets, signer, defaults) + 5
                     <= HardCount(apps, targets, signer, defaults) + c
                else HardCount(r.apps, targets, signer, defaults) == 0)
  {
    if apps != [] {
      var r := RunFrom(apps, targets, c, signer, defaults);
      var c' := AfterFirst(apps, targets, c, signer, defaults);
      assert !Stuck(apps[0], targets[0], signer);
      if InLoop(apps[0], targets[0], signer) {
        ProcessOutcome(apps[0], targets[0], signer, defaults);
      }
      if c' >= MAX_CONSECUTIVE_FAILURES {
        assert r.apps[1..] == apps[1..];
      } else {
        RunProgress(apps[1..], targets[1..], c', signer, defaults);
        assert r.apps[1..] == RunFrom(apps[1..], targets[1..], c', signer, defaults).apps;
      }
      forall k | 0 <= k < |r.apps| ensures ValidApp(r.apps[k]) {
        if k > 0 { assert r.apps[k] == r.apps[1..][k - 1]; }
      }
    }
  }

  /** With no app in need of a second pass, one run does not abort and finishes every app. */
  lemma {:induction false} EasyRunFinishes(apps: seq<App>, targets: seq<seq<int>>, signer: string, defaults: seq<int>)
    requires ValidFleet(apps, targets, defaults) && NoneStuck(apps, targets, signer)
    requires HardCount(apps, targets, signer, defaults) == 0
    ensures var r := RunFrom(apps, targets, 0, signer, defaults); !r.aborted && AllAtTarget(r.apps, targets, signer)
  {
    if apps != [] {
      assert !Stuck(apps[0], targets[0], signer);
      if InLoop(apps[0], targets[0], signer) {
        ProcessOutcome(apps[0], targets[0], signer, defaults);
      }
      EasyRunFinishes(apps[1..], targets[1..], signer, defaults);
    }
  }

  lemma NoneGetStuck(apps: seq<App>, targets: seq<seq<int>>, signer: string, defaults: seq<int>)
    requires ValidFleet(apps, targets, defaults) && NoneStuck(apps, targets, signer)
    ensures NoneStuck(RunFrom(apps, targets, 0, signer, defaults).apps, targets, signer)
  {
    var after := RunFrom(apps, targets, 0, signer, defaults).apps;
    RunKeeps(apps, targets, signer, defaults);
    forall k | 0 <= k < |apps| ensures !Stuck(after[k], targets[k], signer) {
      assert Kept(apps[k], after[k], targets[k], signer, defaults);
    }
  }

  lemma OneRun(apps: seq<App>, targets: seq<seq<int>>, signer: string, defaults: seq<int>)
    requires ValidFleet(apps, targets, defaults)
    ensures Runs(apps, targets, 1, signer, defaults) == RunFrom(apps, targets, 0, signer, defaults).apps
  {
    var after := RunFrom(apps, targets, 0, signer, defaults).apps;
    RunKeeps(apps, targets, signer, defaults);
    assert Runs(after, targets, 0, signer, defaults) == after;
  }

  /** Fewer hard apps than an abort takes: the second run finishes. */
  lemma TwoRuns(apps: seq<App>, targets: seq<seq<int>>, signer: string, defaults: seq<int>)
    requires ValidFleet(apps, targets, defaults) && NoneStuck(apps, targets, signer)
    requires HardCount(apps, targets, signer, defaults) < MAX_CONSECUTIVE_FAILURES
    ensures AllAtTarget(Runs(apps, targets, 2, signer, defaults), targets, signer)
  {
    var after := RunFrom(apps, targets, 0, signer, defaults).apps;
    RunProgress(apps, targets, 0, signer, defaults);
    NoneGetStuck(apps, targets, signer, defaults);
    EasyRunFinishes(after, targets, signer, defaults);
    OneRun(after, targets, signer, defaults);
  }

  lemma AbortsLeft(h: nat, h': nat)
    requires h' + MAX_CONSECUTIVE_FAILURES <= h
    ensures h' / MAX_CONSECUTIVE_FAILURES + 1 <= h / MAX_CONSECUTIVE_FAILURES
  {}

  /** Without stuck apps, h apps in need of a second pass take h / 5 + 2 runs, despite the
      aborts; further runs keep every app at its target. */
  lemma {:induction false} RunsConverge(apps: seq<App>, targets: seq<seq<int>>, n: nat, signer: string,
                                        defaults: seq<int>)
    requires ValidFleet(apps, targets, defaults) && NoneStuck(apps, targets, signer)
    requires n >= HardCount(apps, targets, signer, defaults) / 5 + 2
    ensures AllAtTarget(Runs(apps, targets, n, signer, defaults), targets, signer)
    decreases n
  {
    if n > 2 {
      var r := RunFrom(apps, targets, 0, signer, defaults);
      RunProgress(apps, targets, 0, signer, defaults);
      NoneGetStuck(apps, targets, signer, defaults);
      if r.aborted {
        AbortsLeft(HardCount(apps, targets, signer, defaults), HardCount(r.apps, targets, signer, defaults));
      }
      RunsConverge(r.apps, targets, n - 1, signer, defaults);
    } else {
      TwoRuns(apps, targets, signer, defaults);
    }
  }

  /** And without stuck apps only: a stuck app never gets to its target. */
  lemma StuckNeverFinishes(apps: seq<App>, targets: seq<seq<int>>, p: nat, n: nat, signer: string, defaults: seq<int>)
    requires ValidFleet(apps, targets, defaults) && p < |apps| && Stuck(apps[p], targets[p], signer)
    ensures !Finished(apps, targets, p, n, signer, defaults)
    decreases n
  {
    if n > 0 {
      var after := RunFrom(apps, targets, 0, signer, defaults).apps;
      RunKeeps(apps, targets, signer, defaults);
      assert Kept(apps[p], after[p], targets[p], signer, defaults);
      StuckNeverFinishes(after, targets, p, n - 1, signer, defaults);
    }
  }

  /** So repeated runs finish the whole fleet exactly if no app in it is stuck. */
  lemma RunsConvergeIff(apps: seq<App>, targets: seq<seq<int>>, signer: string, defaults: seq<int>)
    requires ValidFleet(apps, targets, defaults)
    ensures (exists n: nat :: EveryFinished(apps, targets, n, signer, defaults)) <==> NoneStuck(apps, targets, signer)
  {
    if NoneStuck(apps, targets, signer) {
      var n := HardCount(apps, targets, signer, defaults) / MAX_CONSECUTIVE_FAILURES + 2;
      RunsConverge(apps, targets, n, signer, defaults);
      assert EveryFinished(apps, targets, n, signer, defaults);
    } else {
      var p: nat :| p < |apps| && Stuck(apps[p], targets[p], signer);
      forall n: nat ensures !EveryFinished(apps, targets, n, signer, defaults) {
        StuckNeverFinishes(apps, targets, p, n, signer, defaults);
        RunsKeepLoop(apps, targets, p, n, signer, defaults);
      }
    }
  }

  ghost predicate EveryFinished(apps: seq<App>, targets: seq<seq<int>>, n: nat, signer: string, defaults: seq<int>)
    requires ValidFleet(apps, targets, defaults)
  {
    AllAtTarget(Runs(apps, targets, n, signer, defaults), targets, signer)
  }

  lemma {:induction false} RunsKeepLoop(apps: seq<App>, targets: seq<seq<int>>, p: nat, n: nat, signer: string,
                                        defaults: seq<int>)
    requires ValidFleet(apps, targets, defaults) && p < |apps|
    ensures InLoop(Runs(apps, targets, n, signer, defaults)[p], targets[p], signer)
       <==> InLoop(apps[p], targets[p], signer)
    decreases n
  {
    if n > 0 {
      var after := RunFrom(apps, targets, 0, signer, defaults).apps;
      RunKeeps(apps, targets, signer, defaults);
      assert Kept(apps[p], after[p], targets[p], signer, defaults);
      RunsKeepLoop(after, targets, p, n - 1, signer, defaults);
    }
  }

  // ---------- The transactions of a run ----------

  /** What a row has to be sent: the attach and nine keys for a row without an engine, the
      keys off their target for an attached one; nothing for a stranger's row. */
  ghost function Needed(a: App, target: seq<int>, signer: string): nat
    requires |a.copy| == 9
  {
    if |target| != 9 || !a.registered || (a.admin != "" && a.admin != signer) then 0
    else
      match a.attached
      case Lite => 10
      case Here => |set i: nat | i < 9 && a.copy[i] != Some(target[i])|
      case Elsewhere => 0
  }

  ghost function TotalNeeded(apps: seq<App>, targets: seq<seq<int>>, signer: string): nat
    requires |apps| == |targets| && forall k :: 0 <= k < |apps| ==> |apps[k].copy| == 9
  {
    if apps == [] then 0
    else Needed(apps[0], targets[0], signer) + TotalNeeded(apps[1..], targets[1..], signer)
  }

  lemma AttachedAppNeeds(a: App, target: seq<int>, signer: string)
    requires Writable(a, signer) && ValidRow(target)
    ensures Writes(a, target, signer, 9) <= Needed(a, target, signer)
    ensures Writes(a, target, signer, 9) == Needed(a, target, signer) <==> !Hard(a, target)
  {
    WritesAre(a, target, signer, 9);
    DueAmongNeeded(a, target);
  }

  lemma DueAmongNeeded(a: App, target: seq<int>)
    requires ValidApp(a) && a.attached == Here && ValidRow(target)
    ensures var due, off := DueKeys(a, target, 9), set i: nat | i < 9 && a.copy[i] != Some(target[i]);
            |due| <= |off| && (|due| == |off| <==> !Hard(a, target)) && (Hard(a, target) ==> |off| > 0)
  {
    var due, off := DueKeys(a, target, 9), set i: nat | i < 9 && a.copy[i] != Some(target[i]);
    FewerElements(due, off);
    if Hard(a, target) {
      var d: nat := if Refused(a, target, 0) then 0 else if Refused(a, target, 1) then 1 else 2;
      assert Refused(a, target, d) && a.engine[3 + d] <= a.engine[d];
      assert d in off && d !in due;
    } else {
      assert !Refused(a, target, 0) && !Refused(a, target, 1) && !Refused(a, target, 2);
      assert due == off;
    }
  }

  lemma FewerElements(s: set<nat>, t: set<nat>)
    requires s <= t
    ensures |s| <= |t| && (|s| == |t| <==> s == t)
  {
    assert t == s + (t - s);
  }

  lemma LiteAppNeeds(a: App, target: seq<int>, signer: string, defaults: seq<int>)
    requires ValidApp(a) && ValidRow(target) && ValidRow(defaults) && CanAttach(a, signer)
    ensures TurnWrites(a, target, signer, defaults) <= Needed(a, target, signer)
    ensures TurnWrites(a, target, signer, defaults) == Needed(a, target, signer)
       <==> !Hard(AfterAttach(a, signer, defaults), target)
  {
    var b := AfterAttach(a, signer, defaults);
    AttachedAppNeeds(b, target, signer);
    NothingStored(b, target);
    assert Needed(b, target, signer) == 9;
  }

  lemma NothingStored(a: App, target: seq<int>)
    requires |a.copy| == |target| == 9 && forall i :: 0 <= i < 9 ==> a.copy[i] == None
    ensures |set i: nat | i < 9 && a.copy[i] != Some(target[i])| == 9
  {
    assert (set i: nat | i < 9 && a.copy[i] != Some(target[i])) == {0, 1, 2, 3, 4, 5, 6, 7, 8};
  }

  /** A turn sends at most what the row needs, and all of it exactly if that is
      nothing or the signer administers the app and one pass is enough. */
  lemma TurnSendsNeededIff(a: App, target: seq<int>, signer: string, defaults: seq<int>)
    requires ValidApp(a) && InLoop(a, target, signer) && ValidRow(defaults)
    ensures TurnWrites(a, target, signer, defaults) <= Needed(a, target, signer)
    ensures TurnWrites(a, target, signer, defaults) == Needed(a, target, signer) <==>
              Needed(a, target, signer) == 0 || (a.admin == signer && !HardApp(a, target, signer, defaults))
  {
    if a.admin != signer {
      NothingFromStrangers(a, target, signer, 9);
    } else if a.attached == Lite {
      LiteAppNeeds(a, target, signer, defaults);
    } else {
      AttachedAppNeeds(a, target, signer);
      DueAmongNeeded(a, target);
    }
  }

  lemma {:induction false} NothingFromStrangers(a: App, target: seq<int>, signer: string, k: nat)
    requires |a.copy| == 9 && |target| == 9 && a.admin != signer && k <= 9
    ensures Writes(a, target, signer, k) == 0
  {
    if k > 0 {
      NothingFromStrangers(a, target, signer, k - 1);
      StrangerChangesNothing(a, target, signer, k - 1);
    }
  }

  /** Every app in the loop is the signer's and needs one pass. */
  ghost predicate AllEasy(apps: seq<App>, targets: seq<seq<int>>, signer: string, defaults: seq<int>)
    requires ValidFleet(apps, targets, defaults)
  {
    forall k :: 0 <= k < |apps| && InLoop(apps[k], targets[k], signer) ==>
      apps[k].admin == signer && !HardApp(apps[k], targets[k], signer, defaults)
  }

  /** Then a run sends everything that the rows need. */
  lemma {:induction false} EasyRunSendsNeeded(apps: seq<App>, targets: seq<seq<int>>, c: nat, signer: string,
                                               defaults: seq<int>)
    requires ValidFleet(apps, targets, defaults) && AllEasy(apps, targets, signer, defaults)
    requires c < MAX_CONSECUTIVE_FAILURES
    requires forall k :: 0 <= k < |apps| ==> targets[k] == [] || ValidRow(targets[k])
    ensures var r := RunFrom(apps, targets, c, signer, defaults);
            !r.aborted && r.sent == TotalNeeded(apps, targets, signer)
  {
    if apps != [] {
      assert InLoop(apps[0], targets[0], signer) ==> !HardApp(apps[0], targets[0], signer, defaults);
      if InLoop(apps[0], targets[0], signer) {
        ProcessOutcome(apps[0], targets[0], signer, defaults);
        TurnSendsNeededIff(apps[0], targets[0], signer, defaults);
        EasyRunSendsNeeded(apps[1..], targets[1..], 0, signer, defaults);
      } else {
        assert Needed(apps[0], targets[0], signer) == 0;
        EasyRunSendsNeeded(apps[1..], targets[1..], c, signer, defaults);
      }
    }
  }

  /** Any run sends at most what the rows need. */
  lemma {:induction false} RunSendsAtMostNeeded(apps: seq<App>, targets: seq<seq<int>>, c: nat, signer: string,
                                                 defaults: seq<int>)
    requires ValidFleet(apps, targets, defaults)
    ensures RunFrom(apps, targets, c, signer, defaults).sent <= TotalNeeded(apps, targets, signer)
  {
    if apps != [] {
      if InLoop(apps[0], targets[0], signer) {
        TurnSendsNeededIff(apps[0], targets[0], signer, defaults);
      }
      RunSendsAtMostNeeded(apps[1..], targets[1..], AfterFirst(apps, targets, c, signer, defaults), signer, defaults);
    }
  }
}
