/** The nine timing/score descriptors of a game app, the engine's acceptance rule for one
    write, and what passes of ordered writes do to one app. */
module Descriptors {
  import opened Wrappers

  const PARAM_ORDER: seq<string> :=
    ["limitMs0", "limitMs1", "limitMs2",
     "minSolveMs0", "minSolveMs1", "minSolveMs2",
     "targetScore0", "targetScore1", "targetScore2"]

  const RG_MIN_LIMIT_MS := 1_000
  const RG_MAX_LIMIT_MS := 3_600_000
  const RG_MAX_MIN_SOLVE_MS := 3_600_000
  const RG_MIN_TARGET_SCORE := 1
  const RG_MAX_TARGET_SCORE := 1_000_000
  const MAX_DESCRIPTOR_KEY_LENGTH := 128

  /** Values are indexed as in PARAM_ORDER: limit d at d, floor d at 3 + d, score d at 6 + d. */
  predicate InRange(i: nat, v: int) {
    if i < 3 then RG_MIN_LIMIT_MS <= v <= RG_MAX_LIMIT_MS
    else if i < 6 then 0 <= v <= RG_MAX_MIN_SOLVE_MS
    else RG_MIN_TARGET_SCORE <= v <= RG_MAX_TARGET_SCORE
  }

  /** Limits are between a second and an hour, floors up to an hour, scores up to a million. */
  lemma RangesAre(d: nat, v: int)
    requires d < 3
    ensures InRange(d, v) <==> 1_000 <= v <= 60 * 60 * 1_000
    ensures InRange(3 + d, v) <==> 0 <= v <= 60 * 60 * 1_000
    ensures InRange(6 + d, v) <==> 1 <= v <= 1_000_000
  {}

  /** The cross-field rule minSolveMs{d} <= limitMs{d}, floors of one row against limits of another. */
  predicate FloorsBelowLimits(floors: seq<int>, limits: seq<int>)
    requires |floors| == |limits| == 9
  {
    floors[3] <= limits[0] && floors[4] <= limits[1] && floors[5] <= limits[2]
  }

  /** An engine row: every value in range, every solve floor at most its time limit. */
  predicate ValidRow(row: seq<int>) {
    |row| == 9 && (forall i :: 0 <= i < 9 ==> InRange(i, row[i])) && FloorsBelowLimits(row, row)
  }

  // ---------- One app on the chain ----------

  datatype Attachment = Lite | Here | Elsewhere

  /** A directory row: `copy` is the registry's stored descriptor copy (None: unset) and
      `engine` the row the engine works with. */
  datatype App = App(registered: bool, attached: Attachment, admin: string, copy: seq<Option<int>>, engine: seq<int>)

  predicate ValidApp(a: App) {
    && |a.copy| == 9
    && (a.attached == Here ==> ValidRow(a.engine))
    && (a.attached == Here ==> forall i :: 0 <= i < 9 && a.copy[i].Some? ==> a.copy[i].value == a.engine[i])
    && (a.attached == Lite ==> forall i :: 0 <= i < 9 ==> a.copy[i] == None)
  }

  /** The chain accepts `setDescriptor` from the app's admin while the new row stays valid. */
  predicate Accepts(a: App, i: nat, v: int, signer: string) {
    i < 9 && a.registered && a.attached == Here && a.admin == signer && |a.engine| == |a.copy| == 9
    && ValidRow(a.engine[i := v])
  }

  function SetDescriptor(a: App, i: nat, v: int, signer: string): App
    requires Accepts(a, i, v, signer)
  {
    a.(copy := a.copy[i := Some(v)], engine := a.engine[i := v])
  }

  /** `attachEngine` installs a row of engine defaults and leaves every descriptor unset. */
  function Attach(a: App, defaults: seq<int>): App
    requires |a.copy| == 9
  {
    a.(attached := Here, copy := seq(9, _ => None), engine := defaults)
  }

  // ---------- One pass over one app ----------

  /** The tool's step for one key: skip it at the target, write it if the chain accepts. */
  function WriteStep(a: App, i: nat, v: int, signer: string): App
    requires |a.copy| == 9 && i < 9
  {
    if a.copy[i] == Some(v) then a
    else if Accepts(a, i, v, signer) then SetDescriptor(a, i, v, signer)
    else a
  }

  /** The first `k` steps of a pass. */
  function Steps(a: App, target: seq<int>, signer: string, k: nat): (r: App)
    requires |a.copy| == 9 && |target| == 9 && k <= 9
    ensures |r.copy| == 9 && |r.engine| == |a.engine| && r.admin == a.admin
    ensures r.attached == a.attached && r.registered == a.registered
  {
    if k == 0 then a else WriteStep(Steps(a, target, signer, k - 1), k - 1, target[k - 1], signer)
  }

  function Pass(a: App, target: seq<int>, signer: string): App
    requires |a.copy| == 9 && |target| == 9
  {
    Steps(a, target, signer, 9)
  }

  /** No write is due: every stored copy is at its target. */
  predicate AtTarget(a: App, target: seq<int>) {
    |a.copy| == |target| == 9 && forall i :: 0 <= i < 9 ==> a.copy[i] == Some(target[i])
  }

  /** Some current solve floor exceeds the new time limit. */
  predicate Hard(a: App, target: seq<int>)
    requires |a.engine| == |target| == 9
  {
    !FloorsBelowLimits(a.engine, target)
  }

  predicate Writable(a: App, signer: string) {
    a.registered && a.attached == Here && a.admin == signer && ValidApp(a)
  }

  lemma {:induction false} StepsTouchNothingLater(a: App, target: seq<int>, signer: string, k: nat)
    requires |a.copy| == 9 && |target| == 9 && k <= 9
    ensures forall i :: k <= i < 9 ==> Steps(a, target, signer, k).copy[i] == a.copy[i]
  {
    if k > 0 { StepsTouchNothingLater(a, target, signer, k - 1); }
  }

  /** Every intermediate row is engine-valid and agrees with the stored copies. */
  lemma {:induction false} StepsKeepValid(a: App, target: seq<int>, signer: string, k: nat)
    requires ValidApp(a) && |target| == 9 && k <= 9
    ensures ValidApp(Steps(a, target, signer, k))
  {
    if k > 0 { StepsKeepValid(a, target, signer, k - 1); }
  }

  /** The engine will refuse limit `i`: the current floor is above it. */
  predicate Refused(a: App, target: seq<int>, i: nat)
    requires |a.engine| == |target| == 9
  {
    i < 3 && a.engine[3 + i] > target[i]
  }

  /** What the first `k` steps make of a writable app: refused limits are untouched, every
      other key is at its target. */
  ghost predicate Outcome(a: App, r: App, target: seq<int>, signer: string, k: nat)
    requires Writable(a, signer) && ValidRow(target) && k <= 9
  {
    && Writable(r, signer)
    && forall i :: 0 <= i < 9 ==>
         if i < k && !Refused(a, target, i) then r.engine[i] == target[i] && r.copy[i] == Some(target[i])
         else r.engine[i] == a.engine[i] && r.copy[i] == a.copy[i]
  }

  /** The engine accepts step `i` of a pass unless it is a refused limit. */
  lemma StepAccepted(a: App, b: App, target: seq<int>, signer: string, i: nat)
    requires Writable(a, signer) && ValidRow(target) && i < 9 && Outcome(a, b, target, signer, i)
    ensures ValidRow(b.engine[i := target[i]]) <==> !Refused(a, target, i)
  {
    var row := b.engine[i := target[i]];
    assert InRange(i, target[i]);
    assert forall j :: 0 <= j < 9 && j != i ==> row[j] == b.engine[j];
    assert forall j :: 0 <= j < 9 ==> InRange(j, row[j]);
    assert ValidRow(row) <==> FloorsBelowLimits(row, row);
    assert Refused(a, target, 0) <==> a.engine[3] > target[0];
    assert Refused(a, target, 1) <==> a.engine[4] > target[1];
    assert Refused(a, target, 2) <==> a.engine[5] > target[2];
  }

  lemma OutcomeStep(a: App, b: App, target: seq<int>, signer: string, i: nat)
    requires Writable(a, signer) && ValidRow(target) && i < 9 && Outcome(a, b, target, signer, i)
    ensures Outcome(a, WriteStep(b, i, target[i], signer), target, signer, i + 1)
  {
    StepAccepted(a, b, target, signer, i);
    if b.copy[i] == Some(target[i]) {
      assert b.engine[i] == target[i];
      assert b.engine[i := target[i]] == b.engine;
    }
  }

  lemma {:induction false} StepsOutcome(a: App, target: seq<int>, signer: string, k: nat)
    requires Writable(a, signer) && ValidRow(target) && k <= 9
    ensures Outcome(a, Steps(a, target, signer, k), target, signer, k)
  {
    if k > 0 {
      StepsOutcome(a, target, signer, k - 1);
      OutcomeStep(a, Steps(a, target, signer, k - 1), target, signer, k - 1);
    }
  }

  /** One pass reaches the target exactly when no current floor exceeds a new limit; after
      it none does. */
  lemma OnePassSufficesIff(a: App, target: seq<int>, signer: string)
    requires Writable(a, signer) && ValidRow(target)
    ensures AtTarget(Pass(a, target, signer), target) <==> !Hard(a, target)
    ensures Writable(Pass(a, target, signer), signer) && !Hard(Pass(a, target, signer), target)
  {
    StepsOutcome(a, target, signer, 9);
    var r := Pass(a, target, signer);
    forall d: nat | d < 3 && Refused(a, target, d) ensures r.copy[d] != Some(target[d]) {
      assert a.engine[3 + d] <= a.engine[d];
    }
    assert !Refused(a, target, 3) && !Refused(a, target, 4) && !Refused(a, target, 5);
    assert r.engine[3] == target[3] && r.engine[4] == target[4] && r.engine[5] == target[5];
    assert Hard(a, target) <==> Refused(a, target, 0) || Refused(a, target, 1) || Refused(a, target, 2);
    if !Hard(a, target) {
      forall i | 0 <= i < 9 ensures r.copy[i] == Some(target[i]) {
        assert !Refused(a, target, i);
      }
    }
  }

  /** Two passes always reach the target, and a third writes nothing. */
  lemma TwoPassesSuffice(a: App, target: seq<int>, signer: string)
    requires Writable(a, signer) && ValidRow(target)
    ensures AtTarget(Pass(Pass(a, target, signer), target, signer), target)
    ensures Pass(Pass(Pass(a, target, signer), target, signer), target, signer) ==
              Pass(Pass(a, target, signer), target, signer)
  {
    OnePassSufficesIff(a, target, signer);
    OnePassSufficesIff(Pass(a, target, signer), target, signer);
    AtTargetIsStable(Pass(Pass(a, target, signer), target, signer), target, signer, 9);
  }

  lemma {:induction false} AtTargetIsStable(a: App, target: seq<int>, signer: string, k: nat)
    requires AtTarget(a, target) && k <= 9
    ensures Steps(a, target, signer, k) == a
  {
    if k > 0 { AtTargetIsStable(a, target, signer, k - 1); }
  }

  /** A signer who is not the admin changes nothing. */
  lemma {:induction false} StrangerChangesNothing(a: App, target: seq<int>, signer: string, k: nat)
    requires |a.copy| == 9 && |target| == 9 && a.admin != signer && k <= 9
    ensures Steps(a, target, signer, k) == a
  {
    if k > 0 { StrangerChangesNothing(a, target, signer, k - 1); }
  }

  /** The chain would take a write of key i, and it is due. */
  predicate Due(a: App, i: nat, v: int, signer: string)
    requires |a.copy| == 9 && i < 9
  {
    a.copy[i] != Some(v) && Accepts(a, i, v, signer)
  }

  /** The writes of the first k steps of a pass. */
  function Writes(a: App, target: seq<int>, signer: string, k: nat): nat
    requires |a.copy| == 9 && |target| == 9 && k <= 9
  {
    if k == 0 then 0
    else
      Writes(a, target, signer, k - 1)
        + if Due(Steps(a, target, signer, k - 1), k - 1, target[k - 1], signer) then 1 else 0
  }

  lemma {:induction false} NoWritesNoChange(a: App, target: seq<int>, signer: string, k: nat)
    requires |a.copy| == 9 && |target| == 9 && k <= 9 && Writes(a, target, signer, k) == 0
    ensures Steps(a, target, signer, k) == a
  {
    if k > 0 { NoWritesNoChange(a, target, signer, k - 1); }
  }

  lemma {:induction false} NothingDue(a: App, target: seq<int>, signer: string, k: nat)
    requires AtTarget(a, target) && k <= 9
    ensures Writes(a, target, signer, k) == 0
  {
    if k > 0 {
      NothingDue(a, target, signer, k - 1);
      AtTargetIsStable(a, target, signer, k - 1);
    }
  }

  /** A pass of the admin writes something exactly if the app is not at its target, also
      where the engine refuses a limit: the floor above it is then due. */
  lemma PassWritesIff(a: App, target: seq<int>, signer: string)
    requires Writable(a, signer) && ValidRow(target)
    ensures Writes(a, target, signer, 9) == 0 <==> AtTarget(a, target)
  {
    if Writes(a, target, signer, 9) == 0 {
      NoWritesNoChange(a, target, signer, 9);
      OnePassSufficesIff(a, target, signer);
    }
    if AtTarget(a, target) { NothingDue(a, target, signer, 9); }
  }

  /** The keys among the first k that a pass writes: off their target and not refused. */
  ghost function DueKeys(a: App, target: seq<int>, k: nat): set<nat>
    requires |a.copy| == |a.engine| == |target| == 9 && k <= 9
  {
    set i: nat | i < k && a.copy[i] != Some(target[i]) && !Refused(a, target, i)
  }

  lemma DueAgain(a: App, b: App, target: seq<int>, signer: string, i: nat)
    requires Writable(a, signer) && ValidRow(target) && i < 9 && Outcome(a, b, target, signer, i)
    ensures Due(b, i, target[i], signer) <==> a.copy[i] != Some(target[i]) && !Refused(a, target, i)
  {
    StepAccepted(a, b, target, signer, i);
  }

  lemma DueKeysStep(a: App, target: seq<int>, i: nat)
    requires |a.copy| == |a.engine| == |target| == 9 && i < 9
    ensures |DueKeys(a, target, i + 1)|
         == |DueKeys(a, target, i)| + if a.copy[i] != Some(target[i]) && !Refused(a, target, i) then 1 else 0
  {
    if a.copy[i] != Some(target[i]) && !Refused(a, target, i) {
      assert DueKeys(a, target, i + 1) == DueKeys(a, target, i) + {i};
    } else {
      assert DueKeys(a, target, i + 1) == DueKeys(a, target, i);
    }
  }

  /** A pass of the admin writes exactly these. */
  lemma {:induction false} WritesAre(a: App, target: seq<int>, signer: string, k: nat)
    requires Writable(a, signer) && ValidRow(target) && k <= 9
    ensures Writes(a, target, signer, k) == |DueKeys(a, target, k)|
  {
    if k > 0 {
      WritesAre(a, target, signer, k - 1);
      StepsOutcome(a, target, signer, k - 1);
      DueAgain(a, Steps(a, target, signer, k - 1), target, signer, k - 1);
      DueKeysStep(a, target, k - 1);
    }
  }

  // ---------- Dry runs ----------

  /** A simulated write of key i is refused: the dry run tries each key on the row as it is. */
  predicate DryRefused(a: App, target: seq<int>, i: nat, signer: string)
    requires |a.copy| == |target| == 9 && i < 9
  {
    a.copy[i] != Some(target[i]) && !Accepts(a, i, target[i], signer)
  }

  ghost predicate DryRunFails(a: App, target: seq<int>, signer: string)
    requires |a.copy| == |target| == 9
  {
    exists i: nat :: i < 9 && DryRefused(a, target, i, signer)
  }

  /** Some new solve floor exceeds the current time limit, which the pass would raise first. */
  predicate FloorAboveCurrentLimit(a: App, target: seq<int>)
    requires |a.engine| == |target| == 9
  {
    target[3] > a.engine[0] || target[4] > a.engine[1] || target[5] > a.engine[2]
  }

  lemma DryKey(a: App, target: seq<int>, i: nat, signer: string)
    requires Writable(a, signer) && ValidRow(target) && i < 9
    ensures DryRefused(a, target, i, signer) <==>
              (i < 3 && a.engine[3 + i] > target[i]) || (3 <= i < 6 && target[i] > a.engine[i - 3])
  {
    var row := a.engine[i := target[i]];
    assert InRange(i, target[i]);
    assert forall j :: 0 <= j < 9 && j != i ==> row[j] == a.engine[j];
    assert forall j :: 0 <= j < 9 ==> InRange(j, row[j]);
    assert ValidRow(row) <==> FloorsBelowLimits(row, row);
  }

  /** A dry run over an app of the signer fails exactly if the pass needs a second one or a
      new floor exceeds a current limit. */
  lemma DryRunFailsIff(a: App, target: seq<int>, signer: string)
    requires Writable(a, signer) && ValidRow(target)
    ensures DryRunFails(a, target, signer) <==> Hard(a, target) || FloorAboveCurrentLimit(a, target)
  {
    forall i: nat | i < 9
      ensures DryRefused(a, target, i, signer) <==>
                (i < 3 && a.engine[3 + i] > target[i]) || (3 <= i < 6 && target[i] > a.engine[i - 3])
    {
      DryKey(a, target, i, signer);
    }
    if Hard(a, target) || FloorAboveCurrentLimit(a, target) {
      assert DryRefused(a, target, 0, signer) || DryRefused(a, target, 1, signer) || DryRefused(a, target, 2, signer)
          || DryRefused(a, target, 3, signer) || DryRefused(a, target, 4, signer) || DryRefused(a, target, 5, signer);
    }
  }

  /** So it foretells whether the pass reaches the target exactly if a second pass is needed
      anyway or no new floor exceeds a current limit. */
  lemma DryRunForetellsIff(a: App, target: seq<int>, signer: string)
    requires Writable(a, signer) && ValidRow(target)
    ensures (DryRunFails(a, target, signer) <==> !AtTarget(Pass(a, target, signer), target))
       <==> Hard(a, target) || !FloorAboveCurrentLimit(a, target)
  {
    DryRunFailsIff(a, target, signer);
    OnePassSufficesIff(a, target, signer);
  }

  // ---------- Pre-flight validation ----------

  datatype Rejection =
    | WrongCount
    | Missing(param: string)
    | KeyTooLong(param: string)
    | OutOfRange(param: string)
    | UnknownKey
    | FloorAboveLimit(difficulty: nat)

  function TargetOf(descriptors: map<string, int>): seq<int>
    requires forall i :: 0 <= i < 9 ==> PARAM_ORDER[i] in descriptors
  {
    seq(9, i requires 0 <= i < 9 => descriptors[PARAM_ORDER[i]])
  }

  /** The family of a parameter is its name without the last character. */
  method BoundsReason(param: string, value: int) returns (bad: bool)
    requires |param| > 0
    ensures forall i :: 0 <= i < 9 && param == PARAM_ORDER[i] ==> (bad <==> !InRange(i, value))
  {
    var stem := param[..|param| - 1];
    if stem == "limitMs" {
      bad := value < RG_MIN_LIMIT_MS || value > RG_MAX_LIMIT_MS;
    } else if stem == "minSolveMs" {
      bad := value < 0 || value > RG_MAX_MIN_SOLVE_MS;
    } else if stem == "targetScore" {
      bad := value < RG_MIN_TARGET_SCORE || value > RG_MAX_TARGET_SCORE;
    } else {
      bad := false;
    }
    forall i | 0 <= i < 9 && param == PARAM_ORDER[i] ensures bad <==> !InRange(i, value) {
      Stems(i);
    }
  }

  lemma Stems(i: nat)
    requires i < 9
    ensures |PARAM_ORDER[i]| > 0
    ensures PARAM_ORDER[i][..|PARAM_ORDER[i]| - 1] ==
              if i < 3 then "limitMs" else if i < 6 then "minSolveMs" else "targetScore"
  {
    assert PARAM_ORDER[0][..7] == "limitMs" && PARAM_ORDER[1][..7] == "limitMs" && PARAM_ORDER[2][..7] == "limitMs";
    assert PARAM_ORDER[3][..10] == "minSolveMs" && PARAM_ORDER[4][..10] == "minSolveMs";
    assert PARAM_ORDER[5][..10] == "minSolveMs";
    assert PARAM_ORDER[6][..11] == "targetScore" && PARAM_ORDER[7][..11] == "targetScore";
    assert PARAM_ORDER[8][..11] == "targetScore";
  }

  lemma ParamsDistinct()
    ensures forall i, j :: 0 <= i < j < 9 ==> PARAM_ORDER[i] != PARAM_ORDER[j]
  {
    forall i, j | 0 <= i < j < 9 ensures PARAM_ORDER[i] != PARAM_ORDER[j] {
      Stems(i);
      Stems(j);
      if PARAM_ORDER[i] == PARAM_ORDER[j] { LastCharacters(i); LastCharacters(j); }
    }
  }

  lemma LastCharacters(i: nat)
    requires i < 9
    ensures PARAM_ORDER[i][|PARAM_ORDER[i]| - 1] == ['0', '1', '2'][i % 3]
  {
    assert PARAM_ORDER[0][7] == '0' && PARAM_ORDER[1][7] == '1' && PARAM_ORDER[2][7] == '2';
    assert PARAM_ORDER[3][10] == '0' && PARAM_ORDER[4][10] == '1' && PARAM_ORDER[5][10] == '2';
    assert PARAM_ORDER[6][11] == '0' && PARAM_ORDER[7][11] == '1' && PARAM_ORDER[8][11] == '2';
  }

  /** Nine keys that include the nine canonical ones are exactly those. */
  lemma NothingElse(descriptors: map<string, int>)
    requires |descriptors| == 9 && forall i :: 0 <= i < 9 ==> PARAM_ORDER[i] in descriptors
    ensures forall key :: key in descriptors ==> key in PARAM_ORDER
  {
    ParamsDistinct();
    PrefixSize(9);
    var canonical := set i | 0 <= i < 9 :: PARAM_ORDER[i];
    assert canonical <= descriptors.Keys;
    assert |descriptors.Keys - canonical| == |descriptors.Keys| - |canonical|;
    assert descriptors.Keys - canonical == {};
    forall key | key in descriptors ensures key in PARAM_ORDER {
    }
  }

  lemma {:induction false} PrefixSize(n: nat)
    requires n <= 9
    ensures |set i | 0 <= i < n :: PARAM_ORDER[i]| == n
  {
    if n > 0 {
      PrefixSize(n - 1);
      ParamsDistinct();
      var s := set i | 0 <= i < n - 1 :: PARAM_ORDER[i];
      forall i | 0 <= i < n - 1 ensures PARAM_ORDER[i] != PARAM_ORDER[n - 1] {}
      assert PARAM_ORDER[n - 1] !in s;
      assert (set i | 0 <= i < n :: PARAM_ORDER[i]) == s + {PARAM_ORDER[n - 1]};
    }
  }

  /** The loop over the canonical names: presence, key length, range. */
  method CheckParams(descriptors: map<string, int>, engineId: string) returns (reason: Option<Rejection>)
    ensures reason == None <==>
            forall j :: 0 <= j < 9 ==>
              && PARAM_ORDER[j] in descriptors
              && |engineId| + 1 + |PARAM_ORDER[j]| <= MAX_DESCRIPTOR_KEY_LENGTH
              && InRange(j, descriptors[PARAM_ORDER[j]])
    ensures reason != Some(UnknownKey)
  {
    for i := 0 to |PARAM_ORDER|
      invariant forall j :: 0 <= j < i ==>
                  && PARAM_ORDER[j] in descriptors
                  && |engineId| + 1 + |PARAM_ORDER[j]| <= MAX_DESCRIPTOR_KEY_LENGTH
                  && InRange(j, descriptors[PARAM_ORDER[j]])
    {
      var param := PARAM_ORDER[i];
      Stems(i);
      if param !in descriptors {
        return Some(Missing(param));
      }
      if |engineId| + 1 + |param| > MAX_DESCRIPTOR_KEY_LENGTH {
        return Some(KeyTooLong(param));
      }
      var bad := BoundsReason(param, descriptors[param]);
      if bad {
        return Some(OutOfRange(param));
      }
    }
    return None;
  }

  /** The validator accepts exactly the sets whose nine values form a valid engine row; with
      the key count and the nine names checked first, its unknown-key case cannot arise. */
  method ValidateDescriptorSet(descriptors: map<string, int>, engineId: string) returns (reason: Option<Rejection>)
    ensures reason == None <==>
            && |descriptors| == 9
            && (forall i :: 0 <= i < 9 ==> PARAM_ORDER[i] in descriptors)
            && (forall i :: 0 <= i < 9 ==> |engineId| + 1 + |PARAM_ORDER[i]| <= 128)
            && ValidRow(TargetOf(descriptors))
    ensures reason != Some(UnknownKey)
  {
    if |descriptors| != |PARAM_ORDER| {
      return Some(WrongCount);
    }
    reason := CheckParams(descriptors, engineId);
    if forall j :: 0 <= j < 9 ==> PARAM_ORDER[j] in descriptors {
      TargetParts(descriptors);
    }
    if reason != None {
      return;
    }
    NothingElse(descriptors);
    if exists key :: key in descriptors && key !in PARAM_ORDER {
      return Some(UnknownKey);
    }
    reason := CheckPairs(descriptors);
  }

  lemma TargetParts(descriptors: map<string, int>)
    requires forall j :: 0 <= j < 9 ==> PARAM_ORDER[j] in descriptors
    ensures ValidRow(TargetOf(descriptors)) <==>
              && (forall j :: 0 <= j < 9 ==> InRange(j, descriptors[PARAM_ORDER[j]]))
              && (var target := TargetOf(descriptors);
                  target[3] <= target[0] && target[4] <= target[1] && target[5] <= target[2])
  {
    assert forall j :: 0 <= j < 9 ==> TargetOf(descriptors)[j] == descriptors[PARAM_ORDER[j]];
  }

  /** The last loop: no floor above its limit. */
  method CheckPairs(descriptors: map<string, int>) returns (reason: Option<Rejection>)
    requires forall i :: 0 <= i < 9 ==> PARAM_ORDER[i] in descriptors
    ensures var target := TargetOf(descriptors);
            reason == None <==> target[3] <= target[0] && target[4] <= target[1] && target[5] <= target[2]
    ensures reason != Some(UnknownKey)
  {
    ghost var target := TargetOf(descriptors);
    for d := 0 to 3
      invariant d > 0 ==> target[3] <= target[0]
      invariant d > 1 ==> target[4] <= target[1]
      invariant d > 2 ==> target[5] <= target[2]
    {
      var limit, floor := descriptors[PARAM_ORDER[d]], descriptors[PARAM_ORDER[3 + d]];
      assert limit == target[d] && floor == target[3 + d];
      if floor > limit {
        return Some(FloorAboveLimit(d));
      }
    }
    return None;
  }
}
