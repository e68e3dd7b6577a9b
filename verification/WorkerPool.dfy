/** `withConcurrency`: workers sharing one index, as a state machine over interleaved
    atomic steps.  Between two awaits a worker runs undisturbed, so a step is: take the
    next index, store a result that has arrived, fail, or stop. */
module WorkerPool {
  import opened Wrappers

  datatype Worker =
    | Idle              // at the loop head
    | Busy(index: nat)  // awaiting the call for this index
    | Stopped           // left the loop
    | Broken(at: nat)   // its call rejected

  datatype State<R> = State(next: nat, workers: seq<Worker>, out: seq<Option<R>>)

  datatype Step = Take(w: nat) | Store(w: nat) | Reject(w: nat) | Leave(w: nat)

  function Min(a: int, b: int): int {
    if a < b then a else b
  }

  /** `Array.from({ length: Math.min(limit, items.length) }, run)`: a negative length makes none. */
  function WorkerCount(limit: int, n: nat): nat {
    if Min(limit, n) < 0 then 0 else Min(limit, n)
  }

  function Init<R>(limit: int, n: nat): State<R> {
    State(0, seq(WorkerCount(limit, n), _ => Idle), seq(n, _ => None))
  }

  predicate Enabled<R>(s: State<R>, step: Step) {
    && step.w < |s.workers|
    && match step
       case Take(w) => s.workers[w].Idle? && s.next < |s.out|
       case Store(w) => s.workers[w].Busy? && s.workers[w].index < |s.out|
       case Reject(w) => s.workers[w].Busy?
       case Leave(w) => s.workers[w].Idle? && s.next >= |s.out|
  }

  /** `answer(i)` is what the call for index `i` resolves to. */
  function Apply<R>(s: State<R>, step: Step, answer: nat -> R): State<R>
    requires Enabled(s, step)
  {
    match step
    case Take(w) => s.(next := s.next + 1, workers := s.workers[w := Busy(s.next)])
    case Store(w) =>
      var i := s.workers[w].index;
      s.(workers := s.workers[w := Idle], out := s.out[i := Some(answer(i))])
    case Reject(w) => s.(workers := s.workers[w := Broken(s.workers[w].index)])
    case Leave(w) => s.(workers := s.workers[w := Stopped])
  }

  ghost predicate ValidRun<R>(s: State<R>, steps: seq<Step>, answer: nat -> R)
    decreases |steps|
  {
    steps == [] || (Enabled(s, steps[0]) && ValidRun(Apply(s, steps[0], answer), steps[1..], answer))
  }

  function After<R>(s: State<R>, steps: seq<Step>, answer: nat -> R): State<R>
    decreases |steps|
  {
    if steps == [] || !Enabled(s, steps[0]) then s else After(Apply(s, steps[0], answer), steps[1..], answer)
  }

  // ---------- Bookkeeping ----------

  /** The index a worker holds. */
  function Held(w: Worker): Option<nat> {
    match w
    case Busy(i) => Some(i)
    case Broken(i) => Some(i)
    case _ => None
  }

  function CountHolding(ws: seq<Worker>): nat {
    if ws == [] then 0
    else CountHolding(ws[..|ws| - 1]) + if Held(ws[|ws| - 1]).Some? then 1 else 0
  }

  function CountDone<R>(out: seq<Option<R>>): nat {
    if out == [] then 0
    else CountDone(out[..|out| - 1]) + if out[|out| - 1].Some? then 1 else 0
  }

  /** Every index below `next` is either finished, with its own answer, or held by exactly
      one worker; nothing at or above `next` has been touched. */
  ghost predicate Inv<R>(s: State<R>, limit: int, n: nat, answer: nat -> R) {
    && |s.out| == n && |s.workers| == WorkerCount(limit, n) && s.next <= n && (s.next > 0 ==> |s.workers| > 0)
    && (forall i :: 0 <= i < n && s.out[i].Some? ==> i < s.next && s.out[i].value == answer(i))
    && (forall w :: 0 <= w < |s.workers| && Held(s.workers[w]).Some? ==>
          Held(s.workers[w]).value < s.next && s.out[Held(s.workers[w]).value] == None)
    && (forall v, w :: 0 <= v < w < |s.workers| && Held(s.workers[v]).Some? ==>
          Held(s.workers[v]) != Held(s.workers[w]))
    && (forall i :: 0 <= i < s.next && s.out[i] == None ==> Holder(s, i))
    && (forall w :: 0 <= w < |s.workers| && s.workers[w].Stopped? ==> s.next == n)
    && s.next == CountDone(s.out) + CountHolding(s.workers)
  }

  ghost predicate Holder<R>(s: State<R>, i: nat) {
    exists w :: 0 <= w < |s.workers| && Held(s.workers[w]) == Some(i)
  }

  lemma {:induction false} HoldingUpdate(ws: seq<Worker>, w: nat, x: Worker)
    requires w < |ws|
    ensures CountHolding(ws[w := x]) + (if Held(ws[w]).Some? then 1 else 0)
         == CountHolding(ws) + (if Held(x).Some? then 1 else 0)
  {
    var front, front' := ws[..|ws| - 1], ws[w := x][..|ws| - 1];
    if w == |ws| - 1 {
      assert front == front';
    } else {
      HoldingUpdate(front, w, x);
      assert front' == front[w := x];
    }
  }

  lemma {:induction false} DoneUpdate<R>(out: seq<Option<R>>, i: nat, r: R)
    requires i < |out| && out[i] == None
    ensures CountDone(out[i := Some(r)]) == CountDone(out) + 1
  {
    var front, front' := out[..|out| - 1], out[i := Some(r)][..|out| - 1];
    if i == |out| - 1 {
      assert front == front';
    } else {
      DoneUpdate(front, i, r);
      assert front' == front[i := Some(r)];
    }
  }

  lemma {:induction false} NothingHeld(k: nat)
    ensures CountHolding(seq(k, _ => Idle)) == 0
  {
    if k > 0 {
      NothingHeld(k - 1);
      assert seq(k, _ => Idle)[..k - 1] == seq(k - 1, _ => Idle);
    }
  }

  lemma {:induction false} NothingDone<R>(n: nat)
    ensures CountDone<R>(seq(n, _ => None)) == 0
  {
    if n > 0 {
      NothingDone<R>(n - 1);
      assert seq(n, _ => None)[..n - 1] == seq<Option<R>>(n - 1, _ => None);
    }
  }

  lemma InitInv<R>(limit: int, n: nat, answer: nat -> R)
    ensures Inv(Init(limit, n), limit, n, answer)
  {
    NothingHeld(WorkerCount(limit, n));
    NothingDone<R>(n);
  }

  // ---------- Every step keeps the invariant ----------

  lemma TakeKeepsInv<R>(s: State<R>, w: nat, limit: int, n: nat, answer: nat -> R)
    requires Inv(s, limit, n, answer) && Enabled(s, Take(w))
    ensures Inv(Apply(s, Take(w), answer), limit, n, answer)
  {
    var t := Apply(s, Take(w), answer);
    HoldingUpdate(s.workers, w, Busy(s.next));
    forall i | 0 <= i < t.next && t.out[i] == None ensures Holder(t, i) {
      if i == s.next {
        assert Held(t.workers[w]) == Some(i);
      } else {
        assert Holder(s, i);
        var v :| 0 <= v < |s.workers| && Held(s.workers[v]) == Some(i);
        assert Held(t.workers[v]) == Some(i);
      }
    }
  }

  lemma StoreKeepsInv<R>(s: State<R>, w: nat, limit: int, n: nat, answer: nat -> R)
    requires Inv(s, limit, n, answer) && Enabled(s, Store(w))
    ensures Inv(Apply(s, Store(w), answer), limit, n, answer)
  {
    var i := s.workers[w].index;
    var t := Apply(s, Store(w), answer);
    assert Held(s.workers[w]) == Some(i);
    HoldingUpdate(s.workers, w, Idle);
    DoneUpdate(s.out, i, answer(i));
    forall j | 0 <= j < t.next && t.out[j] == None ensures Holder(t, j) {
      assert Holder(s, j);
      var v :| 0 <= v < |s.workers| && Held(s.workers[v]) == Some(j);
      assert Held(t.workers[v]) == Some(j);
    }
  }

  lemma StopKeepsInv<R>(s: State<R>, step: Step, limit: int, n: nat, answer: nat -> R)
    requires Inv(s, limit, n, answer) && Enabled(s, step) && (step.Reject? || step.Leave?)
    ensures Inv(Apply(s, step, answer), limit, n, answer)
  {
    var t := Apply(s, step, answer);
    HoldingUpdate(s.workers, step.w, t.workers[step.w]);
    assert Held(t.workers[step.w]) == Held(s.workers[step.w]);
    forall j | 0 <= j < t.next && t.out[j] == None ensures Holder(t, j) {
      assert Holder(s, j);
      var v :| 0 <= v < |s.workers| && Held(s.workers[v]) == Some(j);
      assert Held(t.workers[v]) == Some(j);
    }
  }

  lemma StepKeepsInv<R>(s: State<R>, step: Step, limit: int, n: nat, answer: nat -> R)
    requires Inv(s, limit, n, answer) && Enabled(s, step)
    ensures Inv(Apply(s, step, answer), limit, n, answer)
  {
    match step
    case Take(w) => TakeKeepsInv(s, w, limit, n, answer);
    case Store(w) => StoreKeepsInv(s, w, limit, n, answer);
    case _ => StopKeepsInv(s, step, limit, n, answer);
  }

  // ---------- Over all interleavings ----------

  lemma {:induction false} RunKeepsInv<R>(s: State<R>, steps: seq<Step>, limit: int, n: nat, answer: nat -> R)
    requires Inv(s, limit, n, answer) && ValidRun(s, steps, answer)
    ensures Inv(After(s, steps, answer), limit, n, answer)
    decreases |steps|
  {
    if steps != [] {
      StepKeepsInv(s, steps[0], limit, n, answer);
      RunKeepsInv(Apply(s, steps[0], answer), steps[1..], limit, n, answer);
    }
  }

  lemma {:induction false} HoldingBound(ws: seq<Worker>)
    ensures CountHolding(ws) <= |ws|
  {
    if ws != [] { HoldingBound(ws[..|ws| - 1]); }
  }

  /** The indices whose call is awaited. */
  ghost function InFlight(ws: seq<Worker>): set<nat> {
    set w | 0 <= w < |ws| && ws[w].Busy? :: ws[w].index
  }

  lemma {:induction false} InFlightAreHeld(ws: seq<Worker>)
    ensures |InFlight(ws)| <= CountHolding(ws)
  {
    if ws != [] {
      var front, last := ws[..|ws| - 1], ws[|ws| - 1];
      InFlightAreHeld(front);
      assert ws == front + [last];
      if last.Busy? {
        assert InFlight(ws) == InFlight(front) + {last.index};
      } else {
        assert InFlight(ws) == InFlight(front);
      }
    }
  }

  /** In every interleaving: no index is held twice or taken again after it finished, the
      taken indices are the finished ones and the held ones, and never more calls are
      awaited than the limit allows, nor more than there are items. */
  lemma EveryInterleaving<R>(steps: seq<Step>, limit: int, n: nat, answer: nat -> R)
    requires ValidRun(Init(limit, n), steps, answer)
    ensures var s := After(Init(limit, n), steps, answer);
            && Inv(s, limit, n, answer)
            && s.next == CountDone(s.out) + CountHolding(s.workers)
            && |InFlight(s.workers)| <= CountHolding(s.workers) <= n
            && (if limit >= 0 then CountHolding(s.workers) <= limit else CountHolding(s.workers) == 0)
            && (forall v, w :: 0 <= v < w < |s.workers| && s.workers[v].Busy? && s.workers[w].Busy? ==>
                  s.workers[v].index != s.workers[w].index)
  {
    InitInv(limit, n, answer);
    RunKeepsInv(Init(limit, n), steps, limit, n, answer);
    var s := After(Init(limit, n), steps, answer);
    HoldingBound(s.workers);
    InFlightAreHeld(s.workers);
    forall v, w | 0 <= v < w < |s.workers| && s.workers[v].Busy? && s.workers[w].Busy?
      ensures s.workers[v].index != s.workers[w].index
    {
      assert Held(s.workers[v]) != Held(s.workers[w]);
    }
  }

  // ---------- The limit is reached ----------

  /** Workers 0 .. k - 1 each take an index. */
  function Takes(k: nat): seq<Step> {
    seq(k, i requires 0 <= i < k => Take(i))
  }

  /** Where k takes lead: index i is with worker i. */
  function Loaded<R>(limit: int, n: nat, k: nat): State<R> {
    var m := WorkerCount(limit, n);
    State(k, seq(m, w requires 0 <= w < m => if w < k then Busy(w) else Idle), seq(n, _ => None))
  }

  lemma {:induction false} TakesLoad<R>(limit: int, n: nat, j: nat, k: nat, answer: nat -> R)
    requires j <= k <= WorkerCount(limit, n)
    ensures ValidRun(Loaded(limit, n, j), Takes(k)[j..], answer)
    ensures After(Loaded(limit, n, j), Takes(k)[j..], answer) == Loaded(limit, n, k)
    decreases k - j
  {
    var s := Loaded<R>(limit, n, j);
    if j < k {
      assert Takes(k)[j..][0] == Take(j) && Takes(k)[j..][1..] == Takes(k)[j + 1..];
      assert Apply(s, Take(j), answer) == Loaded(limit, n, j + 1);
      TakesLoad(limit, n, j + 1, k, answer);
    }
  }

  /** After these steps the calls under way are those of the first `limit` items, or of all. */
  ghost predicate FullyLoads<R>(steps: seq<Step>, limit: nat, n: nat, answer: nat -> R) {
    && ValidRun(Init(limit, n), steps, answer)
    && forall i: nat :: i in InFlight(After(Init(limit, n), steps, answer).workers) <==> i < limit && i < n
  }

  /** Some run has as many calls under way at once as the limit and the items allow. */
  lemma LimitIsReached<R>(limit: nat, n: nat, answer: nat -> R)
    ensures exists steps: seq<Step> :: FullyLoads(steps, limit, n, answer)
  {
    var k := WorkerCount(limit, n);
    var steps := Takes(k);
    TakesLoad(limit, n, 0, k, answer);
    assert Loaded<R>(limit, n, 0) == Init(limit, n) && steps[0..] == steps;
    var ws := After(Init(limit, n), steps, answer).workers;
    forall i: nat ensures i in InFlight(ws) <==> i < limit && i < n {
      if i < k { assert ws[i] == Busy(i); }
    }
    assert FullyLoads(steps, limit, n, answer);
  }

  // ---------- Termination and progress ----------

  function Weight(w: Worker): nat {
    match w
    case Idle => 1
    case Busy(_) => 2
    case _ => 0
  }

  function TotalWeight(ws: seq<Worker>): nat {
    if ws == [] then 0 else TotalWeight(ws[..|ws| - 1]) + Weight(ws[|ws| - 1])
  }

  function Measure<R>(s: State<R>): int {
    2 * (|s.out| - s.next) + TotalWeight(s.workers)
  }

  lemma {:induction false} WeightUpdate(ws: seq<Worker>, w: nat, x: Worker)
    requires w < |ws|
    ensures TotalWeight(ws[w := x]) == TotalWeight(ws) - Weight(ws[w]) + Weight(x)
  {
    var front, front' := ws[..|ws| - 1], ws[w := x][..|ws| - 1];
    if w == |ws| - 1 {
      assert front == front';
    } else {
      WeightUpdate(front, w, x);
      assert front' == front[w := x];
    }
  }

  lemma StepDecreasesMeasure<R>(s: State<R>, step: Step, answer: nat -> R)
    requires Enabled(s, step)
    ensures Measure(Apply(s, step, answer)) < Measure(s)
  {
    WeightUpdate(s.workers, step.w, Apply(s, step, answer).workers[step.w]);
  }

  /** No interleaving has more than 2n + min(limit, n) steps. */
  lemma {:induction false} RunsAreShort<R>(s: State<R>, steps: seq<Step>, limit: int, n: nat, answer: nat -> R)
    requires Inv(s, limit, n, answer) && ValidRun(s, steps, answer)
    ensures |steps| <= Measure(s)
    decreases |steps|
  {
    if steps != [] {
      StepKeepsInv(s, steps[0], limit, n, answer);
      StepDecreasesMeasure(s, steps[0], answer);
      RunsAreShort(Apply(s, steps[0], answer), steps[1..], limit, n, answer);
    }
  }

  lemma {:induction false} IdleWeight(k: nat)
    ensures TotalWeight(seq(k, _ => Idle)) == k
  {
    if k > 0 {
      IdleWeight(k - 1);
      assert seq(k, _ => Idle)[..k - 1] == seq(k - 1, _ => Idle);
    }
  }

  /** Two steps for each item and a last one for each worker; a negative limit allows none. */
  lemma EveryInterleavingIsShort<R>(steps: seq<Step>, limit: int, n: nat, answer: nat -> R)
    requires ValidRun(Init(limit, n), steps, answer)
    ensures |steps| <= 3 * n
    ensures limit >= 0 ==> |steps| <= 2 * n + limit
    ensures limit <= 0 ==> steps == []
  {
    InitInv(limit, n, answer);
    RunsAreShort(Init(limit, n), steps, limit, n, answer);
    IdleWeight(WorkerCount(limit, n));
    if steps != [] { assert Enabled(Init<R>(limit, n), steps[0]); }
  }

  ghost predicate Quiescent<R>(s: State<R>) {
    forall step: Step :: !Enabled(s, step)
  }

  ghost predicate NoneBroken<R>(s: State<R>) {
    forall w :: 0 <= w < |s.workers| ==> !s.workers[w].Broken?
  }

  /** When no step is left and no call rejected, `Promise.all` resolves with the in-order
      map of the items, provided there was a worker at all; with a limit below one and
      something to do, every slot stays empty. */
  lemma QuiescentResult<R>(s: State<R>, limit: int, n: nat, answer: nat -> R)
    requires Inv(s, limit, n, answer) && Quiescent(s) && NoneBroken(s)
    ensures forall w :: 0 <= w < |s.workers| ==> s.workers[w].Stopped?
    ensures s.out == seq(n, i requires 0 <= i < n => Some(answer(i))) <==> limit >= 1 || n == 0
    ensures limit < 1 ==> s.out == seq(n, _ => None)
  {
    forall w | 0 <= w < |s.workers| ensures s.workers[w].Stopped? {
      assert !Enabled(s, Take(w)) && !Enabled(s, Store(w)) && !Enabled(s, Leave(w));
      assert Held(s.workers[w]).Some? ==> Held(s.workers[w]).value < s.next;
    }
    if limit >= 1 && n > 0 {
      assert s.workers[0].Stopped?;
      forall i | 0 <= i < n ensures s.out[i] == Some(answer(i)) {
        assert s.out[i] == None ==> Holder(s, i);
      }
    } else if n > 0 {
      forall i | 0 <= i < n ensures s.out[i] == None {
        assert s.out[i].Some? ==> i < s.next;
      }
      assert s.out[0] != Some(answer(0));
    }
  }

  // ---------- The pool as a program ----------

  /** What a worker that is neither stopped nor broken does when it is scheduled. */
  function TurnOf<R>(s: State<R>, w: nat): Step
    requires w < |s.workers|
  {
    if s.workers[w].Busy? then Store(w) else if s.next < |s.out| then Take(w) else Leave(w)
  }

  lemma TurnKeepsInv<R>(s: State<R>, w: nat, limit: int, n: nat, answer: nat -> R)
    requires Inv(s, limit, n, answer) && NoneBroken(s) && w < |s.workers| && !s.workers[w].Stopped?
    ensures s.workers[w].Busy? ==> s.workers[w].index < n && s.out[s.workers[w].index] == None
    ensures Enabled(s, TurnOf(s, w))
    ensures Inv(Apply(s, TurnOf(s, w), answer), limit, n, answer) && NoneBroken(Apply(s, TurnOf(s, w), answer))
    ensures Measure(Apply(s, TurnOf(s, w), answer)) < Measure(s)
  {
    assert Held(s.workers[w]).Some? ==> Held(s.workers[w]).value < s.next && s.out[Held(s.workers[w]).value] == None;
    StepKeepsInv(s, TurnOf(s, w), limit, n, answer);
    StepDecreasesMeasure(s, TurnOf(s, w), answer);
  }

  lemma AllStoppedResult<R>(s: State<R>, limit: int, n: nat, answer: nat -> R)
    requires Inv(s, limit, n, answer) && forall w :: 0 <= w < |s.workers| ==> s.workers[w].Stopped?
    ensures s.out == if limit >= 1 then seq(n, i requires 0 <= i < n => Some(answer(i))) else seq(n, _ => None)
  {
    forall step: Step ensures !Enabled(s, step) {}
    QuiescentResult(s, limit, n, answer);
  }

  /** What a worker does between two awaits: store the answer that arrived, take the next
      index, or leave. */
  method TakeTurn<R>(out: array<Option<R>>, workers: array<Worker>, w: nat, index: nat, answer: nat -> R,
                     ghost s: State<R>)
    returns (next: nat)
    requires w < workers.Length && s == State(index, workers[..], out[..]) && Enabled(s, TurnOf(s, w))
    modifies out, workers
    ensures State(next, workers[..], out[..]) == Apply(s, TurnOf(s, w), answer)
  {
    next := index;
    match workers[w] {
      case Busy(i) =>
        out[i] := Some(answer(i));
        workers[w] := Idle;
      case Idle =>
        if index < out.Length {
          workers[w] := Busy(index);
          next := index + 1;
        } else {
          workers[w] := Stopped;
        }
      case _ =>
    }
  }

  /** `withConcurrency(items, limit, worker)` under an arbitrary scheduler: any worker that
      has not stopped may go next.  Calls resolve; `answer(i)` is what call i resolves to. */
  method WithConcurrency<R>(n: nat, limit: int, answer: nat -> R) returns (out: array<Option<R>>)
    ensures fresh(out) && out.Length == n
    ensures out[..] == if limit >= 1 then seq(n, i requires 0 <= i < n => Some(answer(i))) else seq(n, _ => None)
  {
    out := new Option<R>[n](_ => None);
    var workers := new Worker[WorkerCount(limit, n)](_ => Idle);
    var index := 0;
    ghost var s := Init<R>(limit, n);
    InitInv(limit, n, answer);
    while exists w :: 0 <= w < workers.Length && workers[w] != Stopped
      invariant s.next == index <= n && s.workers == workers[..] && s.out == out[..]
      invariant Inv(s, limit, n, answer) && NoneBroken(s)
      decreases Measure(s)
    {
      var w :| 0 <= w < workers.Length && workers[w] != Stopped;
      TurnKeepsInv(s, w, limit, n, answer);
      index := TakeTurn(out, workers, w, index, answer, s);
      s := Apply(s, TurnOf(s, w), answer);
    }
    AllStoppedResult(s, limit, n, answer);
  }
}
