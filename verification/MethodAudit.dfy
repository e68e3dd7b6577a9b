/** The safe-read loop of the method verifier: statuses, the read budget and the counters
    that the pool's callbacks update while reads of one app are interleaved. */
module MethodAudit {
  import opened Wrappers
  import opened WorkerPool

  datatype Status = Halted | ExpectedFault | SampleFault | RpcOrSampleError | Failure

  /** What the RPC returned: nothing (an error was thrown) or a VM state and whether its
      exception text matches the expected-empty-state pattern. */
  datatype Reply = Thrown | Vm(halt: bool, expectedEmpty: bool)

  function VerifySafeMethod(reply: Reply, hard: bool): (s: Status)
    ensures s == Failure ==> hard
    ensures hard ==> s in {Halted, Failure}
    ensures s == Halted <==> reply.Vm? && reply.halt
    ensures s == RpcOrSampleError <==> reply.Thrown? && !hard
    ensures s == ExpectedFault <==> reply.Vm? && !reply.halt && reply.expectedEmpty && !hard
  {
    match reply
    case Thrown => if hard then Failure else RpcOrSampleError
    case Vm(halt, expectedEmpty) =>
      if halt then Halted
      else if hard then Failure
      else if expectedEmpty then ExpectedFault
      else SampleFault
  }

  function Results(answers: seq<Status>): seq<Option<Status>> {
    seq(|answers|, i requires 0 <= i < |answers| => Some(answers[i]))
  }

  /** The result counters at one moment. */
  datatype Tally = Tally(attempted: nat, halt: nat, expectedFault: nat, sampleFault: nat, hardFailures: nat)

  function AddOne(t: Tally, s: Status): Tally {
    var u := t.(attempted := t.attempted + 1);
    match s
    case Halted => u.(halt := t.halt + 1)
    case ExpectedFault => u.(expectedFault := t.expectedFault + 1)
    case SampleFault => u.(sampleFault := t.sampleFault + 1)
    case RpcOrSampleError => u.(sampleFault := t.sampleFault + 1)
    case Failure => u.(hardFailures := t.hardFailures + 1)
  }

  /** A tally after the stored results have been counted as well. */
  function Add(t: Tally, out: seq<Option<Status>>): Tally {
    if out == [] then t
    else
      var u := Add(t, out[..|out| - 1]);
      if out[|out| - 1].Some? then AddOne(u, out[|out| - 1].value) else u
  }

  lemma {:induction false} AddUpdate(t: Tally, out: seq<Option<Status>>, i: nat, s: Status)
    requires i < |out| && out[i] == None
    ensures Add(t, out[i := Some(s)]) == AddOne(Add(t, out), s)
  {
    var front, front' := out[..|out| - 1], out[i := Some(s)][..|out| - 1];
    if i == |out| - 1 {
      assert front == front';
    } else {
      AddUpdate(t, front, i, s);
      assert front' == front[i := Some(s)];
    }
  }

  lemma {:induction false} AddNone(t: Tally, n: nat)
    ensures Add(t, seq(n, _ => None)) == t
  {
    if n > 0 {
      AddNone(t, n - 1);
      assert seq(n, _ => None)[..n - 1] == seq<Option<Status>>(n - 1, _ => None);
    }
  }

  /** Counting a full result list adds to each counter the number of results of its class. */
  lemma {:induction false} AddResults(t: Tally, answers: seq<Status>)
    ensures var of := multiset(answers);
            Add(t, Results(answers)) == Tally(
              t.attempted + |answers|, t.halt + of[Halted], t.expectedFault + of[ExpectedFault],
              t.sampleFault + of[SampleFault] + of[RpcOrSampleError], t.hardFailures + of[Failure])
  {
    if answers != [] {
      var front := answers[..|answers| - 1];
      AddResults(t, front);
      assert Results(answers)[..|answers| - 1] == Results(front);
      assert answers == front + [answers[|answers| - 1]];
    }
  }

  lemma {:induction false} ClassesAddUp(answers: seq<Status>)
    ensures var of := multiset(answers);
            of[Halted] + of[ExpectedFault] + of[SampleFault] + of[RpcOrSampleError] + of[Failure] == |answers|
  {
    if answers != [] {
      var front, last := answers[..|answers| - 1], answers[|answers| - 1];
      ClassesAddUp(front);
      assert answers == front + [last];
      assert multiset(answers) == multiset(front) + multiset{last};
      assert last.Halted? || last.ExpectedFault? || last.SampleFault? || last.RpcOrSampleError? || last.Failure?;
    }
  }

  /** A worker's turn changes the count by its result, if one arrives. */
  lemma AddTurn(t: Tally, s: State<Status>, w: nat, answer: nat -> Status)
    requires w < |s.workers| && Enabled(s, TurnOf(s, w))
    requires s.workers[w].Busy? ==> s.out[s.workers[w].index] == None
    ensures Add(t, Apply(s, TurnOf(s, w), answer).out)
         == if s.workers[w].Busy? then AddOne(Add(t, s.out), answer(s.workers[w].index)) else Add(t, s.out)
  {
    if s.workers[w].Busy? {
      AddUpdate(t, s.out, s.workers[w].index, answer(s.workers[w].index));
    }
  }

  class Counters {
    var discovered: nat
    var skipped: nat
    var tally: Tally

    constructor ()
      ensures discovered == skipped == 0 && tally == Tally(0, 0, 0, 0, 0)
    {
      discovered, skipped, tally := 0, 0, Tally(0, 0, 0, 0, 0);
    }

    /** Every read attempted is in exactly one result class; every read discovered was
        attempted or skipped. */
    ghost predicate Balanced()
      reads this
    {
      && tally.attempted + skipped == discovered
      && tally.attempted == tally.halt + tally.expectedFault + tally.sampleFault + tally.hardFailures
    }

    /** One scheduled worker runs up to its next await. */
    method TakeTurn(out: array<Option<Status>>, workers: array<Worker>, nextIndex: nat, w: nat, answers: seq<Status>,
                    ghost s: State<Status>, ghost answer: nat -> Status) returns (next: nat)
      requires s == State(nextIndex, workers[..], out[..]) && out.Length == |answers|
      requires w < workers.Length && Enabled(s, TurnOf(s, w))
      requires forall i: nat :: i < |answers| ==> answer(i) == answers[i]
      modifies this`tally, out, workers
      ensures State(next, workers[..], out[..]) == Apply(s, TurnOf(s, w), answer)
      ensures tally == if s.workers[w].Busy? then AddOne(old(tally), answer(s.workers[w].index)) else old(tally)
    {
      next := nextIndex;
      assert workers[w] == s.workers[w];
      if workers[w].Busy? {
        var i := workers[w].index;
        tally := AddOne(tally, answers[i]);
        out[i] := Some(answers[i]);
        workers[w] := Idle;
      } else if nextIndex < out.Length {
        workers[w] := Busy(nextIndex);
        next := nextIndex + 1;
      } else {
        workers[w] := Stopped;
      }
    }

    /** The same turn, with what the pool's loop keeps. */
    method CountedTurn(out: array<Option<Status>>, workers: array<Worker>, nextIndex: nat, w: nat, answers: seq<Status>,
                       concurrency: nat, ghost start: Tally, ghost s: State<Status>, ghost answer: nat -> Status)
      returns (next: nat)
      requires s == State(nextIndex, workers[..], out[..]) && out.Length == |answers|
      requires w < workers.Length && workers[w] != Stopped
      requires forall i: nat :: i < |answers| ==> answer(i) == answers[i]
      requires Inv(s, concurrency, |answers|, answer) && NoneBroken(s) && tally == Add(start, s.out)
      modifies this`tally, out, workers
      ensures Enabled(s, TurnOf(s, w)) && State(next, workers[..], out[..]) == Apply(s, TurnOf(s, w), answer)
      ensures Inv(Apply(s, TurnOf(s, w), answer), concurrency, |answers|, answer)
      ensures NoneBroken(Apply(s, TurnOf(s, w), answer))
      ensures Measure(Apply(s, TurnOf(s, w), answer)) < Measure(s)
      ensures tally == Add(start, Apply(s, TurnOf(s, w), answer).out)
    {
      TurnKeepsInv(s, w, concurrency, |answers|, answer);
      AddTurn(start, s, w, answer);
      next := TakeTurn(out, workers, nextIndex, w, answers, s, answer);
    }

    /** The pool over one app's reads, in any interleaving: the counters grow by exactly the
        number of results of each class, and the results come back in method order. */
    method ReadAll(answers: seq<Status>, concurrency: nat) returns (out: array<Option<Status>>)
      requires concurrency >= 1
      modifies this`tally
      ensures fresh(out) && out[..] == Results(answers)
      ensures tally == Add(old(tally), Results(answers))
      ensures tally.attempted == old(tally.attempted) + |answers|
      ensures tally.halt == old(tally.halt) + multiset(answers)[Halted]
      ensures tally.expectedFault == old(tally.expectedFault) + multiset(answers)[ExpectedFault]
      ensures tally.sampleFault
           == old(tally.sampleFault) + multiset(answers)[SampleFault] + multiset(answers)[RpcOrSampleError]
      ensures tally.hardFailures == old(tally.hardFailures) + multiset(answers)[Failure]
    {
      var n := |answers|;
      ghost var answer: nat -> Status := (i: nat) => if i < n then answers[i] else Failure;
      out := new Option<Status>[n](_ => None);
      var workers := new Worker[WorkerCount(concurrency, n)](_ => Idle);
      var nextIndex: nat := 0;
      ghost var s := Init<Status>(concurrency, n);
      InitInv(concurrency, n, answer);
      ghost var start := tally;
      AddNone(start, n);
      while exists w :: 0 <= w < workers.Length && workers[w] != Stopped
        invariant s.next == nextIndex <= n && s.workers == workers[..] && s.out == out[..]
        invariant Inv(s, concurrency, n, answer) && NoneBroken(s)
        invariant tally == Add(start, s.out)
        decreases Measure(s)
      {
        var w :| 0 <= w < workers.Length && workers[w] != Stopped;
        nextIndex := CountedTurn(out, workers, nextIndex, w, answers, concurrency, start, s, answer);
        s := Apply(s, TurnOf(s, w), answer);
      }
      AllStoppedResult(s, concurrency, n, answer);
      AddResults(start, answers);
    }
  }

  function TotalMethods(apps: seq<seq<Status>>): nat {
    if apps == [] then 0 else TotalMethods(apps[..|apps| - 1]) + |apps[|apps| - 1]|
  }

  /** The loop over the apps: `apps[a][i]` is the status that the i-th safe method of app a
      has if it is invoked.  After every app the counters balance, and a positive budget is
      used up exactly: the run attempts min(budget, discovered) reads. */
  method VerifyApps(c: Counters, apps: seq<seq<Status>>, maxSafeReads: nat, concurrency: nat)
    requires c.discovered == c.skipped == 0 && c.tally == Tally(0, 0, 0, 0, 0)
    requires concurrency >= 1
    modifies c
    ensures c.Balanced() && c.discovered == TotalMethods(apps)
    ensures c.tally.attempted == if 0 < maxSafeReads < c.discovered then maxSafeReads else c.discovered
  {
    for a := 0 to |apps|
      invariant c.Balanced() && c.discovered == TotalMethods(apps[..a])
      invariant c.tally.attempted == if 0 < maxSafeReads < c.discovered then maxSafeReads else c.discovered
    {
      assert apps[..a + 1][..a] == apps[..a];
      var safeMethods := apps[a];
      c.discovered := c.discovered + |safeMethods|;
      var budget := if maxSafeReads > 0
        then (if maxSafeReads > c.tally.attempted then maxSafeReads - c.tally.attempted else 0)
        else |safeMethods|;
      var toInvoke := if budget < |safeMethods| then safeMethods[..budget] else safeMethods;
      c.skipped := c.skipped + (|safeMethods| - |toInvoke|);
      ClassesAddUp(toInvoke);
      var results := c.ReadAll(toInvoke, concurrency);
    }
    assert apps[..|apps|] == apps;
  }
}
