/** The concurrent run of all flow tests before a deployment: runners, their shared counter and error list,
    and the timeout. */
module TestRuns {
  import opened Wrappers
  import opened DataTrees
  import opened TestCases

  // Where a runner is. From Checking on it is the one that brought the counter to zero.
  datatype Phase =
    | Waiting | Queued | Running | InCase | Adding | Decrementing
    | Checking | Cancelling | Deciding | Completing(failed: bool) | Done

  // One case that has ended, with the errors it recorded.
  datatype Ended = Ended(outcome: Outcome, errors: seq<TestError>)

  datatype Runner = Runner(cases: seq<TestCase>, phase: Phase, results: seq<Ended>, errors: seq<TestError>)

  datatype Future = Pending | Normal | TimedOut | TestsFailed(errors: seq<TestError>)
  datatype Timer = Scheduled | Started | Expired | Cancelled

  datatype State = State(runners: seq<Runner>, remaining: int, testErrors: seq<TestError>, future: Future, timer: Timer,
                         finished: nat)

  // One atomic step of one of the threads.
  datatype Step =
    | Submit(i: nat)                                         // the deploying thread hands a runner to the executor
    | Start(i: nat)                                          // the executor runs it
    | NextCase(i: nat)                                       // another case if there is one, else completion
    | EndCase(i: nat, outcome: Outcome, errors: seq<TestError>) // the one callback of the flow run
    | AddErrors(i: nat)
    | Decrement(i: nat)
    | CheckDone(i: nat)
    | CancelTimer(i: nat)
    | Decide(i: nat)
    | Complete(i: nat)
    | StartTimer
    | Expire

  function Init(tests: seq<seq<TestCase>>): State {
    if tests == [] then State([], 0, [], Normal, Cancelled, 0)
    else State(seq(|tests|, i requires 0 <= i < |tests| => Runner(tests[i], Waiting, [], [])), |tests|, [], Pending,
               Scheduled, 0)
  }

  // A future that is complete stays as it is.
  function Settled(future: Future, value: Future): Future {
    if future.Pending? then value else future
  }

  predicate At(s: State, i: nat, phase: Phase) {
    i < |s.runners| && s.runners[i].phase == phase
  }

  function Moved(s: State, i: nat, phase: Phase): State
    requires i < |s.runners|
  {
    s.(runners := s.runners[i := s.runners[i].(phase := phase)])
  }

  ghost function Next(text: Content -> string, s: State, step: Step): Option<State> {
    match step
    case Submit(i) => if At(s, i, Waiting) then Some(Moved(s, i, Queued)) else None
    case Start(i) => if At(s, i, Queued) then Some(Moved(s, i, Running)) else None
    case NextCase(i) =>
      var more := i < |s.runners| && |s.runners[i].results| < |s.runners[i].cases|;
      if At(s, i, Running) then Some(Moved(s, i, if more then InCase else Adding)) else None
    case EndCase(i, outcome, errors) =>
      if At(s, i, InCase) && |s.runners[i].results| < |s.runners[i].cases|
         && Recorded(text, s.runners[i].cases[|s.runners[i].results|], outcome, errors)
      then
        var r := s.runners[i];
        Some(s.(runners := s.runners[i :=
            Runner(r.cases, Running, r.results + [Ended(outcome, errors)], r.errors + errors)]))
      else None
    case AddErrors(i) =>
      if At(s, i, Adding) then Some(Moved(s, i, Decrementing).(testErrors := s.testErrors + s.runners[i].errors))
          else None
    case Decrement(i) =>
      if !At(s, i, Decrementing) then None
      else if s.remaining - 1 == 0
          then Some(Moved(s, i, Checking).(remaining := s.remaining - 1, finished := s.finished + 1))
      else Some(Moved(s, i, Done).(remaining := s.remaining - 1))
    case CheckDone(i) =>
      if At(s, i, Checking) then Some(Moved(s, i, if s.future.Pending? then Cancelling else Done)) else None
    case CancelTimer(i) =>
      if At(s, i, Cancelling)
          then Some(Moved(s, i, Deciding).(timer := if s.timer.Scheduled? then Cancelled else s.timer)) else None
    case Decide(i) => if At(s, i, Deciding) then Some(Moved(s, i, Completing(s.testErrors != []))) else None
    case Complete(i) =>
      if At(s, i, Completing(true))
          then Some(Moved(s, i, Done).(future := Settled(s.future, TestsFailed(s.testErrors))))
      else if At(s, i, Completing(false)) then Some(Moved(s, i, Done).(future := Settled(s.future, Normal)))
      else None
    case StartTimer => if s.timer.Scheduled? then Some(s.(timer := Started)) else None
    case Expire => if s.timer.Started? then Some(s.(timer := Expired, future := Settled(s.future, TimedOut))) else None
  }

  // Any interleaving: the state after the steps, if each of them was possible.
  ghost function Run(text: Content -> string, s: State, steps: seq<Step>): Option<State>
    decreases |steps|
  {
    if steps == [] then Some(s)
    else
      var before := Run(text, s, steps[..|steps| - 1]);
      if before.None? then None else Next(text, before.value, steps[|steps| - 1])
  }

  // ----- counting runners

  // Still counted by the counter.
  predicate Unfinished(p: Phase) {
    p.Waiting? || p.Queued? || p.Running? || p.InCase? || p.Adding? || p.Decrementing?
  }

  // Inside testsFinished.
  predicate Finishing(p: Phase) {
    p.Checking? || p.Cancelling? || p.Deciding? || p.Completing?
  }

  function Count(runners: seq<Runner>, counted: Phase -> bool): nat {
    if runners == [] then 0
    else (if counted(runners[0].phase) then 1 else 0) + Count(runners[1..], counted)
  }

  lemma {:induction false} CountUpdated(runners: seq<Runner>, counted: Phase -> bool, i: nat, r: Runner)
    requires i < |runners|
    ensures Count(runners[i := r], counted)
         == Count(runners, counted) - (if counted(runners[i].phase) then 1 else 0) + (if counted(r.phase) then 1 else 0)
  {
    if i == 0 {
      assert runners[0 := r][1..] == runners[1..];
    } else {
      assert runners[i := r][1..] == runners[1..][i - 1 := r];
      CountUpdated(runners[1..], counted, i - 1, r);
    }
  }

  lemma {:induction false} CountedOne(runners: seq<Runner>, counted: Phase -> bool, i: nat)
    requires i < |runners| && counted(runners[i].phase)
    ensures Count(runners, counted) >= 1
  {
    if i == 0 {
    } else {
      CountedOne(runners[1..], counted, i - 1);
    }
  }

  lemma {:induction false} CountedAll(runners: seq<Runner>, counted: Phase -> bool)
    requires forall i :: 0 <= i < |runners| ==> counted(runners[i].phase)
    ensures Count(runners, counted) == |runners|
  {
    if runners == [] {
    } else {
      CountedAll(runners[1..], counted);
    }
  }

  lemma {:induction false} CountedNone(runners: seq<Runner>, counted: Phase -> bool)
    requires forall i :: 0 <= i < |runners| ==> !counted(runners[i].phase)
    ensures Count(runners, counted) == 0
  {
    if runners == [] {
    } else {
      CountedNone(runners[1..], counted);
    }
  }

  // ----- what every step keeps

  // Some case of the runner has recorded the error.
  predicate RecordedIn(results: seq<Ended>, e: TestError) {
    exists k :: 0 <= k < |results| && e in results[k].errors
  }

  // A runner and the errors of its own.
  ghost predicate RunnerInv(text: Content -> string, r: Runner) {
    && |r.results| <= |r.cases|
    && (r.phase.Waiting? || r.phase.Queued? ==> r.results == [])
    && (r.phase.InCase? ==> |r.results| < |r.cases|)
    && (!r.phase.Waiting? && !r.phase.Queued? && !r.phase.Running? && !r.phase.InCase? ==> |r.results| == |r.cases|)
    && (forall k :: 0 <= k < |r.results| ==> Recorded(text, r.cases[k], r.results[k].outcome, r.results[k].errors))
    && (forall e :: e in r.errors <==> RecordedIn(r.results, e))
  }

  // Its errors are in the shared list.
  predicate HasAdded(p: Phase) {
    p.Decrementing? || p.Done? || Finishing(p)
  }

  // The counter, the one runner inside testsFinished, and the future.
  ghost predicate CounterInv(s: State) {
    && s.remaining == Count(s.runners, Unfinished)
    && Count(s.runners, Finishing) <= 1
    && (Count(s.runners, Finishing) == 1 ==> s.remaining == 0)
    && s.finished == (if s.remaining == 0 && s.runners != [] then 1 else 0)
    && (s.timer.Cancelled? ==> s.remaining == 0)
    && (s.future.Pending? ==> !s.timer.Expired? && (s.remaining == 0 ==> Count(s.runners, Finishing) == 1))
    && (s.future.TimedOut? ==> s.timer.Expired?)
    && (s.future.Normal? || s.future.TestsFailed? ==> s.remaining == 0)
  }

  // The shared list of errors, and what has been decided from it.
  ghost predicate ErrorsInv(s: State) {
    && (forall i, e :: 0 <= i < |s.runners| && HasAdded(s.runners[i].phase) && e in s.runners[i].errors ==>
        e in s.testErrors)
    && (forall e :: e in s.testErrors ==> exists i :: 0 <= i < |s.runners| && e in s.runners[i].errors)
  }

  ghost predicate VerdictInv(s: State) {
    && (forall i :: 0 <= i < |s.runners| && s.runners[i].phase.Completing? ==>
        s.runners[i].phase.failed == (s.testErrors != []))
    && (s.future.Normal? ==> s.testErrors == [])
    && (s.future.TestsFailed? ==> s.testErrors != [] && s.future.errors == s.testErrors)
  }

  ghost predicate Inv(text: Content -> string, s: State) {
    && (forall i :: 0 <= i < |s.runners| ==> RunnerInv(text, s.runners[i]))
    && CounterInv(s)
    && ErrorsInv(s)
    && VerdictInv(s)
  }

  lemma InitInv(text: Content -> string, tests: seq<seq<TestCase>>)
    ensures Inv(text, Init(tests))
  {
    var s := Init(tests);
    CountedAll(s.runners, Unfinished);
    CountedNone(s.runners, Finishing);
  }

  lemma CounterStep(text: Content -> string, s: State, step: Step)
    requires CounterInv(s) && Next(text, s, step).Some?
    ensures CounterInv(Next(text, s, step).value)
  {
    hide Recorded, Count;
    var t := Next(text, s, step).value;
    if !step.StartTimer? && !step.Expire? {
      var i := step.i;
      CountUpdated(s.runners, Unfinished, i, t.runners[i]);
      CountUpdated(s.runners, Finishing, i, t.runners[i]);
      assert t.runners == s.runners[i := t.runners[i]];
      if Finishing(s.runners[i].phase) {
        CountedOne(s.runners, Finishing, i);
      }
    }
  }

  // The shared list changes only while the runner that changes it is still counted, so no verdict has been passed.
  lemma VerdictStep(text: Content -> string, s: State, step: Step)
    requires CounterInv(s) && VerdictInv(s) && Next(text, s, step).Some?
    ensures VerdictInv(Next(text, s, step).value)
  {
    hide Recorded, Count;
    if step.AddErrors? {
      CountedOne(s.runners, Unfinished, step.i);
      forall i | 0 <= i < |s.runners|
        ensures !s.runners[i].phase.Completing?
      {
        if s.runners[i].phase.Completing? {
          CountedOne(s.runners, Finishing, i);
          assert false;
        }
      }
    }
  }

  // No step leads out of the invariant.
  lemma StepKeepsInv(text: Content -> string, s: State, step: Step)
    requires Inv(text, s) && Next(text, s, step).Some?
    ensures Inv(text, Next(text, s, step).value)
  {
    hide RunnerInv, Recorded, CounterInv, ErrorsInv, VerdictInv;
    CounterStep(text, s, step);
    VerdictStep(text, s, step);
    ErrorsStep(text, s, step);
    if !step.StartTimer? && !step.Expire? {
      RunnerStep(text, s, step);
    }
  }

  lemma RunnerStep(text: Content -> string, s: State, step: Step)
    requires !step.StartTimer? && !step.Expire? && Next(text, s, step).Some?
    requires forall i :: 0 <= i < |s.runners| ==> RunnerInv(text, s.runners[i])
    ensures step.i < |s.runners| && RunnerInv(text, Next(text, s, step).value.runners[step.i])
  {
    hide Recorded;
    if step.EndCase? {
      var r, q := s.runners[step.i], Next(text, s, step).value.runners[step.i];
      forall e
        ensures e in q.errors <==> RecordedIn(q.results, e)
      {
        if e in r.errors {
          var k :| 0 <= k < |r.results| && e in r.results[k].errors;
          assert e in q.results[k].errors;
        }
        if e in step.errors {
          assert e in q.results[|r.results|].errors;
        }
        if RecordedIn(q.results, e) {
          var k :| 0 <= k < |q.results| && e in q.results[k].errors;
          assert k < |r.results| ==> e in r.results[k].errors;
        }
      }
    }
  }

  // What a step does to the lists of errors.
  lemma StepErrors(text: Content -> string, s: State, step: Step)
    requires Next(text, s, step).Some?
    ensures var t := Next(text, s, step).value;
            && |t.runners| == |s.runners|
            && (step.AddErrors? || step.EndCase? ==> step.i < |s.runners|)
            && t.testErrors == (if step.AddErrors? then s.testErrors + s.runners[step.i].errors else s.testErrors)
            && (forall j :: 0 <= j < |s.runners| ==> forall e :: e in s.runners[j].errors ==> e in t.runners[j].errors)
            && (forall j :: 0 <= j < |s.runners| && HasAdded(t.runners[j].phase) ==>
                  && t.runners[j].errors == s.runners[j].errors
                  && (HasAdded(s.runners[j].phase) || (step.AddErrors? && j == step.i)))
  {
    hide Recorded;
  }

  lemma ErrorsStep(text: Content -> string, s: State, step: Step)
    requires ErrorsInv(s) && Next(text, s, step).Some?
    ensures ErrorsInv(Next(text, s, step).value)
  {
    hide Next, HasAdded;
    StepErrors(text, s, step);
    var t := Next(text, s, step).value;
    forall e | e in t.testErrors
      ensures exists i :: 0 <= i < |t.runners| && e in t.runners[i].errors
    {
      if e in s.testErrors {
        var i :| 0 <= i < |s.runners| && e in s.runners[i].errors;
        assert e in t.runners[i].errors;
      } else {
        assert e in t.runners[step.i].errors;
      }
    }
  }

  // Every interleaving keeps the invariant.
  lemma {:induction false} EveryRunKeepsInv(text: Content -> string, tests: seq<seq<TestCase>>, steps: seq<Step>)
    requires Run(text, Init(tests), steps).Some?
    ensures Inv(text, Run(text, Init(tests), steps).value)
    decreases |steps|
  {
    hide Inv, Next, Init;
    if steps == [] {
      InitInv(text, tests);
    } else {
      var front := steps[..|steps| - 1];
      EveryRunKeepsInv(text, tests, front);
      StepKeepsInv(text, Run(text, Init(tests), front).value, steps[|steps| - 1]);
    }
  }

  // ----- what that means

  // testsFinished runs at most once, and exactly when the counter has reached zero.
  lemma FinishedOnce(text: Content -> string, tests: seq<seq<TestCase>>, steps: seq<Step>)
    requires Run(text, Init(tests), steps).Some?
    ensures var s := Run(text, Init(tests), steps).value;
            s.finished <= 1 && s.remaining >= 0 && (tests != [] ==> (s.finished == 1 <==> s.remaining == 0))
  {
    EveryRunKeepsInv(text, tests, steps);
    SameTests(text, tests, steps);
  }

  lemma StepKeepsTests(text: Content -> string, s: State, step: Step)
    requires Next(text, s, step).Some?
    ensures var t := Next(text, s, step).value;
            |t.runners| == |s.runners| && forall i :: 0 <= i < |s.runners| ==> t.runners[i].cases == s.runners[i].cases
  {
    hide Recorded;
  }

  // The runners stay those of the tests.
  lemma {:induction false} SameTests(text: Content -> string, tests: seq<seq<TestCase>>, steps: seq<Step>)
    requires Run(text, Init(tests), steps).Some?
    ensures var s := Run(text, Init(tests), steps).value;
            |s.runners| == |tests| && forall i :: 0 <= i < |tests| ==> s.runners[i].cases == tests[i]
    decreases |steps|
  {
    if steps == [] {
    } else {
      hide Next, Init;
      var front := steps[..|steps| - 1];
      SameTests(text, tests, front);
      StepKeepsTests(text, Run(text, Init(tests), front).value, steps[|steps| - 1]);
    }
  }

  // The counter does not reach zero before every test has been started and has ended every case,
  // and then the shared list holds exactly the errors recorded by some case.
  lemma ZeroMeansAllEnded(text: Content -> string, tests: seq<seq<TestCase>>, steps: seq<Step>)
    requires Run(text, Init(tests), steps).Some? && Run(text, Init(tests), steps).value.remaining == 0
    ensures var s := Run(text, Init(tests), steps).value;
            && |s.runners| == |tests|
            && (forall i :: 0 <= i < |tests| ==> |s.runners[i].results| == |tests[i]|)
            && (forall e :: e in s.testErrors <==> exists i :: 0 <= i < |tests| && RecordedIn(s.runners[i].results, e))
  {
    hide Init, Recorded;
    EveryRunKeepsInv(text, tests, steps);
    SameTests(text, tests, steps);
    var s := Run(text, Init(tests), steps).value;
    forall i | 0 <= i < |tests|
      ensures |s.runners[i].results| == |tests[i]| && HasAdded(s.runners[i].phase)
    {
      if Unfinished(s.runners[i].phase) {
        CountedOne(s.runners, Unfinished, i);
      }
      assert RunnerInv(text, s.runners[i]);
    }
    forall e
      ensures e in s.testErrors <==> exists i :: 0 <= i < |tests| && RecordedIn(s.runners[i].results, e)
    {
      if e in s.testErrors {
        var i :| 0 <= i < |s.runners| && e in s.runners[i].errors;
        assert RecordedIn(s.runners[i].results, e);
      }
      if i :| 0 <= i < |tests| && RecordedIn(s.runners[i].results, e) {
        assert e in s.runners[i].errors;
      }
    }
  }

  lemma NoneOf(errors: seq<TestError>, shared: seq<TestError>)
    requires forall e :: e in errors ==> e in shared
    ensures errors == [] || shared != []
  {
    if errors != [] {
      assert errors[0] in shared;
    }
  }

  // A deployment goes ahead only if every case of every test has finished with all the data expected of it.
  lemma NormalMeansAllPassed(text: Content -> string, tests: seq<seq<TestCase>>, steps: seq<Step>, i: nat, k: nat)
    requires Run(text, Init(tests), steps).Some? && Run(text, Init(tests), steps).value.future.Normal?
    requires i < |tests| && k < |tests[i]| && Valid(tests[i][k].expected)
    ensures var s := Run(text, Init(tests), steps).value;
            && |s.runners| == |tests| && |s.runners[i].results| == |tests[i]|
            && var outcome := s.runners[i].results[k].outcome;
            && outcome.Finished?
            && (Valid(outcome.data) ==> AsExpected(text, tests[i][k].expected, outcome.data))
  {
    hide Init, Run, Recorded, AsExpected;
    EveryRunKeepsInv(text, tests, steps);
    var s := Run(text, Init(tests), steps).value;
    SameTests(text, tests, steps);
    ZeroMeansAllEnded(text, tests, steps);
    var r := s.runners[i];
    assert RunnerInv(text, r);
    var ended := r.results[k];
    forall e | e in ended.errors
      ensures e in s.testErrors
    {
      assert e in r.results[k].errors;
      assert RecordedIn(r.results, e);
    }
    NoneOf(ended.errors, s.testErrors);
    NoErrorOutcome(text, tests[i][k], ended.outcome);
  }

  lemma NoErrorOutcome(text: Content -> string, c: TestCase, outcome: Outcome)
    requires Recorded(text, c, outcome, []) && Valid(c.expected)
    ensures outcome.Finished? && (Valid(outcome.data) ==> AsExpected(text, c.expected, outcome.data))
  {
    hide AsExpected;
    if outcome.Finished? && Valid(outcome.data) {
      NoErrorIsAsExpected(text, c, outcome.data, []);
    }
  }

  // The future is completed once only.
  lemma CompletedOnce(text: Content -> string, s: State, step: Step)
    requires Next(text, s, step).Some? && !s.future.Pending?
    ensures Next(text, s, step).value.future == s.future
  {
  }

  lemma {:induction false} CountedSome(runners: seq<Runner>, counted: Phase -> bool) returns (i: nat)
    requires Count(runners, counted) >= 1
    ensures i < |runners| && counted(runners[i].phase)
  {
    if counted(runners[0].phase) {
      i := 0;
    } else {
      var j := CountedSome(runners[1..], counted);
      i := j + 1;
    }
  }

  // No deployment waits for ever: while the future is open the timer can go off or a runner is about to complete it,
  // even if no flow run ever calls back.
  lemma NeverStuck(text: Content -> string, tests: seq<seq<TestCase>>, steps: seq<Step>) returns (step: Step)
    requires Run(text, Init(tests), steps).Some? && Run(text, Init(tests), steps).value.future.Pending?
    ensures Next(text, Run(text, Init(tests), steps).value, step).Some?
    ensures step.StartTimer? || step.Expire? || step.CheckDone? || step.CancelTimer? || step.Decide? || step.Complete?
  {
    hide Init, Run, Recorded, RunnerInv;
    EveryRunKeepsInv(text, tests, steps);
    var s := Run(text, Init(tests), steps).value;
    if s.timer.Scheduled? {
      step := StartTimer;
    } else if s.timer.Started? {
      step := Expire;
    } else {
      var i := CountedSome(s.runners, Finishing);
      match s.runners[i].phase
      case Checking => step := CheckDone(i);
      case Cancelling => step := CancelTimer(i);
      case Deciding => step := Decide(i);
      case Completing(_) => step := Complete(i);
    }
  }

  // Whatever the other threads do, a runner that is not through can take its next step, or is waiting for the callback
  // of its case, which may come with any outcome.
  lemma RunnersGoOn(text: Content -> string, tests: seq<seq<TestCase>>, steps: seq<Step>, i: nat) returns (step: Step)
    requires Run(text, Init(tests), steps).Some? && i < |tests|
    ensures var s := Run(text, Init(tests), steps).value;
            && i < |s.runners|
            && (!s.runners[i].phase.Done? && !s.runners[i].phase.InCase? ==> Next(text, s, step).Some?)
            && (s.runners[i].phase.InCase? ==>
                  && |s.runners[i].results| < |tests[i]|
                  && forall outcome, errors ::
                      Recorded(text, tests[i][|s.runners[i].results|], outcome, errors) ==>
                      Next(text, s, EndCase(i, outcome, errors)).Some?)
  {
    hide Init, Run, Recorded;
    EveryRunKeepsInv(text, tests, steps);
    SameTests(text, tests, steps);
    var s := Run(text, Init(tests), steps).value;
    assert RunnerInv(text, s.runners[i]);
    step := match s.runners[i].phase
      case Waiting => Submit(i)
      case Queued => Start(i)
      case Running => NextCase(i)
      case InCase => StartTimer
      case Adding => AddErrors(i)
      case Decrementing => Decrement(i)
      case Checking => CheckDone(i)
      case Cancelling => CancelTimer(i)
      case Deciding => Decide(i)
      case Completing(_) => Complete(i)
      case Done => StartTimer;
  }

  // Without tests nothing is run and nothing is waited for: the deployment goes ahead at once.
  lemma NoTests(text: Content -> string, steps: seq<Step>)
    ensures Run(text, Init([]), steps).Some? <==> steps == []
    ensures Run(text, Init([]), []).value.future.Normal? && Run(text, Init([]), []).value.finished == 0
    decreases |steps|
  {
    if steps == [] {
    } else {
      var front := steps[..|steps| - 1];
      NoTests(text, front);
    }
  }

  // The step k of a run is the timeout, and it comes while the future is open.
  ghost predicate TimesOutAt(text: Content -> string, tests: seq<seq<TestCase>>, steps: seq<Step>, k: nat) {
    && k < |steps| && steps[k].Expire?
    && Run(text, Init(tests), steps[..k]).Some? && Run(text, Init(tests), steps[..k]).value.future.Pending?
  }

  // The future is timed out if and only if the timeout came while it was open.
  lemma {:induction false} TimedOutExactly(text: Content -> string, tests: seq<seq<TestCase>>, steps: seq<Step>)
    requires Run(text, Init(tests), steps).Some?
    ensures Run(text, Init(tests), steps).value.future.TimedOut? <==>
            exists k: nat :: TimesOutAt(text, tests, steps, k)
    decreases |steps|
  {
    hide Next, Init;
    NotTimedOutYet(tests);
    if steps == [] {
    } else {
      var n := |steps| - 1;
      var front := steps[..n];
      var s := Run(text, Init(tests), front).value;
      TimedOutExactly(text, tests, front);
      forall k: nat | k < n
        ensures TimesOutAt(text, tests, front, k) <==> TimesOutAt(text, tests, steps, k)
      {
        assert front[..k] == steps[..k];
      }
      OneStepTimesOut(text, s, steps[n]);
      if s.future.Pending? && steps[n].Expire? {
        assert TimesOutAt(text, tests, steps, n);
      }
    }
  }

  lemma NotTimedOutYet(tests: seq<seq<TestCase>>)
    ensures Init(tests).future == if tests == [] then Normal else Pending
  {
  }

  lemma OneStepTimesOut(text: Content -> string, s: State, step: Step)
    requires Next(text, s, step).Some?
    ensures Next(text, s, step).value.future.TimedOut? <==>
            s.future.TimedOut? || (s.future.Pending? && step.Expire?)
  {
    hide Recorded;
  }

  // When all runners are through, the future is completed. Unless the timeout came while it was open, it is completed
  // normally exactly when no case has recorded an error, and otherwise with all the recorded errors.
  lemma AllThrough(text: Content -> string, tests: seq<seq<TestCase>>, steps: seq<Step>)
    requires Run(text, Init(tests), steps).Some?
    requires var s := Run(text, Init(tests), steps).value; forall i :: 0 <= i < |s.runners| ==> s.runners[i].phase.Done?
    ensures var s := Run(text, Init(tests), steps).value;
            && s.remaining == 0 && !s.future.Pending?
            && (s.future.TimedOut? <==> exists k: nat :: TimesOutAt(text, tests, steps, k))
            && (s.future.TimedOut? || (s.future.Normal? <==>
                 forall i, k :: 0 <= i < |s.runners| && 0 <= k < |s.runners[i].results| ==>
                     s.runners[i].results[k].errors == []))
            && (s.future.TestsFailed? ==> forall e :: e in s.future.errors <==>
                  exists i :: 0 <= i < |tests| && i < |s.runners| && RecordedIn(s.runners[i].results, e))
  {
    TimedOutExactly(text, tests, steps);
    hide Init, Run, Recorded, RunnerInv;
    EveryRunKeepsInv(text, tests, steps);
    var s := Run(text, Init(tests), steps).value;
    CountedNone(s.runners, Unfinished);
    CountedNone(s.runners, Finishing);
    SameTests(text, tests, steps);
    ZeroMeansAllEnded(text, tests, steps);
    if s.testErrors == [] {
      forall i, k | 0 <= i < |s.runners| && 0 <= k < |s.runners[i].results|
        ensures s.runners[i].results[k].errors == []
      {
        forall e | e in s.runners[i].results[k].errors
          ensures e in s.testErrors
        {
          assert RecordedIn(s.runners[i].results, e);
        }
        NoneOf(s.runners[i].results[k].errors, s.testErrors);
      }
    } else {
      assert s.testErrors[0] in s.testErrors;
    }
  }
}
