/** The bounded shadow retrieval: a waiter that may give up and a worker that may finish
    late. Each side raises its own flag and then looks at the other's; whoever sees both
    reports the late result under a lock. */
module LateResult {
  import opened Wrappers

  datatype Thread = Waiter | Worker

  /** Inside `log_late_result`, statement by statement. */
  datatype LogPc =
    | Acquire
    | Test
    | ReadResult
    | ReadTotal(result: int)
    | Unlock(line: Option<(int, int)>)
    | Warn(entry: (int, int))

  datatype WaiterPc = Waiting | RaiseFlag | TestDone | WaiterLogs(log: LogPc) | Returned(outcome: Outcome)
  datatype WorkerPc = Retrieving | StampTotal | SetDone | TestFlag | WorkerLogs(log: LogPc) | Finished

  /** What the caller of the bounded retrieval gets. */
  datatype Outcome = InTime(result: int) | MissingResult | TimedOut | KeyErrorRaised

  /** `result` and `total` are the entries of the shared `observed` dictionary; `misses`
      counts the reports that found the result missing. */
  datatype State = State(
    waiter: WaiterPc,
    worker: WorkerPc,
    done: bool,
    timedOut: bool,
    lock: Option<Thread>,
    logged: bool,
    result: Option<int>,
    total: Option<int>,
    warnings: seq<(int, int)>,
    workerRaised: bool,
    misses: nat)

  const INITIAL := State(Waiting, Retrieving, false, false, None, false, None, None, [], false, 0)

  /** The waiter's wait ends by the event or by the clock; the worker writes a result, or
      none when building the error result itself raises, and its time. */
  datatype Step = WaiterStep(expired: bool) | WorkerStep(outcome: Option<int>, elapsed: int)

  datatype LogEnd = Goes(pc: LogPc) | Leaves | Raises

  predicate LogEnabled(s: State, pc: LogPc) {
    pc.Acquire? ==> s.lock == None
  }

  /** One statement of `log_late_result`. A missing entry raises, and leaving the `with`
      block releases the lock. */
  function LogStep(s: State, me: Thread, pc: LogPc): (State, LogEnd) {
    match pc
    case Acquire => (s.(lock := Some(me)), Goes(Test))
    case Test =>
      if s.logged || !s.done then (s, Goes(Unlock(None)))
      else (s.(logged := true), Goes(ReadResult))
    case ReadResult =>
      if s.result == None then (s.(lock := None), Raises) else (s, Goes(ReadTotal(s.result.value)))
    case ReadTotal(r) =>
      if s.total == None then (s.(lock := None), Raises) else (s, Goes(Unlock(Some((r, s.total.value)))))
    case Unlock(line) =>
      (s.(lock := None), if line.Some? then Goes(Warn(line.value)) else Leaves)
    case Warn(entry) => (s.(warnings := s.warnings + [entry]), Leaves)
  }

  predicate Enabled(s: State, step: Step) {
    match step
    case WaiterStep(expired) =>
      (match s.waiter
       case Waiting => expired || s.done
       case WaiterLogs(pc) => LogEnabled(s, pc)
       case Returned(_) => false
       case _ => true)
    case WorkerStep(_, _) =>
      (match s.worker
       case WorkerLogs(pc) => LogEnabled(s, pc)
       case Finished => false
       case _ => true)
  }

  function Next(s: State, step: Step): State
    requires Enabled(s, step)
  {
    match step
    case WaiterStep(expired) =>
      (match s.waiter
       case Waiting =>
         if expired then s.(waiter := RaiseFlag)
         else s.(waiter := Returned(if s.result.Some? then InTime(s.result.value) else MissingResult))
       case RaiseFlag => s.(timedOut := true, waiter := TestDone)
       case TestDone => s.(waiter := if s.done then WaiterLogs(Acquire) else Returned(TimedOut))
       case WaiterLogs(pc) =>
         var (t, end) := LogStep(s, Waiter, pc);
         (match end
          case Goes(next) => t.(waiter := WaiterLogs(next))
          case Leaves => t.(waiter := Returned(TimedOut))
          case Raises => t.(waiter := Returned(KeyErrorRaised), misses := t.misses + 1)))
    case WorkerStep(outcome, elapsed) =>
      (match s.worker
       case Retrieving => s.(result := outcome, worker := StampTotal, workerRaised := outcome == None)
       case StampTotal => s.(total := Some(elapsed), worker := SetDone)
       case SetDone => s.(done := true, worker := TestFlag)
       case TestFlag => s.(worker := if s.timedOut then WorkerLogs(Acquire) else Finished)
       case WorkerLogs(pc) =>
         var (t, end) := LogStep(s, Worker, pc);
         (match end
          case Goes(next) => t.(worker := WorkerLogs(next))
          case Leaves => t.(worker := Finished)
          case Raises => t.(worker := Finished, workerRaised := true, misses := t.misses + 1)))
  }

  ghost predicate Runs(s: State, steps: seq<Step>, t: State)
    decreases |steps|
  {
    if steps == [] then s == t
    else Enabled(s, steps[0]) && Runs(Next(s, steps[0]), steps[1..], t)
  }

  // ---- the invariant ----------------------------------------------------------------

  predicate Holds(pc: LogPc) {
    pc.Test? || pc.ReadResult? || pc.ReadTotal? || pc.Unlock?
  }

  /** This thread has claimed the report and has still to make it. */
  predicate Owes(pc: LogPc) {
    pc.ReadResult? || pc.ReadTotal? || (pc.Unlock? && pc.line.Some?) || pc.Warn?
  }

  predicate WaiterOwes(s: State) { s.waiter.WaiterLogs? && Owes(s.waiter.log) }
  predicate WorkerOwes(s: State) { s.worker.WorkerLogs? && Owes(s.worker.log) }

  /** This thread will still come to the test in `log_late_result`. */
  predicate Before(pc: LogPc) { pc.Acquire? || pc.Test? }
  predicate WaiterWillTest(s: State) { s.waiter.RaiseFlag? || s.waiter.TestDone? || (s.waiter.WaiterLogs? && Before(s.waiter.log)) }
  predicate WorkerWillTest(s: State) { !s.worker.Finished? && (s.worker.WorkerLogs? ==> Before(s.worker.log)) }

  /** What a thread carries is what the dictionary holds. */
  predicate Carries(s: State, pc: LogPc) {
    match pc
    case ReadTotal(r) => s.result == Some(r)
    case Unlock(line) => line.Some? ==> s.result == Some(line.value.0) && s.total == Some(line.value.1)
    case Warn(entry) => s.result == Some(entry.0) && s.total == Some(entry.1)
    case _ => true
  }

  predicate Published(s: State) {
    s.worker.TestFlag? || s.worker.WorkerLogs? || s.worker.Finished?
  }

  predicate GaveUp(s: State) {
    s.waiter.TestDone? || s.waiter.WaiterLogs? || (s.waiter.Returned? && (s.waiter.outcome.TimedOut? || s.waiter.outcome.KeyErrorRaised?))
  }

  /** Flags, lock and dictionary against the program counters. */
  predicate Wiring(s: State) {
    && (s.done <==> Published(s))
    && (s.timedOut <==> GaveUp(s))
    && (s.waiter.WaiterLogs? ==> s.done)
    && (s.worker.WorkerLogs? ==> s.timedOut)
    && (s.lock == Some(Waiter) <==> s.waiter.WaiterLogs? && Holds(s.waiter.log))
    && (s.lock == Some(Worker) <==> s.worker.WorkerLogs? && Holds(s.worker.log))
    && (s.done ==> s.total.Some?)
    && (s.worker.SetDone? ==> s.total.Some?)
    && (s.worker.Retrieving? ==> s.result == None && !s.workerRaised)
    && (s.waiter.WaiterLogs? ==> Carries(s, s.waiter.log))
    && (s.worker.WorkerLogs? ==> Carries(s, s.worker.log))
    && (s.waiter == Returned(MissingResult) ==> s.done && s.result == None)
    && (s.waiter.Returned? && s.waiter.outcome.InTime? ==> s.done && s.result == Some(s.waiter.outcome.result))
  }

  /** The report is claimed once, and is then made, or raises when no result was written. */
  predicate Reporting(s: State) {
    && (s.logged ==> s.timedOut && s.done)
    && (!s.logged ==> s.warnings == [] && s.misses == 0 && !WaiterOwes(s) && !WorkerOwes(s) && s.waiter != Returned(KeyErrorRaised))
    && !(WaiterOwes(s) && WorkerOwes(s))
    && (WaiterOwes(s) || WorkerOwes(s) ==> s.warnings == [] && s.misses == 0 && s.waiter != Returned(KeyErrorRaised))
    && (s.waiter == Returned(KeyErrorRaised) ==> s.result == None && s.warnings == [])
    && (s.logged && !WaiterOwes(s) && !WorkerOwes(s) ==>
          if s.result.Some? then s.total.Some? && s.warnings == [(s.result.value, s.total.value)] && s.misses == 0
          else s.warnings == [] && s.workerRaised && s.misses == 1)
    && (s.result.Some? ==> !s.workerRaised)
    && (!s.worker.Retrieving? && s.result == None ==> s.workerRaised)
    && (s.timedOut && !s.logged ==> WaiterWillTest(s) || WorkerWillTest(s))
    && (s.timedOut && !s.logged && s.worker.Finished? ==> WaiterWillTest(s))
  }

  predicate Inv(s: State) {
    Wiring(s) && Reporting(s)
  }

  lemma WaiterKeepsWiring(s: State, step: Step)
    requires Inv(s) && Enabled(s, step) && step.WaiterStep?
    ensures Wiring(Next(s, step))
  {
  }

  lemma WorkerKeepsWiring(s: State, step: Step)
    requires Inv(s) && Enabled(s, step) && step.WorkerStep?
    ensures Wiring(Next(s, step))
  {
  }

  lemma WaiterKeepsReporting(s: State, step: Step)
    requires Inv(s) && Enabled(s, step) && step.WaiterStep?
    ensures Reporting(Next(s, step))
  {
  }

  lemma WorkerKeepsReporting(s: State, step: Step)
    requires Inv(s) && Enabled(s, step) && step.WorkerStep?
    ensures Reporting(Next(s, step))
  {
  }

  lemma {:induction false} RunKeepsInv(s: State, steps: seq<Step>, t: State)
    requires Inv(s) && Runs(s, steps, t)
    ensures Inv(t)
    decreases |steps|
  {
    if steps != [] {
      if steps[0].WaiterStep? {
        WaiterKeepsWiring(s, steps[0]);
        WaiterKeepsReporting(s, steps[0]);
      } else {
        WorkerKeepsWiring(s, steps[0]);
        WorkerKeepsReporting(s, steps[0]);
      }
      RunKeepsInv(Next(s, steps[0]), steps[1..], t);
    }
  }

  predicate Over(s: State) {
    s.waiter.Returned? && s.worker.Finished?
  }

  /** Safety at every moment: at most one late warning, none unless the waiter gave up,
      and it shows the result and the time that the worker wrote. */
  lemma WarnsAtMostOnce(steps: seq<Step>, t: State)
    requires Runs(INITIAL, steps, t)
    ensures |t.warnings| <= 1
    ensures t.warnings != [] ==> t.timedOut && t.result.Some? && t.total.Some? && t.warnings == [(t.result.value, t.total.value)]
    ensures t.waiter.Returned? && (t.waiter.outcome.InTime? || t.waiter.outcome.MissingResult?) ==> t.warnings == []
  {
    RunKeepsInv(INITIAL, steps, t);
  }

  // ---- the fallback ---------------------------------------------------------------------

  /** What the worker wrote when it came to write: nothing if even building the error result
      raised. */
  function FirstWrite(steps: seq<Step>): Option<Option<int>> {
    if steps == [] then None
    else if steps[0].WorkerStep? then Some(steps[0].outcome)
    else FirstWrite(steps[1..])
  }

  /** How the wait ended: by the clock, or by the event. */
  function WaitExpired(steps: seq<Step>): Option<bool> {
    if steps == [] then None
    else if steps[0].WaiterStep? then Some(steps[0].expired)
    else WaitExpired(steps[1..])
  }

  lemma LogKeepsResult(s: State, me: Thread, pc: LogPc)
    ensures LogStep(s, me, pc).0.result == s.result
    ensures LogStep(s, me, pc).0.worker == s.worker && LogStep(s, me, pc).0.waiter == s.waiter
  {
  }

  lemma WaiterLeavesResult(s: State, step: Step)
    requires step.WaiterStep? && Enabled(s, step)
    ensures Next(s, step).result == s.result && Next(s, step).worker == s.worker
  {
    if s.waiter.WaiterLogs? { LogKeepsResult(s, Waiter, s.waiter.log); }
  }

  lemma WorkerWritesOnce(s: State, step: Step)
    requires step.WorkerStep? && Enabled(s, step)
    ensures !Next(s, step).worker.Retrieving?
    ensures Next(s, step).result == if s.worker.Retrieving? then step.outcome else s.result
  {
    if s.worker.WorkerLogs? { LogKeepsResult(s, Worker, s.worker.log); }
  }

  lemma {:induction false} FirstWriteDecides(s: State, steps: seq<Step>, t: State)
    requires Runs(s, steps, t)
    ensures !s.worker.Retrieving? ==> !t.worker.Retrieving? && t.result == s.result
    ensures s.worker.Retrieving? ==>
              if FirstWrite(steps) == None then t.worker.Retrieving? && t.result == s.result
              else !t.worker.Retrieving? && t.result == FirstWrite(steps).value
    decreases |steps|
  {
    if steps != [] {
      if steps[0].WaiterStep? {
        WaiterLeavesResult(s, steps[0]);
      } else {
        WorkerWritesOnce(s, steps[0]);
      }
      FirstWriteDecides(Next(s, steps[0]), steps[1..], t);
    }
  }

  /** The clock of the worker at each of its steps: it writes the result, the time, and so on. */
  function Clock(steps: seq<Step>): seq<int> {
    if steps == [] then []
    else (if steps[0].WorkerStep? then [steps[0].elapsed] else []) + Clock(steps[1..])
  }

  lemma LogKeepsTotal(s: State, me: Thread, pc: LogPc)
    ensures LogStep(s, me, pc).0.total == s.total && LogStep(s, me, pc).0.worker == s.worker
  {
  }

  lemma WaiterLeavesTotal(s: State, step: Step)
    requires Enabled(s, step) && step.WaiterStep?
    ensures Next(s, step).total == s.total && Next(s, step).worker == s.worker
  {
    if s.waiter.WaiterLogs? { LogKeepsTotal(s, Waiter, s.waiter.log); }
  }

  lemma WorkerStampsTotal(s: State, step: Step)
    requires Enabled(s, step) && step.WorkerStep?
    ensures Next(s, step).total == (if s.worker.StampTotal? then Some(step.elapsed) else s.total)
    ensures !Next(s, step).worker.Retrieving? && (Next(s, step).worker.StampTotal? <==> s.worker.Retrieving?)
  {
    if s.worker.WorkerLogs? { LogKeepsTotal(s, Worker, s.worker.log); }
  }

  /** The time that is logged is the one measured when the worker came to write it. */
  lemma {:induction false} TotalIsSecondWrite(s: State, steps: seq<Step>, t: State)
    requires Runs(s, steps, t)
    ensures var own := Clock(steps);
            t.total == if s.worker.Retrieving? && |own| >= 2 then Some(own[1])
                       else if s.worker.StampTotal? && |own| >= 1 then Some(own[0])
                       else s.total
    ensures s.worker.Retrieving? && t.worker.Finished? ==> |Clock(steps)| >= 2
    ensures s.worker.StampTotal? && t.worker.Finished? ==> |Clock(steps)| >= 1
    decreases |steps|
  {
    if steps != [] {
      if steps[0].WaiterStep? {
        WaiterLeavesTotal(s, steps[0]);
      } else {
        WorkerStampsTotal(s, steps[0]);
      }
      TotalIsSecondWrite(Next(s, steps[0]), steps[1..], t);
      assert steps[0].WorkerStep? ==> Clock(steps)[1..] == Clock(steps[1..]);
    }
  }

  /** The waiter is on the way to a timeout. */
  predicate GivingUp(w: WaiterPc) {
    w.RaiseFlag? || w.TestDone? || w.WaiterLogs? || (w.Returned? && (w.outcome.TimedOut? || w.outcome.KeyErrorRaised?))
  }

  lemma {:induction false} WaitDecides(s: State, steps: seq<Step>, t: State)
    requires Runs(s, steps, t)
    ensures !s.waiter.Waiting? ==> !t.waiter.Waiting? && (GivingUp(t.waiter) <==> GivingUp(s.waiter))
    ensures s.waiter.Waiting? ==>
              if WaitExpired(steps) == None then t.waiter.Waiting?
              else !t.waiter.Waiting? && (GivingUp(t.waiter) <==> WaitExpired(steps).value)
    decreases |steps|
  {
    if steps != [] {
      WaitDecides(Next(s, steps[0]), steps[1..], t);
    }
  }

  /** The fallback for a missing result is returned exactly when the wait ended by the event
      and building the error result had raised. */
  lemma FallbackCondition(steps: seq<Step>, t: State)
    requires Runs(INITIAL, steps, t) && t.waiter.Returned?
    ensures t.waiter.outcome == MissingResult <==>
              WaitExpired(steps) == Some(false) && FirstWrite(steps) == Some(None)
    ensures t.waiter.outcome == KeyErrorRaised ==>
              WaitExpired(steps) == Some(true) && FirstWrite(steps) == Some(None)
  {
    RunKeepsInv(INITIAL, steps, t);
    FirstWriteDecides(INITIAL, steps, t);
    WaitDecides(INITIAL, steps, t);
  }

  /** Both threads done, in every interleaving. How the wait ended and what the worker wrote
      decide everything: a result goes to the caller in time, or is logged exactly once after
      a timeout; without a result nothing is logged, a caller in time gets the fallback, and
      after a timeout exactly one report finds the entry missing. */
  lemma LateResultIsReportedOnce(steps: seq<Step>, t: State)
    requires Runs(INITIAL, steps, t) && Over(t)
    ensures WaitExpired(steps).Some? && FirstWrite(steps).Some? && t.result == FirstWrite(steps).value
    ensures |Clock(steps)| >= 2 && t.total == Some(Clock(steps)[1])
    ensures |t.warnings| == 1 <==> WaitExpired(steps) == Some(true) && FirstWrite(steps).value.Some?
    ensures t.warnings == [] <==> WaitExpired(steps) == Some(false) || FirstWrite(steps) == Some(None)
    ensures t.misses == if WaitExpired(steps) == Some(true) && FirstWrite(steps) == Some(None) then 1 else 0
    ensures WaitExpired(steps) == Some(false) ==>
              t.waiter.outcome == if t.result.Some? then InTime(t.result.value) else MissingResult
    ensures WaitExpired(steps) == Some(true) && t.result.Some? ==>
              t.waiter.outcome == TimedOut && t.total.Some? && t.warnings == [(t.result.value, t.total.value)]
    ensures WaitExpired(steps) == Some(true) && t.result == None ==>
              t.workerRaised && (t.waiter.outcome == TimedOut || t.waiter.outcome == KeyErrorRaised)
  {
    RunKeepsInv(INITIAL, steps, t);
    FirstWriteDecides(INITIAL, steps, t);
    WaitDecides(INITIAL, steps, t);
    TotalIsSecondWrite(INITIAL, steps, t);
    OutcomeOfInv(t);
  }

  lemma OutcomeOfInv(t: State)
    requires Inv(t) && Over(t)
    ensures |t.warnings| <= 1
    ensures GivingUp(t.waiter) ==>
              if t.result.Some? then t.waiter.outcome == TimedOut && t.total.Some? && t.misses == 0
                                     && t.warnings == [(t.result.value, t.total.value)]
              else t.workerRaised && t.misses == 1 && t.warnings == []
    ensures !GivingUp(t.waiter) ==>
              && t.waiter.outcome == (if t.result.Some? then InTime(t.result.value) else MissingResult)
              && t.misses == 0 && t.warnings == []
  {
  }

  /** As long as building the error result never raises, neither happens in any run. */
  lemma SafeWhenErrorsCanBeBuilt(steps: seq<Step>, t: State)
    requires Runs(INITIAL, steps, t)
    requires forall step <- steps :: step.WorkerStep? ==> step.outcome.Some?
    ensures t.waiter != Returned(MissingResult) && t.waiter != Returned(KeyErrorRaised) && !t.workerRaised
  {
    RunKeepsInv(INITIAL, steps, t);
    FirstWriteDecides(INITIAL, steps, t);
    FirstWriteIsListed(steps);
  }

  lemma {:induction false} FirstWriteIsListed(steps: seq<Step>)
    ensures FirstWrite(steps).Some? ==> exists step <- steps :: step.WorkerStep? && step.outcome == FirstWrite(steps).value
  {
    if steps != [] && !steps[0].WorkerStep? {
      FirstWriteIsListed(steps[1..]);
    }
  }

  lemma Then(s: State, step: Step, steps: seq<Step>, t: State)
    requires Enabled(s, step) && Runs(Next(s, step), steps, t)
    ensures Runs(s, [step] + steps, t)
  {
    assert ([step] + steps)[1..] == steps;
  }

  /** A run in which the caller gets the fallback. */
  lemma FallbackIsReached() returns (steps: seq<Step>, t: State)
    ensures Runs(INITIAL, steps, t) && t.waiter == Returned(MissingResult)
  {
    var fails, sees := WorkerStep(None, 0), WaiterStep(false);
    var s1 := Next(INITIAL, fails);
    var s2 := Next(s1, fails);
    var s3 := Next(s2, fails);
    t := Next(s3, sees);
    Then(s3, sees, [], t);
    Then(s2, fails, [sees], t);
    Then(s1, fails, [fails] + [sees], t);
    Then(INITIAL, fails, [fails] + ([fails] + [sees]), t);
    steps := [fails] + ([fails] + ([fails] + [sees]));
  }

  /** A run in which the report of the waiter finds the entry missing: the wait expires, the
      worker publishes nothing, and the waiter comes to report. */
  lemma MissingEntryIsReached() returns (steps: seq<Step>, t: State)
    ensures Runs(INITIAL, steps, t) && t.waiter == Returned(KeyErrorRaised)
  {
    var fails, goesOn := WorkerStep(None, 0), WaiterStep(true);
    var s1 := Next(INITIAL, goesOn);
    var s2 := Next(s1, goesOn);
    var s3 := Next(Next(Next(s2, fails), fails), fails);
    assert s3.waiter == TestDone && s3.done && s3.result == None && s3.lock == None && !s3.logged;
    var s4 := Next(s3, goesOn);
    var s5 := Next(s4, goesOn);
    var s6 := Next(s5, goesOn);
    t := Next(s6, goesOn);
    Then(s6, goesOn, [], t);
    Then(s5, goesOn, [goesOn], t);
    steps := [goesOn] + [goesOn];
    Then(s4, goesOn, steps, t);
    steps := [goesOn] + steps;
    Then(s3, goesOn, steps, t);
    steps := [goesOn] + steps;
    Then(Next(Next(s2, fails), fails), fails, steps, t);
    steps := [fails] + steps;
    Then(Next(s2, fails), fails, steps, t);
    steps := [fails] + steps;
    Then(s2, fails, steps, t);
    steps := [fails] + steps;
    Then(s1, goesOn, steps, t);
    steps := [goesOn] + steps;
    Then(INITIAL, goesOn, steps, t);
    steps := [goesOn] + steps;
  }

  // ---- progress -----------------------------------------------------------------------

  function LogLeft(pc: LogPc): nat {
    match pc
    case Acquire => 6
    case Test => 5
    case ReadResult => 4
    case ReadTotal(_) => 3
    case Unlock(_) => 2
    case Warn(_) => 1
  }

  function Left(s: State): nat {
    (match s.waiter
     case Waiting => 9
     case RaiseFlag => 8
     case TestDone => 7
     case WaiterLogs(pc) => LogLeft(pc)
     case Returned(_) => 0)
    + (match s.worker
       case Retrieving => 10
       case StampTotal => 9
       case SetDone => 8
       case TestFlag => 7
       case WorkerLogs(pc) => LogLeft(pc)
       case Finished => 0)
  }

  lemma LogStepUsesBound(s: State, me: Thread, pc: LogPc)
    ensures var (t, end) := LogStep(s, me, pc);
            && t.waiter == s.waiter && t.worker == s.worker
            && LogLeft(pc) > 0 && (end.Goes? ==> LogLeft(end.pc) < LogLeft(pc))
  {
  }

  /** No endless run: every step uses up the bound. */
  lemma {:induction false} StepUsesBound(s: State, step: Step)
    requires Enabled(s, step)
    ensures Left(Next(s, step)) < Left(s)
  {
    match step
    case WaiterStep(_) =>
      if s.waiter.WaiterLogs? {
        LogStepUsesBound(s, Waiter, s.waiter.log);
        assert Next(s, step).worker == s.worker;
      }
    case WorkerStep(_, _) =>
      if s.worker.WorkerLogs? {
        LogStepUsesBound(s, Worker, s.worker.log);
        assert Next(s, step).waiter == s.waiter;
      }
  }

  /** No deadlock: until both threads are done some step is enabled. */
  lemma SomeStepIsEnabled(s: State)
    requires Inv(s) && !Over(s)
    ensures Enabled(s, WaiterStep(true)) || exists o, e :: Enabled(s, WorkerStep(o, e))
  {
    var worker := WorkerStep(None, 0);
    match s.lock
    case None =>
      if !Enabled(s, WaiterStep(true)) {
        assert Enabled(s, worker);
      }
    case Some(Waiter) =>
    case Some(Worker) => assert Enabled(s, worker);
  }

  /** Hence at most nineteen statements are run until both threads are done. */
  lemma {:induction false} RunsAreShort(s: State, steps: seq<Step>, t: State)
    requires Inv(s) && Runs(s, steps, t)
    ensures |steps| + Left(t) <= Left(s)
    ensures s == INITIAL ==> |steps| <= 19 && (!Over(t) ==> Left(t) > 0)
    decreases |steps|
  {
    if steps != [] {
      StepUsesBound(s, steps[0]);
      RunKeepsInv(s, [steps[0]], Next(s, steps[0]));
      RunsAreShort(Next(s, steps[0]), steps[1..], t);
    }
  }
}
