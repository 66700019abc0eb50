/** The coalescing emitter of the quota contract: at most one worker thread for each
    project, and a flag by which schedules that arrive meanwhile ask for one more emit. */
module ContractEmit {
  import opened Text

  type Pending = map<string, bool>

  datatype Verdict = Rejected | Started | Coalesced | LaunchFailed

  /** What `schedule_emit` decides under the lock. */
  function Decide(pending: Pending, command: string, project: string, threadStarts: bool): Verdict {
    if Strip(command) == "" || project == "" then Rejected
    else if project in pending then Coalesced
    else if threadStarts then Started
    else LaunchFailed
  }

  function AfterSchedule(pending: Pending, project: string, verdict: Verdict): Pending {
    match verdict
    case Rejected => pending
    case Started => pending[project := false]
    case Coalesced => pending[project := true]
    case LaunchFailed => pending
  }

  /** The critical section at the end of a worker's round. */
  function AfterRound(pending: Pending, project: string): Pending
    requires project in pending
  {
    if pending[project] then pending[project := false] else pending - {project}
  }

  // ---- all interleavings --------------------------------------------------------

  /** A live worker is about to emit, emits, or is about to enter the critical section. */
  datatype Phase = Starting | Emitting | Checking
  datatype Worker = Worker(project: string, phase: Phase)

  /** A schedule that started or flagged a worker, and the beginnings and ends of emits. */
  datatype Event = Scheduled(project: string) | Began(project: string) | Ended(project: string)

  datatype State = State(pending: Pending, workers: multiset<Worker>, events: seq<Event>)

  /** One atomic step of some thread. An emit ends the same way whether it fails or not. */
  datatype Step =
    | Schedule(command: string, project: string, threadStarts: bool)
    | BeginEmit(project: string)
    | EndEmit(project: string)
    | Round(project: string)

  const INITIAL := State(map[], multiset{}, [])

  predicate Enabled(s: State, step: Step) {
    match step
    case Schedule(_, _, _) => true
    case BeginEmit(p) => Worker(p, Starting) in s.workers
    case EndEmit(p) => Worker(p, Emitting) in s.workers
    case Round(p) => Worker(p, Checking) in s.workers && p in s.pending
  }

  function Move(workers: multiset<Worker>, p: string, from: Phase, to: Phase): multiset<Worker> {
    workers - multiset{Worker(p, from)} + multiset{Worker(p, to)}
  }

  function Next(s: State, step: Step): State
    requires Enabled(s, step)
  {
    match step
    case Schedule(command, p, threadStarts) =>
      var verdict := Decide(s.pending, command, p, threadStarts);
      State(AfterSchedule(s.pending, p, verdict),
            if verdict.Started? then s.workers + multiset{Worker(p, Starting)} else s.workers,
            if verdict.Started? || verdict.Coalesced? then s.events + [Scheduled(p)] else s.events)
    case BeginEmit(p) => s.(workers := Move(s.workers, p, Starting, Emitting), events := s.events + [Began(p)])
    case EndEmit(p) => s.(workers := Move(s.workers, p, Emitting, Checking), events := s.events + [Ended(p)])
    case Round(p) =>
      s.(pending := AfterRound(s.pending, p),
         workers := if s.pending[p] then Move(s.workers, p, Checking, Starting)
                    else s.workers - multiset{Worker(p, Checking)})
  }

  ghost predicate Runs(s: State, steps: seq<Step>, t: State)
    decreases |steps|
  {
    if steps == [] then s == t
    else Enabled(s, steps[0]) && Runs(Next(s, steps[0]), steps[1..], t)
  }

  /** Workers of `p` that are alive. */
  function Live(s: State, p: string): nat {
    s.workers[Worker(p, Starting)] + s.workers[Worker(p, Emitting)] + s.workers[Worker(p, Checking)]
  }

  function Flag(s: State, p: string): nat {
    if p in s.pending && s.pending[p] then 1 else 0
  }

  function Count(s: State, e: Event): nat {
    multiset(s.events)[e]
  }

  /** Occurrences of `e` after the last schedule of its project. */
  function Since(events: seq<Event>, e: Event): nat {
    if events == [] then 0
    else
      var last, before := events[|events| - 1], events[..|events| - 1];
      if last == Scheduled(e.project) then 0
      else if last == e then 1 + Since(before, e)
      else Since(before, e)
  }

  /** What every step keeps, for each project. */
  ghost predicate Inv(s: State, p: string) {
    var starting, emitting := s.workers[Worker(p, Starting)], s.workers[Worker(p, Emitting)];
    && Live(s, p) == (if p in s.pending then 1 else 0)
    && Count(s, Began(p)) == Count(s, Ended(p)) + emitting
    && Count(s, Began(p)) + starting + Flag(s, p) <= Count(s, Scheduled(p))
    && (Count(s, Scheduled(p)) > 0 ==> Since(s.events, Began(p)) + starting + Flag(s, p) >= 1)
    && Since(s.events, Began(p)) <= Since(s.events, Ended(p)) + emitting
    && Since(s.events, Ended(p)) + starting + emitting + Flag(s, p) <= 2
  }

  lemma SinceAppend(events: seq<Event>, last: Event, e: Event)
    ensures Since(events + [last], e) ==
            if last == Scheduled(e.project) then 0
            else if last == e then 1 + Since(events, e)
            else Since(events, e)
  {
    assert (events + [last])[..|events|] == events;
  }

  /** `t` shows the same of project `p` as `s`. */
  ghost predicate SameWorker(s: State, t: State, p: string) {
    && (p in t.pending <==> p in s.pending)
    && Flag(t, p) == Flag(s, p)
    && t.workers[Worker(p, Starting)] == s.workers[Worker(p, Starting)]
    && t.workers[Worker(p, Emitting)] == s.workers[Worker(p, Emitting)]
    && t.workers[Worker(p, Checking)] == s.workers[Worker(p, Checking)]
  }

  ghost predicate SameEvents(s: State, t: State, p: string) {
    && Count(t, Scheduled(p)) == Count(s, Scheduled(p))
    && Count(t, Began(p)) == Count(s, Began(p)) && Since(t.events, Began(p)) == Since(s.events, Began(p))
    && Count(t, Ended(p)) == Count(s, Ended(p)) && Since(t.events, Ended(p)) == Since(s.events, Ended(p))
  }

  ghost predicate SameFor(s: State, t: State, p: string) {
    SameWorker(s, t, p) && SameEvents(s, t, p)
  }

  lemma OtherScheduleIsHidden(s: State, step: Step, p: string)
    requires step.Schedule? && step.project != p
    ensures SameWorker(s, Next(s, step), p)
  {
    assert Worker(step.project, Starting) != Worker(p, Starting);
  }

  lemma OtherEmitIsHidden(s: State, step: Step, p: string)
    requires (step.BeginEmit? || step.EndEmit?) && Enabled(s, step) && step.project != p
    ensures SameWorker(s, Next(s, step), p)
  {
    assert Next(s, step).pending == s.pending;
  }

  lemma OtherRoundIsHidden(s: State, step: Step, p: string)
    requires step.Round? && Enabled(s, step) && step.project != p
    ensures SameWorker(s, Next(s, step), p)
  {
    assert step.project in s.pending;
  }

  lemma OtherWorkerIsHidden(s: State, step: Step, p: string)
    requires Enabled(s, step) && step.project != p
    ensures SameWorker(s, Next(s, step), p)
  {
    match step
    case Schedule(_, _, _) => OtherScheduleIsHidden(s, step, p);
    case BeginEmit(_) => OtherEmitIsHidden(s, step, p);
    case EndEmit(_) => OtherEmitIsHidden(s, step, p);
    case Round(_) => OtherRoundIsHidden(s, step, p);
  }

  lemma {:induction false} OtherStepIsHidden(s: State, step: Step, p: string)
    requires Enabled(s, step) && step.project != p
    ensures SameFor(s, Next(s, step), p)
  {
    OtherWorkerIsHidden(s, step, p);
    EventsOfStep(s, step, p);
  }

  lemma SameForKeepsInv(s: State, t: State, p: string)
    requires Inv(s, p) && SameFor(s, t, p)
    ensures Inv(t, p) && Remaining(t, p) == Remaining(s, p)
  {
  }

  /** How the counters read the event of a step. */
  lemma EventsOfStep(s: State, step: Step, p: string)
    requires Enabled(s, step)
    ensures var t := Next(s, step);
            t.events == s.events
            || (t.events[..|s.events|] == s.events && |t.events| == |s.events| + 1
                && var last := t.events[|s.events|];
                && last.project == step.project
                && (forall e :: Count(t, e) == Count(s, e) + if e == last then 1 else 0)
                && (forall e :: Since(t.events, e) ==
                                if last == Scheduled(e.project) then 0
                                else if last == e then 1 + Since(s.events, e)
                                else Since(s.events, e)))
  {
    var t := Next(s, step);
    if t.events != s.events {
      var last := t.events[|s.events|];
      assert t.events == s.events + [last];
      forall e ensures Since(t.events, e) ==
                       if last == Scheduled(e.project) then 0
                       else if last == e then 1 + Since(s.events, e)
                       else Since(s.events, e) {
        SinceAppend(s.events, last, e);
      }
    }
  }

  lemma NothingScheduled(s: State, step: Step)
    requires step.Schedule?
    requires var v := Decide(s.pending, step.command, step.project, step.threadStarts); v.Rejected? || v.LaunchFailed?
    ensures Next(s, step) == s
  {
  }

  /** The counters after a schedule that started or flagged a worker. */
  lemma EventOfSchedule(s: State, step: Step)
    requires step.Schedule?
    requires var v := Decide(s.pending, step.command, step.project, step.threadStarts); v.Started? || v.Coalesced?
    ensures var t, p := Next(s, step), step.project;
            && Count(t, Scheduled(p)) == Count(s, Scheduled(p)) + 1
            && Count(t, Began(p)) == Count(s, Began(p)) && Count(t, Ended(p)) == Count(s, Ended(p))
            && Since(t.events, Began(p)) == 0 && Since(t.events, Ended(p)) == 0
  {
    var p := step.project;
    SinceAppend(s.events, Scheduled(p), Began(p));
    SinceAppend(s.events, Scheduled(p), Ended(p));
  }

  lemma StartKeepsInv(s: State, step: Step)
    requires step.Schedule? && Inv(s, step.project)
    requires Decide(s.pending, step.command, step.project, step.threadStarts).Started?
    ensures Inv(Next(s, step), step.project)
  {
    EventOfSchedule(s, step);
    assert step.project !in s.pending;
  }

  lemma CoalesceKeepsInv(s: State, step: Step)
    requires step.Schedule? && Inv(s, step.project)
    requires Decide(s.pending, step.command, step.project, step.threadStarts).Coalesced?
    ensures Inv(Next(s, step), step.project)
  {
    EventOfSchedule(s, step);
    assert Next(s, step).workers == s.workers && step.project in s.pending;
  }

  lemma {:induction false} ScheduleKeepsInv(s: State, step: Step)
    requires step.Schedule? && Inv(s, step.project)
    ensures Inv(Next(s, step), step.project)
  {
    match Decide(s.pending, step.command, step.project, step.threadStarts)
    case Started => StartKeepsInv(s, step);
    case Coalesced => CoalesceKeepsInv(s, step);
    case Rejected => NothingScheduled(s, step);
    case LaunchFailed => NothingScheduled(s, step);
  }

  lemma BeginKeepsInv(s: State, step: Step)
    requires step.BeginEmit? && Enabled(s, step) && Inv(s, step.project)
    ensures Inv(Next(s, step), step.project)
    ensures Remaining(Next(s, step), step.project) == Remaining(s, step.project) - 1
  {
    EventsOfStep(s, step, step.project);
  }

  lemma EndKeepsInv(s: State, step: Step)
    requires step.EndEmit? && Enabled(s, step) && Inv(s, step.project)
    ensures Inv(Next(s, step), step.project)
    ensures Remaining(Next(s, step), step.project) == Remaining(s, step.project) - 1
  {
    EventsOfStep(s, step, step.project);
  }

  lemma RoundKeepsInv(s: State, step: Step)
    requires step.Round? && Enabled(s, step) && Inv(s, step.project)
    ensures Inv(Next(s, step), step.project)
    ensures Remaining(Next(s, step), step.project) == Remaining(s, step.project) - 1
  {
  }

  lemma {:induction false} StepKeepsInv(s: State, step: Step, p: string)
    requires Inv(s, p) && Enabled(s, step)
    ensures Inv(Next(s, step), p)
    ensures step.project != p ==> Remaining(Next(s, step), p) == Remaining(s, p)
    ensures WorkerStep(step, p) ==> Remaining(Next(s, step), p) == Remaining(s, p) - 1
  {
    if step.project != p {
      OtherStepIsHidden(s, step, p);
      SameForKeepsInv(s, Next(s, step), p);
    } else {
      match step
      case Schedule(_, _, _) => ScheduleKeepsInv(s, step);
      case BeginEmit(_) => BeginKeepsInv(s, step);
      case EndEmit(_) => EndKeepsInv(s, step);
      case Round(_) => RoundKeepsInv(s, step);
    }
  }

  lemma {:induction false} RunKeepsInv(s: State, steps: seq<Step>, t: State, p: string)
    requires Inv(s, p) && Runs(s, steps, t)
    ensures Inv(t, p)
    decreases |steps|
  {
    if steps != [] {
      StepKeepsInv(s, steps[0], p);
      RunKeepsInv(Next(s, steps[0]), steps[1..], t, p);
    }
  }

  /** No schedule is lost: in every interleaving, when a project that was ever scheduled
      is idle, an emit has begun after its last schedule, and one or two have ended
      since. At all times there is at most one worker for the project, and no more emits
      have begun than were scheduled. */
  lemma NoLostSchedule(steps: seq<Step>, t: State, p: string)
    requires Runs(INITIAL, steps, t)
    ensures Live(t, p) <= 1
    ensures Count(t, Began(p)) <= Count(t, Scheduled(p))
    ensures Since(t.events, Ended(p)) <= 2
    ensures p !in t.pending && Scheduled(p) in t.events ==>
              Since(t.events, Began(p)) >= 1 && Since(t.events, Ended(p)) >= 1
    ensures p !in t.pending <==> Live(t, p) == 0
  {
    RunKeepsInv(INITIAL, steps, t, p);
  }

  /** A worker never finds its entry missing, so the critical section cannot raise. */
  lemma WorkerFindsItsEntry(steps: seq<Step>, t: State, p: string)
    requires Runs(INITIAL, steps, t) && Worker(p, Checking) in t.workers
    ensures Enabled(t, Round(p))
  {
    RunKeepsInv(INITIAL, steps, t, p);
  }

  /** A schedule that is accepted while an emit for `p` is under way. */
  predicate Asks(step: Step, p: string) {
    step.Schedule? && step.project == p && Strip(step.command) != "" && p != ""
  }

  lemma {:induction false} FlagMeansAsked(s: State, steps: seq<Step>, t: State, p: string)
    requires p in s.pending && Runs(s, steps, t) && Round(p) !in steps
    ensures p in t.pending && (t.pending[p] <==> s.pending[p] || exists step <- steps :: Asks(step, p))
    decreases |steps|
  {
    if steps != [] {
      assert steps == [steps[0]] + steps[1..];
      var next := Next(s, steps[0]);
      assert p in next.pending && (next.pending[p] <==> s.pending[p] || Asks(steps[0], p));
      FlagMeansAsked(next, steps[1..], t, p);
      assert forall step :: step in steps <==> step == steps[0] || step in steps[1..];
    }
  }

  /** The worker goes on for another emit exactly when someone asked for one since its round
      began, at whatever point of the round; otherwise the project becomes idle. Entries of
      other projects are not touched. */
  lemma {:induction false} WorkerGoesOnIfAsked(s: State, steps: seq<Step>, t: State, p: string)
    requires p in s.pending && !s.pending[p] && Runs(s, steps, t) && Round(p) !in steps
    requires Enabled(t, Round(p))
    ensures var u := Next(t, Round(p));
            && (p in u.pending <==> exists step <- steps :: Asks(step, p))
            && (p in u.pending ==> !u.pending[p] && Worker(p, Starting) in u.workers)
            && u.pending - {p} == t.pending - {p}
  {
    FlagMeansAsked(s, steps, t, p);
  }

  /** An emit for `p` is still to begin. */
  predicate Owed(s: State, p: string) {
    (p in s.pending && s.pending[p]) || Worker(p, Starting) in s.workers
  }

  lemma OwedUntilBegun(s: State, step: Step, p: string)
    requires Inv(s, p) && Enabled(s, step) && Owed(s, p) && step != BeginEmit(p)
    ensures Owed(Next(s, step), p)
  {
    if step.project != p {
      OtherWorkerIsHidden(s, step, p);
    } else if step.Schedule? {
      assert p in s.pending;
    }
  }

  lemma {:induction false} OwedIsBegun(s: State, steps: seq<Step>, t: State, p: string)
    requires Inv(s, p) && Runs(s, steps, t) && Owed(s, p) && p !in t.pending
    ensures BeginEmit(p) in steps
    decreases |steps|
  {
    OwedIsPending(s, p);
    if steps[0] != BeginEmit(p) {
      OwedStays(s, steps[0], p);
      OwedIsBegun(Next(s, steps[0]), steps[1..], t, p);
      assert steps == [steps[0]] + steps[1..];
    }
  }

  lemma OwedIsPending(s: State, p: string)
    requires Inv(s, p) && Owed(s, p)
    ensures p in s.pending
  {
  }

  lemma OwedStays(s: State, step: Step, p: string)
    requires Inv(s, p) && Enabled(s, step) && Owed(s, p) && step != BeginEmit(p)
    ensures Inv(Next(s, step), p) && Owed(Next(s, step), p)
  {
    StepKeepsInv(s, step, p);
    OwedUntilBegun(s, step, p);
  }

  lemma RequestIsPending(s: State, c: string, p: string)
    requires Strip(c) != "" && p != ""
    ensures var u := Next(s, Schedule(c, p, true));
            && Owed(u, p) && p in u.pending
            && forall q :: q != p ==> (q in u.pending <==> q in s.pending) && (q in s.pending ==> u.pending[q] == s.pending[q])
  {
    assert Decide(s.pending, c, p, true) == if p in s.pending then Coalesced else Started;
  }

  lemma RequestKeepsInv(s: State, c: string, p: string)
    requires Inv(s, p) && Strip(c) != "" && p != ""
    ensures var u := Next(s, Schedule(c, p, true));
            Inv(u, p) && (p in u.pending ==> Live(u, p) == 1)
  {
    StepKeepsInv(s, Schedule(c, p, true), p);
  }

  /** What a request does after any run. A command and a project are all it needs: then the
      project is pending with a live worker, whatever other projects do, and before it can be
      idle an emit begins. A request that lacks one of them, or whose thread does not start,
      changes nothing. */
  lemma {:induction false} RequestIsServed(before: seq<Step>, s: State, c: string, p: string, after: seq<Step>, t: State)
    requires Runs(INITIAL, before, s) && Strip(c) != "" && p != ""
    requires Runs(Next(s, Schedule(c, p, true)), after, t)
    ensures var u := Next(s, Schedule(c, p, true));
            && p in u.pending && Live(u, p) == 1
            && (forall q :: q != p ==> (q in u.pending <==> q in s.pending) && (q in s.pending ==> u.pending[q] == s.pending[q]))
    ensures p !in t.pending ==> BeginEmit(p) in after
  {
    RunKeepsInv(INITIAL, before, s, p);
    RequestKeepsInv(s, c, p);
    RequestIsPending(s, c, p);
    if p !in t.pending {
      OwedIsBegun(Next(s, Schedule(c, p, true)), after, t, p);
    }
  }

  lemma FutileRequest(s: State, c: string, p: string, threadStarts: bool)
    requires Strip(c) == "" || p == "" || (!threadStarts && p !in s.pending)
    ensures Next(s, Schedule(c, p, threadStarts)) == s
  {
  }

  // ---- progress -------------------------------------------------------------------

  /** The steps that the worker of `p` still has to take. */
  function Remaining(s: State, p: string): nat {
    3 * Flag(s, p) + 3 * s.workers[Worker(p, Starting)] + 2 * s.workers[Worker(p, Emitting)] + s.workers[Worker(p, Checking)]
  }

  predicate WorkerStep(step: Step, p: string) {
    !step.Schedule? && step.project == p
  }

  /** At most six steps are left, and one of them is enabled until the project is idle. */
  lemma WorkerCanMove(s: State, p: string)
    requires Inv(s, p)
    ensures Remaining(s, p) <= 6
    ensures Remaining(s, p) == 0 <==> p !in s.pending
    ensures p in s.pending ==> exists step :: WorkerStep(step, p) && Enabled(s, step)
  {
    if p in s.pending {
      var step := if Worker(p, Starting) in s.workers then BeginEmit(p)
                  else if Worker(p, Emitting) in s.workers then EndEmit(p)
                  else Round(p);
      assert WorkerStep(step, p) && Enabled(s, step);
    }
  }

  function WorkerSteps(steps: seq<Step>, p: string): nat {
    if steps == [] then 0 else (if WorkerStep(steps[0], p) then 1 else 0) + WorkerSteps(steps[1..], p)
  }

  /** Over a whole run without schedules of `p`, each step of its worker brings it nearer
      to idleness by exactly one and other steps not at all: its worker takes at most six steps, and
      the project is idle exactly when it has taken all that were left. */
  lemma {:induction false} QuietRunDrains(s: State, steps: seq<Step>, t: State, p: string)
    requires Inv(s, p) && Runs(s, steps, t)
    requires forall step <- steps :: step.Schedule? ==> step.project != p
    ensures WorkerSteps(steps, p) + Remaining(t, p) == Remaining(s, p) <= 6
    ensures p !in t.pending <==> WorkerSteps(steps, p) == Remaining(s, p)
    decreases |steps|
  {
    WorkerCanMove(s, p);
    if steps != [] {
      assert steps[0] in steps;
      StepKeepsInv(s, steps[0], p);
      QuietRunDrains(Next(s, steps[0]), steps[1..], t, p);
    }
  }

  // ---- the threads --------------------------------------------------------------------

  lemma {:induction false} RunsAppend(s: State, steps: seq<Step>, t: State, step: Step)
    requires Runs(s, steps, t) && Enabled(t, step)
    ensures Runs(s, steps + [step], Next(t, step))
    decreases |steps|
  {
    if steps == [] {
      assert [step][1..] == [] && steps + [step] == [step];
      assert Runs(Next(t, step), [], Next(t, step));
    } else {
      assert (steps + [step])[1..] == steps[1..] + [step];
      RunsAppend(Next(s, steps[0]), steps[1..], t, step);
    }
  }

  /** The shared dictionary and the code that changes it under `_guard`. What has happened
      so far is a run of the interleavings above. */
  class Emitter {
    var pending: Pending
    ghost var state: State
    ghost var steps: seq<Step>

    ghost predicate Valid()
      reads this
    {
      Runs(INITIAL, steps, state) && state.pending == pending
    }

    constructor ()
      ensures Valid() && pending == map[] && state == INITIAL
    {
      pending, state, steps := map[], INITIAL, [];
    }

    ghost method Take(step: Step)
      requires Runs(INITIAL, steps, state) && Enabled(state, step)
      modifies this`state, this`steps
      ensures Runs(INITIAL, steps, state) && state == Next(old(state), step) && steps == old(steps) + [step]
    {
      RunsAppend(INITIAL, steps, state, step);
      state, steps := Next(state, step), steps + [step];
    }

    method ScheduleEmit(command: string, project: string, threadStarts: bool) returns (started: bool)
      requires Valid()
      modifies this
      ensures Valid() && state == Next(old(state), Schedule(command, project, threadStarts))
      ensures steps == old(steps) + [Schedule(command, project, threadStarts)]
      ensures pending == AfterSchedule(old(pending), project, Decide(old(pending), command, project, threadStarts))
      ensures started <==> Strip(command) != "" && project != "" && project !in old(pending) && threadStarts
      ensures Strip(command) != "" && project != "" && (threadStarts || project in old(pending)) ==>
                pending == old(pending)[project := project in old(pending)]
    {
      Take(Schedule(command, project, threadStarts));
      if Strip(command) == "" || project == "" {
        return false;
      }
      if project in pending {
        pending := pending[project := true];
        return false;
      }
      pending := pending[project := false];
      if !threadStarts {
        pending := pending - {project};
        assert pending == old(pending);
        return false;
      }
      return true;
    }

    /** The worker's decision after an emit: another round, or leave. */
    method FinishRound(project: string) returns (again: bool)
      requires Valid() && Enabled(state, Round(project))
      modifies this
      ensures Valid() && state == Next(old(state), Round(project)) && steps == old(steps) + [Round(project)]
      ensures again <==> old(pending)[project]
      ensures pending == AfterRound(old(pending), project)
      ensures (project in pending <==> again) && pending - {project} == old(pending) - {project}
      ensures again ==> Worker(project, Starting) in state.workers
    {
      Take(Round(project));
      again := pending[project];
      if again {
        pending := pending[project := false];
      } else {
        pending := pending - {project};
      }
    }

    /** Whatever the threads have done, an idle project has had an emit begin after its last
        schedule. */
    lemma IdleIsServed(project: string)
      requires Valid() && project !in pending && Scheduled(project) in state.events
      ensures Since(state.events, Began(project)) >= 1 && Since(state.events, Ended(project)) >= 1
    {
      NoLostSchedule(steps, state, project);
    }
  }
}
