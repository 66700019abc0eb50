/** Why the amounts are stated for sessions launched once. A second launch of a task writes
    over the start of the first, and a scan then passes over what the first was charged; and
    it leaves the end of the first, by which a scan passes over what the second is charged. */
module CreditRelaunch {
  import opened Wrappers
  import opened CreditLedger
  import opened CreditRuns
  import opened CreditAccounting

  const AGAIN := Key("again", false)
  const OTHER := Key("other", false)
  const WAITS := Waits(1.0, 0.0)

  /** One charge, of the first launch. */
  const CHARGES := [Posting(AGAIN, 3.0, 1.0)]

  function Begun(started: real, before: Option<Reading>): Session {
    Session(Some(started), None, None, before, None, None)
  }

  const EARLY := Some(Reading(0.0, 2.0))
  const LATE := Some(Reading(1.0, 5.0))
  const PENDING := Session(Some(2.0), None, Some(4.0), EARLY, Some(4.0), None)

  const EMPTY := State(1.0, map[], map[], map[], map[])
  const BOTH := State(2.0, map[], map[AGAIN := Begun(1.0, None), OTHER := Begun(2.0, EARLY)],
                      map[AGAIN := 1.0, OTHER := 2.0], map[])
  const WAITING := State(6.0, map[], map[AGAIN := Begun(1.0, None), OTHER := PENDING],
                         map[AGAIN := 1.0, OTHER := 2.0], map[OTHER := 4.0])
  const RELAUNCHED := WAITING.(sessions := map[AGAIN := Begun(6.0, None), OTHER := PENDING])

  lemma Then(s: State, step: Step, steps: seq<Step>, t: State)
    requires Enabled(s, step) && Runs(Next(s, step, WAITS), steps, WAITS, t)
    ensures Runs(s, [step] + steps, WAITS, t)
  {
    assert ([step] + steps)[1..] == steps;
  }

  lemma LaunchBoth() returns (steps: seq<Step>)
    ensures Runs(EMPTY, steps, WAITS, BOTH)
    ensures TruthfulSteps(steps, CHARGES)
  {
    var s1 := Next(EMPTY, TakeStart(AGAIN, None), WAITS);
    var s2 := Next(s1, Publish(AGAIN), WAITS);
    assert s2 == State(1.0, map[], map[AGAIN := Begun(1.0, None)], map[AGAIN := 1.0], map[]);
    var s3 := Next(s2, Advance(2.0), WAITS);
    var s4 := Next(s3, TakeStart(OTHER, EARLY), WAITS);
    assert s4 == s3.(stamps := map[OTHER := Stamp(2.0, EARLY)]);
    assert Next(s4, Publish(OTHER), WAITS) == BOTH;
    Then(s4, Publish(OTHER), [], BOTH);
    Then(s3, TakeStart(OTHER, EARLY), [Publish(OTHER)], BOTH);
    steps := [TakeStart(OTHER, EARLY)] + [Publish(OTHER)];
    Then(s2, Advance(2.0), steps, BOTH);
    steps := [Advance(2.0)] + steps;
    Then(s1, Publish(AGAIN), steps, BOTH);
    steps := [Publish(AGAIN)] + steps;
    Then(EMPTY, TakeStart(AGAIN, None), steps, BOTH);
    steps := [TakeStart(AGAIN, None)] + steps;
    ChargesCounted();
  }

  lemma EndOther() returns (steps: seq<Step>)
    ensures Runs(BOTH, steps, WAITS, WAITING)
    ensures TruthfulSteps(steps, CHARGES)
  {
    var s1 := Next(BOTH, Advance(4.0), WAITS);
    var s2 := Next(s1, MarkEnded(OTHER), WAITS);
    assert s2 == State(4.0, map[], map[AGAIN := Begun(1.0, None), OTHER := Session(Some(2.0), None, Some(4.0), EARLY, None, None)],
                       map[AGAIN := 1.0, OTHER := 2.0], map[OTHER := 4.0]);
    var s3 := Next(s2, RecordCost(OTHER, None), WAITS);
    assert s3 == WAITING.(now := 4.0);
    assert Next(s3, Advance(6.0), WAITS) == WAITING;
    Then(s3, Advance(6.0), [], WAITING);
    Then(s2, RecordCost(OTHER, None), [Advance(6.0)], WAITING);
    steps := [RecordCost(OTHER, None)] + [Advance(6.0)];
    Then(s1, MarkEnded(OTHER), steps, WAITING);
    steps := [MarkEnded(OTHER)] + steps;
    Then(BOTH, Advance(4.0), steps, WAITING);
    steps := [Advance(4.0)] + steps;
  }

  /** The row that the last call of the recorder closes. */
  function Closing(): Session {
    PENDING.(final := Some(Final(Measured, Some(1.0), {}, LATE, 4.0, 6.0)))
  }

  lemma ScanMissesFirstLaunch()
    ensures AfterTick(RELAUNCHED.sessions, OTHER, LATE, 6.0, WAITS) == Closing()
  {
    var scan := OverlapSet(RELAUNCHED.sessions, OTHER, 2.0, WindowEnd(5.0, LATE), 1.0);
    assert scan == {};
  }

  lemma LaunchAgain() returns (steps: seq<Step>, t: State)
    ensures Runs(WAITING, steps, WAITS, t) && TruthfulSteps(steps, CHARGES)
    ensures t.sessions == map[AGAIN := Begun(6.0, None), OTHER := Closing()]
    ensures t.listed == map[AGAIN := 1.0, OTHER := 2.0] && t.finished == map[OTHER := 4.0]
  {
    var s1 := Next(WAITING, TakeStart(AGAIN, None), WAITS);
    assert s1 == WAITING.(stamps := map[AGAIN := Stamp(6.0, None)]);
    assert Next(s1, Publish(AGAIN), WAITS) == RELAUNCHED;
    ScanMissesFirstLaunch();
    t := Next(RELAUNCHED, RecordCost(OTHER, LATE), WAITS);
    Then(RELAUNCHED, RecordCost(OTHER, LATE), [], t);
    Then(s1, Publish(AGAIN), [RecordCost(OTHER, LATE)], t);
    steps := [Publish(AGAIN)] + [RecordCost(OTHER, LATE)];
    Then(WAITING, TakeStart(AGAIN, None), steps, t);
    steps := [TakeStart(AGAIN, None)] + steps;
    ChargesCounted();
  }

  lemma ChargesCounted()
    ensures Counter(CHARGES, 2.0) == 0.0 && Counter(CHARGES, 5.0) == 1.0
    ensures Cost(CHARGES, OTHER) == 0.0
  {
    TotalOne(CHARGES[0], UpTo(2.0));
    TotalOne(CHARGES[0], UpTo(5.0));
    TotalOne(CHARGES[0], Of(OTHER));
  }

  lemma {:induction false} RunsConcat(s: State, a: seq<Step>, t: State, b: seq<Step>, u: State)
    requires Runs(s, a, WAITS, t) && Runs(t, b, WAITS, u)
    ensures Runs(s, a + b, WAITS, u)
    decreases |a|
  {
    if a == [] {
      assert a + b == b;
    } else {
      assert (a + b)[1..] == a[1..] + b;
      RunsConcat(Next(s, a[0], WAITS), a[1..], t, b, u);
    }
  }

  /** A truthful run with legal charges in which a session that cost nothing, with a before
      reading as fresh as can be, is measured with the charge of another. */
  lemma RelaunchHidesCharges() returns (steps: seq<Step>, t: State)
    ensures Start(EMPTY) && Runs(EMPTY, steps, WAITS, t)
    ensures TruthfulSteps(steps, CHARGES) && Legal(CHARGES, t, WAITS.settle)
    ensures OTHER in t.sessions && t.sessions[OTHER] == Closing() && From(Closing()) == 2.0 == Closing().attempt.value
    ensures Closing().final.value.usd == Some(1.0) && Cost(CHARGES, OTHER) == 0.0
  {
    var launches := LaunchBoth();
    var ends := EndOther();
    var again;
    again, t := LaunchAgain();
    RunsConcat(BOTH, ends, WAITING, again, t);
    RunsConcat(EMPTY, launches, BOTH, ends + again, t);
    steps := launches + (ends + again);
    ChargesCounted();
  }

  // ---- an end that stays behind ----------------------------------------------------------

  /** One charge, of the second launch, while it runs. */
  const RUNNING := [Posting(AGAIN, 12.0, 5.0)]

  const FRESH_BEFORE := Some(Reading(0.0, 10.0))
  const FRESH_AFTER := Some(Reading(5.0, 14.0))

  /** The second launch runs, and its row still carries the end of the first. */
  const STALE := Session(Some(3.0), Some(3.0), Some(1.0), None, None, None)
  const RESTARTED := State(3.0, map[], map[AGAIN := STALE], map[AGAIN := 1.0], map[])
  const MEASURING := State(14.0, map[],
                           map[AGAIN := STALE, OTHER := Session(Some(10.0), None, Some(12.0), FRESH_BEFORE, Some(12.0), None)],
                           map[AGAIN := 1.0, OTHER := 10.0], map[OTHER := 12.0])

  const ENDED := State(1.0, map[], map[AGAIN := Session(Some(1.0), None, Some(1.0), None, None, None)],
                       map[AGAIN := 1.0], map[AGAIN := 1.0])

  lemma EndFirst() returns (steps: seq<Step>)
    ensures Runs(EMPTY, steps, WAITS, ENDED) && TruthfulSteps(steps, RUNNING)
  {
    var s1 := Next(EMPTY, TakeStart(AGAIN, None), WAITS);
    var s2 := Next(s1, Publish(AGAIN), WAITS);
    assert Next(s2, MarkEnded(AGAIN), WAITS) == ENDED;
    Then(s2, MarkEnded(AGAIN), [], ENDED);
    Then(s1, Publish(AGAIN), [MarkEnded(AGAIN)], ENDED);
    steps := [Publish(AGAIN)] + [MarkEnded(AGAIN)];
    Then(EMPTY, TakeStart(AGAIN, None), steps, ENDED);
    steps := [TakeStart(AGAIN, None)] + steps;
  }

  lemma Restart() returns (steps: seq<Step>)
    ensures Runs(ENDED, steps, WAITS, RESTARTED) && TruthfulSteps(steps, RUNNING)
  {
    var s1 := Next(ENDED, Advance(3.0), WAITS);
    var s2 := Next(s1, TakeStart(AGAIN, None), WAITS);
    var s3 := Next(s2, Publish(AGAIN), WAITS);
    assert s3 == RESTARTED.(sessions := map[AGAIN := STALE.(launched := None)]);
    assert Next(s3, MarkLaunched(AGAIN), WAITS) == RESTARTED;
    Then(s3, MarkLaunched(AGAIN), [], RESTARTED);
    Then(s2, Publish(AGAIN), [MarkLaunched(AGAIN)], RESTARTED);
    steps := [Publish(AGAIN)] + [MarkLaunched(AGAIN)];
    Then(s1, TakeStart(AGAIN, None), steps, RESTARTED);
    steps := [TakeStart(AGAIN, None)] + steps;
    Then(ENDED, Advance(3.0), steps, RESTARTED);
    steps := [Advance(3.0)] + steps;
  }

  lemma EndAndRestart() returns (steps: seq<Step>)
    ensures Runs(EMPTY, steps, WAITS, RESTARTED) && TruthfulSteps(steps, RUNNING)
  {
    var ends := EndFirst();
    var restarts := Restart();
    RunsConcat(EMPTY, ends, ENDED, restarts, RESTARTED);
    steps := ends + restarts;
  }

  lemma OtherBeside() returns (steps: seq<Step>)
    ensures Runs(RESTARTED, steps, WAITS, MEASURING)
    ensures TruthfulSteps(steps, RUNNING)
  {
    var s1 := Next(RESTARTED, Advance(10.0), WAITS);
    var s2 := Next(s1, TakeStart(OTHER, FRESH_BEFORE), WAITS);
    assert s2 == s1.(stamps := map[OTHER := Stamp(10.0, FRESH_BEFORE)]);
    var s3 := Next(s2, Publish(OTHER), WAITS);
    assert s3 == State(10.0, map[], map[AGAIN := STALE, OTHER := Begun(10.0, FRESH_BEFORE)],
                       map[AGAIN := 1.0, OTHER := 10.0], map[]);
    var s4 := Next(s3, Advance(12.0), WAITS);
    var s5 := Next(s4, RecordCost(OTHER, None), WAITS);
    assert s5 == MEASURING.(now := 12.0);
    assert Next(s5, Advance(14.0), WAITS) == MEASURING;
    Then(s5, Advance(14.0), [], MEASURING);
    Then(s4, RecordCost(OTHER, None), [Advance(14.0)], MEASURING);
    steps := [RecordCost(OTHER, None)] + [Advance(14.0)];
    Then(s3, Advance(12.0), steps, MEASURING);
    steps := [Advance(12.0)] + steps;
    Then(s2, Publish(OTHER), steps, MEASURING);
    steps := [Publish(OTHER)] + steps;
    Then(s1, TakeStart(OTHER, FRESH_BEFORE), steps, MEASURING);
    steps := [TakeStart(OTHER, FRESH_BEFORE)] + steps;
    Then(RESTARTED, Advance(10.0), steps, MEASURING);
    steps := [Advance(10.0)] + steps;
    RunningCounted();
  }

  lemma RunningCounted()
    ensures Counter(RUNNING, 10.0) == 0.0 && Counter(RUNNING, 14.0) == 5.0
    ensures Cost(RUNNING, OTHER) == 0.0
  {
    TotalOne(RUNNING[0], UpTo(10.0));
    TotalOne(RUNNING[0], UpTo(14.0));
    TotalOne(RUNNING[0], Of(OTHER));
  }

  /** The row that the last call of the recorder closes, beside the running launch. */
  function ClosedBeside(): Session {
    Session(Some(10.0), None, Some(12.0), FRESH_BEFORE, Some(12.0),
            Some(Final(Measured, Some(5.0), {}, FRESH_AFTER, 12.0, 14.0)))
  }

  lemma ScanMissesRunningLaunch()
    ensures AfterTick(MEASURING.sessions, OTHER, FRESH_AFTER, 14.0, WAITS) == ClosedBeside()
  {
    var scan := OverlapSet(MEASURING.sessions, OTHER, 10.0, WindowEnd(13.0, FRESH_AFTER), 1.0);
    assert scan == {};
  }

  /** A truthful run with legal charges in which the scan passes over a running second launch
      by the end that the first one left, so that a session that cost nothing is measured with
      its charge; and not all legal charges make the amount exact. */
  lemma StaleEndHidesCharges() returns (steps: seq<Step>, t: State)
    ensures Start(EMPTY) && Runs(EMPTY, steps, WAITS, t)
    ensures TruthfulSteps(steps, RUNNING) && Legal(RUNNING, t, WAITS.settle)
    ensures OTHER in t.sessions && t.sessions[OTHER] == ClosedBeside()
    ensures From(ClosedBeside()) == 10.0 == ClosedBeside().attempt.value
    ensures ClosedBeside().final.value.usd == Some(5.0) && Cost(RUNNING, OTHER) == 0.0
    ensures !Exact(t, OTHER, 10.0, 14.0, WAITS.settle)
  {
    var restart := EndAndRestart();
    var beside := OtherBeside();
    ScanMissesRunningLaunch();
    var last := RecordCost(OTHER, FRESH_AFTER);
    t := Next(MEASURING, last, WAITS);
    Then(MEASURING, last, [], t);
    RunsConcat(RESTARTED, beside, MEASURING, [last], t);
    RunsConcat(EMPTY, restart, RESTARTED, beside + [last], t);
    steps := restart + (beside + [last]);
    RunningCounted();
    assert Legal(RUNNING, t, WAITS.settle);
  }
}
