/** What the recorder keeps over every run of launches, ends, readings and ticks, real
    and shadow. Any of them may come at any time and again: an end is overwritten, a closed
    row failed, a task launched once more. Time only moves forward. */
module CreditRuns {
  import opened Wrappers
  import opened CreditLedger

  /** The sessions, and the launches whose start is taken and not yet on the table. Two
      histories say when a session first came on the table, and when an end was first written
      since its last launch. */
  datatype State = State(
    now: real,
    stamps: map<Key, Stamp>,
    sessions: Sessions,
    listed: map<Key, real>,
    finished: map<Key, real>)

  datatype Step =
    | Advance(later: real)
    | TakeStart(key: Key, snapshot: Option<Reading>)
    | Publish(key: Key)
    | MarkLaunched(key: Key)
    | MarkEnded(key: Key)
    | FailClosed(key: Key)
    | RecordCost(key: Key, snapshot: Option<Reading>)

  predicate Enabled(s: State, step: Step) {
    match step
    case Advance(later) => later >= s.now
    case TakeStart(_, _) => true
    case Publish(k) => k in s.stamps
    case MarkLaunched(k) => Row(s.sessions, k).attempt.Some?
    case MarkEnded(k) => k in s.sessions
    case FailClosed(_) => true
    case RecordCost(k, _) => k in s.sessions
  }

  /** The row that a step writes. */
  function NewRow(s: State, step: Step, w: Waits): Session
    requires Enabled(s, step) && !step.Advance? && !step.TakeStart?
  {
    var row := Row(s.sessions, step.key);
    match step
    case Publish(k) => Launched(row, s.stamps[k])
    case MarkLaunched(_) => row.(launched := Some(s.now))
    case MarkEnded(_) => row.(ended := Some(s.now))
    case FailClosed(_) => Closed(row, s.now)
    case RecordCost(k, snapshot) => AfterTick(s.sessions, k, snapshot, s.now, w)
  }

  function Note(history: map<Key, real>, k: Key, happened: bool, now: real): map<Key, real> {
    if happened && k !in history then history[k := now] else history
  }

  /** A launch starts a session that has not ended. */
  function Reopened(finished: map<Key, real>, step: Step): map<Key, real> {
    if step.Publish? then finished - {step.key} else finished
  }

  /** The step writes an end; an end that an earlier launch left in the row is none. */
  predicate WritesEnd(s: State, step: Step, row: Session)
    requires !step.Advance?
  {
    step.MarkEnded? || step.FailClosed? || row.ended != Row(s.sessions, step.key).ended
  }

  function Next(s: State, step: Step, w: Waits): State
    requires Enabled(s, step)
  {
    match step
    case Advance(later) => s.(now := later)
    case TakeStart(k, snapshot) => s.(stamps := s.stamps[k := TakeStamp(snapshot, s.now)])
    case _ =>
      var row := NewRow(s, step, w);
      s.(stamps := if step.Publish? then s.stamps - {step.key} else s.stamps,
         sessions := s.sessions[step.key := row],
         listed := Note(s.listed, step.key, step.Publish?, s.now),
         finished := Note(Reopened(s.finished, step), step.key, WritesEnd(s, step, row), s.now))
  }

  ghost predicate Runs(s: State, steps: seq<Step>, w: Waits, t: State)
    decreases |steps|
  {
    if steps == [] then s == t
    else Enabled(s, steps[0]) && Runs(Next(s, steps[0], w), steps[1..], w, t)
  }

  predicate Start(s: State) {
    s.now > 0.0 && s.stamps == map[] && s.sessions == map[] && s.listed == map[] && s.finished == map[]
  }

  predicate IsMeasured(s: Session) {
    s.final.Some? && s.final.value.status.Measured?
  }

  /** The fields of one session. */
  predicate Sane(s: Session, now: real, settle: real) {
    && (s.attempt.Some? ==> 0.0 < s.attempt.value <= now)
    && (s.launched.Some? ==> s.attempt.Some?)
    && (s.ended.Some? ==> 0.0 < s.ended.value <= now)
    && (s.pendingAt.Some? ==> s.ended.Some? && 0.0 < s.pendingAt.value <= now)
    && (s.before.Some? ==> s.attempt.Some? && s.before.value.fetched <= s.attempt.value)
    && (s.final.Some? ==> s.ended.Some? && s.final.value.at <= now)
    && (IsMeasured(s) ==> MeasuredSanely(s, settle))
  }

  /** A measured session has both readings, the later one from after the settle window of
      the end that it was closed with. That end may be overwritten by a later one. */
  predicate MeasuredSanely(s: Session, settle: real)
    requires s.final.Some?
  {
    var f := s.final.value;
    && s.attempt.Some? && s.ended.Some? && s.before.Some? && f.after.Some?
    && f.end <= s.ended.value
    && f.end + settle <= f.after.value.fetched <= f.at
    && f.usd == Some(f.after.value.used - s.before.value.used) && f.usd.value >= 0.0
  }

  /** The windows from start to end of settle time do not meet. */
  predicate DisjointWindows(s: Session, t: Session, settle: real)
    requires s.attempt.Some? && s.final.Some? && t.attempt.Some? && t.final.Some?
  {
    s.final.value.end + settle < t.attempt.value || t.final.value.end + settle < s.attempt.value
  }

  ghost predicate AllSane(s: State, settle: real) {
    && s.now > 0.0
    && (forall k <- s.sessions :: Sane(s.sessions[k], s.now, settle))
    && (forall k <- s.stamps :: 0.0 < s.stamps[k].started <= s.now
                                && (s.stamps[k].before.Some? ==> s.stamps[k].before.value.fetched <= s.stamps[k].started))
  }

  ghost predicate Inv(s: State, settle: real) {
    && AllSane(s, settle)
    && (forall k, o :: k in s.sessions && o in s.sessions && k != o
                       && IsMeasured(s.sessions[k]) && IsMeasured(s.sessions[o]) ==>
          DisjointWindows(s.sessions[k], s.sessions[o], settle))
  }

  /** What steps may do to a row: an end only moves forward, a closed row is never opened
      again, an amount may be taken back, and a measured row was always the same. */
  predicate Grows(s: Session, t: Session) {
    && Phase(s) <= Phase(t)
    && (s.ended.Some? ==> t.ended.Some? && s.ended.value <= t.ended.value)
    && (s.final.Some? && IsMeasured(t) ==> t.final == s.final && t.attempt == s.attempt && t.before == s.before)
  }

  /** none, PENDING_SETTLE, final */
  function Phase(s: Session): nat {
    if s.final.Some? then 2 else if s.pendingAt.Some? then 1 else 0
  }

  lemma StepGrows(s: State, step: Step, w: Waits)
    requires AllSane(s, w.settle) && Enabled(s, step)
    ensures var t := Next(s, step, w);
            && s.now <= t.now
            && s.sessions.Keys <= t.sessions.Keys
            && forall k <- s.sessions :: Grows(s.sessions[k], t.sessions[k])
  {
  }

  /** What the scan of a session that closes as measured has found out about another. */
  predicate OutOfWindow(row: Session, other: Session, settle: real)
    requires row.attempt.Some? && row.final.Some? && row.final.value.after.Some?
  {
    other.attempt.Some? ==>
      || (other.attempt.value > row.final.value.after.value.fetched && other.attempt.value > row.final.value.end + settle)
      || (other.ended.Some? && other.ended.value + settle < row.attempt.value)
  }

  /** The recorder closes a row as measured only after a scan that found no overlap. */
  lemma MeasuredByScan(s: State, k: Key, snapshot: Option<Reading>, w: Waits)
    requires AllSane(s, w.settle) && k in s.sessions
    requires s.sessions[k].final == None && IsMeasured(AfterTick(s.sessions, k, snapshot, s.now, w))
    ensures var row := AfterTick(s.sessions, k, snapshot, s.now, w);
            && Sane(row, s.now, w.settle)
            && row.ended == s.sessions[k].ended == Some(row.final.value.end)
            && forall o <- s.sessions :: o != k ==> OutOfWindow(row, s.sessions[o], w.settle)
  {
    var b := s.sessions[k];
    var settleEnd := b.ended.value + w.settle;
    var after := Usable(snapshot, s.now);
    var scan := OverlapSet(s.sessions, k, b.attempt.value, WindowEnd(settleEnd, after), w.settle);
    assert AfterTick(s.sessions, k, snapshot, s.now, w).final.value.overlaps == scan == {};
    forall o <- s.sessions | o != k
      ensures !Overlaps(s.sessions[o], b.attempt.value, WindowEnd(settleEnd, after), w.settle)
    {
      assert o !in scan;
    }
  }

  lemma TickIsSane(s: State, k: Key, snapshot: Option<Reading>, w: Waits)
    requires AllSane(s, w.settle) && k in s.sessions
    ensures Sane(AfterTick(s.sessions, k, snapshot, s.now, w), s.now, w.settle)
  {
  }

  lemma StepKeepsSanity(s: State, step: Step, w: Waits)
    requires AllSane(s, w.settle) && Enabled(s, step)
    ensures AllSane(Next(s, step, w), w.settle)
  {
    if step.RecordCost? {
      TickIsSane(s, step.key, step.snapshot, w);
    }
  }

  /** Only a call of the recorder makes a row measured, and only its own. */
  lemma NewlyMeasured(s: State, step: Step, w: Waits, k: Key)
    requires AllSane(s, w.settle) && Enabled(s, step)
    requires k in Next(s, step, w).sessions && IsMeasured(Next(s, step, w).sessions[k])
    ensures k in s.sessions
    ensures IsMeasured(s.sessions[k]) || (step.RecordCost? && step.key == k && s.sessions[k].final == None)
  {
  }

  /** The pairwise part of the invariant, when the row of `k` was measured before: whichever
      of two sessions closes later has the other in its scan. */
  lemma StepKeepsPair(s: State, step: Step, w: Waits, k: Key, o: Key)
    requires Inv(s, w.settle) && Enabled(s, step) && AllSane(Next(s, step, w), w.settle)
    requires k in s.sessions && IsMeasured(s.sessions[k]) && k != o
    requires var t := Next(s, step, w);
             k in t.sessions && o in t.sessions && IsMeasured(t.sessions[k]) && IsMeasured(t.sessions[o])
    ensures DisjointWindows(Next(s, step, w).sessions[k], Next(s, step, w).sessions[o], w.settle)
  {
    var t := Next(s, step, w);
    StepGrows(s, step, w);
    NewlyMeasured(s, step, w, o);
    assert Grows(s.sessions[k], t.sessions[k]);
    if IsMeasured(s.sessions[o]) {
      assert Grows(s.sessions[o], t.sessions[o]);
    } else {
      MeasuredByScan(s, o, step.snapshot, w);
      assert OutOfWindow(t.sessions[o], s.sessions[k], w.settle);
    }
  }

  lemma StepKeepsInv(s: State, step: Step, w: Waits)
    requires Inv(s, w.settle) && Enabled(s, step)
    ensures Inv(Next(s, step, w), w.settle)
  {
    var t := Next(s, step, w);
    StepKeepsSanity(s, step, w);
    forall k, o | k in t.sessions && o in t.sessions && k != o
                  && IsMeasured(t.sessions[k]) && IsMeasured(t.sessions[o])
      ensures DisjointWindows(t.sessions[k], t.sessions[o], w.settle)
    {
      NewlyMeasured(s, step, w, k);
      NewlyMeasured(s, step, w, o);
      if IsMeasured(s.sessions[k]) {
        StepKeepsPair(s, step, w, k, o);
      } else {
        StepKeepsPair(s, step, w, o, k);
      }
    }
  }

  lemma {:induction false} RunKeepsInv(s: State, steps: seq<Step>, w: Waits, t: State)
    requires Inv(s, w.settle) && Runs(s, steps, w, t)
    ensures Inv(t, w.settle)
    ensures s.now <= t.now && s.sessions.Keys <= t.sessions.Keys
    ensures forall k <- s.sessions :: Grows(s.sessions[k], t.sessions[k])
    decreases |steps|
  {
    if steps != [] {
      StepKeepsInv(s, steps[0], w);
      StepGrows(s, steps[0], w);
      RunKeepsInv(Next(s, steps[0], w), steps[1..], w, t);
    }
  }

  /** Over every run, any two sessions that end up measured, real or shadow, and whichever
      was closed first, have disjoint windows, from the start to the end of the settle time
      after the end that the row was closed with. */
  lemma MeasuredWindowsAreDisjoint(s: State, steps: seq<Step>, w: Waits, t: State, k: Key, o: Key)
    requires Start(s) && Runs(s, steps, w, t)
    requires k in t.sessions && o in t.sessions && k != o
    requires IsMeasured(t.sessions[k]) && IsMeasured(t.sessions[o])
    ensures t.sessions[k].attempt.Some? && t.sessions[o].attempt.Some?
    ensures DisjointWindows(t.sessions[k], t.sessions[o], w.settle)
  {
    RunKeepsInv(s, steps, w, t);
  }

  /** No end is written for a row that is closed already. */
  ghost predicate EndsInTime(s: State, steps: seq<Step>, w: Waits)
    decreases |steps|
  {
    steps == []
    || (Enabled(s, steps[0])
        && (steps[0].MarkEnded? ==> s.sessions[steps[0].key].final == None)
        && EndsInTime(Next(s, steps[0], w), steps[1..], w))
  }

  ghost predicate ClosedWithRecordedEnd(s: State) {
    forall k <- s.sessions :: IsMeasured(s.sessions[k]) ==> s.sessions[k].ended == Some(s.sessions[k].final.value.end)
  }

  lemma {:induction false} RecordedEndsStay(s: State, steps: seq<Step>, w: Waits, t: State)
    requires Inv(s, w.settle) && Runs(s, steps, w, t) && EndsInTime(s, steps, w) && ClosedWithRecordedEnd(s)
    ensures ClosedWithRecordedEnd(t)
    decreases |steps|
  {
    if steps != [] {
      StepKeepsInv(s, steps[0], w);
      RecordedEndsStay(Next(s, steps[0], w), steps[1..], w, t);
    }
  }

  /** The same windows by the recorded ends, however often these were overwritten, in every
      run that writes no end after closing. */
  lemma RecordedWindowsAreDisjoint(s: State, steps: seq<Step>, w: Waits, t: State, k: Key, o: Key)
    requires Start(s) && Runs(s, steps, w, t) && EndsInTime(s, steps, w)
    requires k in t.sessions && o in t.sessions && k != o
    requires IsMeasured(t.sessions[k]) && IsMeasured(t.sessions[o])
    ensures var x, y := t.sessions[k], t.sessions[o];
            && x.attempt.Some? && y.attempt.Some? && x.ended.Some? && y.ended.Some?
            && (x.ended.value + w.settle < y.attempt.value || y.ended.value + w.settle < x.attempt.value)
  {
    RunKeepsInv(s, steps, w, t);
    RecordedEndsStay(s, steps, w, t);
  }

  // ---- a launch on the table -------------------------------------------------------

  /** The row keeps its start until the next launch. */
  lemma {:induction false} StartStays(s: State, steps: seq<Step>, w: Waits, t: State, k: Key)
    requires Runs(s, steps, w, t) && Publish(k) !in steps && k in s.sessions && s.sessions[k].attempt.Some?
    ensures k in t.sessions && t.sessions[k].attempt == s.sessions[k].attempt
    decreases |steps|
  {
    if steps != [] {
      assert steps == [steps[0]] + steps[1..];
      StartStays(Next(s, steps[0], w), steps[1..], w, t, k);
    }
  }

  /** From its launch on, through every run up to the next launch of its task, a session is in
      the scan of every other whose interval comes up to its start, until its recorded end and
      settle time lie before that interval. So nobody who closes a row with such an interval
      gets it measured. */
  lemma LaunchIsSeen(s: State, steps: seq<Step>, w: Waits, t: State, k: Key, j: Key, snapshot: Option<Reading>)
    requires Inv(s, w.settle) && Enabled(s, Publish(k)) && Publish(k) !in steps
    requires Runs(Next(s, Publish(k), w), steps, w, t) && j != k
    ensures k in t.sessions
    ensures forall from, to :: k in OverlapSet(t.sessions, j, from, to, w.settle) <==>
              && s.stamps[k].started <= to
              && (t.sessions[k].ended == None || t.sessions[k].ended.value + w.settle >= from)
    ensures j in t.sessions && t.sessions[j].final == None
            && IsMeasured(AfterTick(t.sessions, j, snapshot, t.now, w)) ==>
              var row := AfterTick(t.sessions, j, snapshot, t.now, w);
              && row.attempt.Some?
              && (|| s.stamps[k].started > row.final.value.end + w.settle
                  || (t.sessions[k].ended.Some? && t.sessions[k].ended.value + w.settle < row.attempt.value))
  {
    var first := Next(s, Publish(k), w);
    StepKeepsInv(s, Publish(k), w);
    RunKeepsInv(first, steps, w, t);
    StartStays(first, steps, w, t, k);
    assert t.sessions[k].Began() == Some(s.stamps[k].started);
    if j in t.sessions && t.sessions[j].final == None && IsMeasured(AfterTick(t.sessions, j, snapshot, t.now, w)) {
      MeasuredByScan(t, j, snapshot, w);
      assert OutOfWindow(AfterTick(t.sessions, j, snapshot, t.now, w), t.sessions[k], w.settle);
    }
  }

  // ---- the settle machine ----------------------------------------------------------

  /** Over every run a session only moves forward, and a row closed at any moment shows at
      the end the same amount from the same readings, or none. */
  lemma PhasesMoveForward(s: State, steps: seq<Step>, w: Waits, t: State, k: Key)
    requires Inv(s, w.settle) && Runs(s, steps, w, t) && k in s.sessions
    ensures k in t.sessions && Phase(s.sessions[k]) <= Phase(t.sessions[k])
    ensures s.sessions[k].final.Some? && IsMeasured(t.sessions[k]) ==>
              t.sessions[k].final == s.sessions[k].final && t.sessions[k].before == s.sessions[k].before
  {
    RunKeepsInv(s, steps, w, t);
  }

  predicate TakesBack(step: Step, k: Key) {
    (step.Publish? || step.FailClosed?) && step.key == k
  }

  /** Only a new launch or a failed dispatch of the same task takes a closed row back; without
      them it never changes. The recorded end stays as well unless it is written again. */
  lemma {:induction false} ClosedRowStays(s: State, steps: seq<Step>, w: Waits, t: State, k: Key)
    requires Inv(s, w.settle) && Runs(s, steps, w, t) && k in s.sessions && s.sessions[k].final.Some?
    requires forall step <- steps :: !TakesBack(step, k)
    ensures k in t.sessions && t.sessions[k].final == s.sessions[k].final
    ensures (forall step <- steps :: step != MarkEnded(k)) ==> t.sessions[k].ended == s.sessions[k].ended
    decreases |steps|
  {
    if steps != [] {
      assert steps[0] in steps;
      assert forall step <- steps[1..] :: step in steps;
      StepKeepsInv(s, steps[0], w);
      ClosedRowStays(Next(s, steps[0], w), steps[1..], w, t, k);
    }
  }

  /** A dispatch that fails closed leaves a session that is never measured, whatever comes
      after it, and that other scans leave out once its settle time is over. */
  lemma FailedIsNeverMeasured(s: State, steps: seq<Step>, w: Waits, t: State, k: Key)
    requires Inv(s, w.settle) && Runs(Next(s, FailClosed(k), w), steps, w, t)
    ensures k in t.sessions && t.sessions[k].final.Some? && !IsMeasured(t.sessions[k])
    ensures var row := Next(s, FailClosed(k), w).sessions[k];
            && row.ended == Some(s.now) && row.final.Some? && row.final.value.usd == None
            && row.final.value.status == (if Row(s.sessions, k).attempt.Some? then UnknownNoFreshReading else NotLaunched)
    ensures forall began, end :: Overlaps(Next(s, FailClosed(k), w).sessions[k], began, end, w.settle) ==>
              s.now + w.settle >= began
  {
    StepKeepsInv(s, FailClosed(k), w);
    RunKeepsInv(Next(s, FailClosed(k), w), steps, w, t);
  }

  /** Some other session may have been charged between `began` and `until`. */
  ghost predicate SomeoneIn(s: State, k: Key, began: real, until: real, settle: real) {
    exists o :: o in s.sessions && o != k && s.sessions[o].attempt.Some? && s.sessions[o].attempt.value <= until
                && (s.sessions[o].ended == None || s.sessions[o].ended.value + settle >= began)
  }

  /** At most ten minutes old, not from the future, and not negative. */
  predicate Fresh(snapshot: Option<Reading>, now: real) {
    snapshot.Some? && snapshot.value.fetched <= now <= snapshot.value.fetched + 600.0 && snapshot.value.used >= 0.0
  }

  /** The scan finds someone exactly when someone is there. */
  lemma ScanFindsSomeone(s: State, k: Key, began: real, until: real, w: Waits)
    requires AllSane(s, w.settle)
    ensures OverlapSet(s.sessions, k, began, until, w.settle) != {} <==> SomeoneIn(s, k, began, until, w.settle)
  {
    var scan := OverlapSet(s.sessions, k, began, until, w.settle);
    if o :| o in s.sessions && o != k && s.sessions[o].attempt.Some? && s.sessions[o].attempt.value <= until
            && (s.sessions[o].ended == None || s.sessions[o].ended.value + w.settle >= began) {
      assert Sane(s.sessions[o], s.now, w.settle);
      assert o in scan;
    }
    if scan != {} {
      var o :| o in scan;
      assert Sane(s.sessions[o], s.now, w.settle);
    }
  }

  /** The whole decision of a tick on a pending row, by the facts. Before the end of the settle
      time nothing happens. Then an overlap closes the row, whatever the readings are. Without
      one, two good readings close it, with the difference or, when the counter went down,
      without. A reading that is missing for good closes it as unknown; only for a stale after
      reading it stays pending, until the fresh wait is over. */
  lemma TickDecides(s: State, k: Key, snapshot: Option<Reading>, w: Waits)
    requires AllSane(s, w.settle) && k in s.sessions
    requires s.sessions[k].attempt.Some? && s.sessions[k].pendingAt.Some? && s.sessions[k].final == None
    ensures s.sessions[k].ended.Some?
    ensures var a, b := s.sessions[k], AfterTick(s.sessions, k, snapshot, s.now, w);
            var began, settled := a.attempt.value, a.ended.value + w.settle;
            var after := Fresh(snapshot, s.now);
            var until := if after && snapshot.value.fetched > settled then snapshot.value.fetched else settled;
            var late := after && snapshot.value.fetched >= settled;
            && (b.final.Some? ==> b == a.(final := b.final) && b.final.value.end == a.ended.value && b.final.value.at == s.now)
            && (s.now < settled ==> b == a)
            && (s.now >= settled && SomeoneIn(s, k, began, until, w.settle) ==>
                  b.final.Some? && b.final.value.status == UnknownOverlap && b.final.value.usd == None)
            && (s.now >= settled && !SomeoneIn(s, k, began, until, w.settle) ==>
                  if late && a.before.Some? && a.before.value.fetched <= began then
                    && b.final.Some? && b.final.value.after == snapshot
                    && (if snapshot.value.used >= a.before.value.used
                        then b.final.value.status == Measured
                             && b.final.value.usd == Some(snapshot.value.used - a.before.value.used)
                        else b.final.value.status == UnknownCounterDecreased && b.final.value.usd == None)
                  else if late || s.now >= settled + w.freshWait then
                    b.final.Some? && b.final.value.status == UnknownNoFreshReading && b.final.value.usd == None
                  else b == a)
  {
    var a := s.sessions[k];
    assert Sane(a, s.now, w.settle);
    var settled := a.ended.value + w.settle;
    var after := Fresh(snapshot, s.now);
    assert Usable(snapshot, s.now) == if after then snapshot else None;
    ScanFindsSomeone(s, k, a.attempt.value, WindowEnd(settled, Usable(snapshot, s.now)), w);
  }

  /** The first call of the recorder opens the settle time: from the recorded end, or from now. */
  lemma FirstTickOpens(s: State, k: Key, snapshot: Option<Reading>, w: Waits)
    requires AllSane(s, w.settle) && k in s.sessions
    requires s.sessions[k].pendingAt == None && s.sessions[k].final == None
    ensures var a, b := s.sessions[k], AfterTick(s.sessions, k, snapshot, s.now, w);
            b == a.(pendingAt := Some(s.now), ended := if a.ended.Some? then a.ended else Some(s.now))
  {
    assert Sane(s.sessions[k], s.now, w.settle);
  }

  lemma {:induction false} StampStays(s: State, steps: seq<Step>, w: Waits, t: State, k: Key)
    requires Runs(s, steps, w, t) && k in s.stamps
    requires forall step <- steps :: (step.TakeStart? || step.Publish?) ==> step.key != k
    ensures k in t.stamps && t.stamps[k] == s.stamps[k]
    decreases |steps|
  {
    if steps != [] {
      assert steps[0] in steps;
      assert forall step <- steps[1..] :: step in steps;
      StampStays(Next(s, steps[0], w), steps[1..], w, t, k);
    }
  }

  /** However much happens between taking the start and putting it on the table, the row gets
      the time at which the start was taken, and the snapshot of then if it was fresh. */
  lemma LaunchKeepsStamp(s: State, k: Key, snapshot: Option<Reading>, steps: seq<Step>, w: Waits, t: State)
    requires Runs(Next(s, TakeStart(k, snapshot), w), steps, w, t)
    requires forall step <- steps :: (step.TakeStart? || step.Publish?) ==> step.key != k
    ensures Enabled(t, Publish(k))
    ensures var row := Next(t, Publish(k), w).sessions[k];
            && row.attempt == Some(s.now) && row.before == (if Fresh(snapshot, s.now) then snapshot else None)
            && row.ended == Row(t.sessions, k).ended && row.pendingAt == Row(t.sessions, k).pendingAt
            && (row.final.Some? ==> row.final.value.usd == None && row.final.value.status == Unset)
            && (row.final.Some? <==> Row(t.sessions, k).final.Some?)
  {
    StampStays(Next(s, TakeStart(k, snapshot), w), steps, w, t, k);
  }

  /** A recorder call moves one phase at a time. A pending row is closed exactly when the
      settle time is over, unless the only obstacle is a stale after reading and the
      time to wait for a fresh one is not over; so from then on every call closes it. */
  lemma TickMovesOnePhase(s: State, k: Key, snapshot: Option<Reading>, w: Waits)
    requires Inv(s, w.settle) && k in s.sessions
    ensures var a, b := s.sessions[k], AfterTick(s.sessions, k, snapshot, s.now, w);
            && Phase(a) <= Phase(b) <= Phase(a) + 1
            && (Phase(a) == 0 ==> Phase(b) == 1)
            && (Phase(a) == 1 ==>
                  var settleEnd := a.ended.value + w.settle;
                  var after := Usable(snapshot, s.now);
                  Phase(b) == 2 <==>
                    && s.now >= settleEnd
                    && (|| s.now >= settleEnd + w.freshWait
                        || (after.Some? && after.value.fetched >= settleEnd)
                        || Conclude(s.sessions, k, a.ended.value, after, s.now, w).status == UnknownOverlap))
            && (Phase(a) == 1 && IsMeasured(b) ==> s.now >= a.ended.value + w.settle)
  {
  }
}
