/** What a measured amount means: the charges of all sessions are postings to the one
    counter, and a session's own postings fall into its settle window. */
module CreditAccounting {
  import opened Wrappers
  import opened CreditLedger
  import opened CreditRuns

  datatype Posting = Posting(key: Key, time: real, amount: real)

  /** Total of the postings that a filter selects. */
  ghost function Total(ps: seq<Posting>, f: Posting -> bool): real {
    if ps == [] then 0.0 else (if f(ps[0]) then ps[0].amount else 0.0) + Total(ps[1..], f)
  }

  function UpTo(t: real): Posting -> bool {
    (p: Posting) => p.time <= t
  }

  function Within(from: real, to: real): Posting -> bool {
    (p: Posting) => from < p.time <= to
  }

  function Of(k: Key): Posting -> bool {
    (p: Posting) => p.key == k
  }

  function Others(k: Key, from: real, to: real): Posting -> bool {
    (p: Posting) => p.key != k && from < p.time <= to
  }

  /** The counter at a time. */
  ghost function Counter(ps: seq<Posting>, t: real): real {
    Total(ps, UpTo(t))
  }

  /** The true cost of one session. */
  ghost function Cost(ps: seq<Posting>, k: Key): real {
    Total(ps, Of(k))
  }

  /** Charges of other sessions that are counted between two times. */
  ghost function Foreign(ps: seq<Posting>, k: Key, from: real, to: real): real {
    Total(ps, Others(k, from, to))
  }

  /** Charges are not negative, belong to launched sessions, and are posted after the session
      first came on the table, which is before it is submitted, and not after the settle time
      of the first end that was written since its last launch. */
  ghost predicate Legal(ps: seq<Posting>, s: State, settle: real) {
    forall p <- ps ::
      && p.amount >= 0.0
      && p.key in s.listed && s.listed[p.key] < p.time
      && (p.key in s.finished ==> p.time <= s.finished[p.key] + settle)
  }

  lemma TotalNonNegative(ps: seq<Posting>, f: Posting -> bool)
    requires forall p <- ps :: p.amount >= 0.0
    ensures Total(ps, f) >= 0.0
  {
    if ps != [] {
      assert ps[0] in ps;
    }
  }

  lemma TotalZero(ps: seq<Posting>, f: Posting -> bool)
    requires forall p <- ps :: p.amount >= 0.0
    ensures Total(ps, f) == 0.0 <==> forall p <- ps :: f(p) ==> p.amount == 0.0
  {
    if ps != [] {
      TotalZero(ps[1..], f);
      TotalNonNegative(ps[1..], f);
      assert ps == [ps[0]] + ps[1..];
    }
  }

  /** Two filters that never select together. */
  lemma TotalSum(ps: seq<Posting>, f: Posting -> bool, g: Posting -> bool, h: Posting -> bool)
    requires forall p <- ps :: (h(p) <==> f(p) || g(p)) && !(f(p) && g(p))
    ensures Total(ps, h) == Total(ps, f) + Total(ps, g)
  {
    if ps != [] {
      assert ps[0] in ps;
      TotalSum(ps[1..], f, g, h);
    }
  }

  /** Two readings around all that a session can be charged. */
  ghost predicate Around(s: State, k: Key, from: real, to: real, settle: real) {
    k in s.listed && k in s.finished && from <= s.listed[k] && s.finished[k] + settle <= to
  }

  /** The counter difference around a settle window is the session's own cost and the
      charges of others in between. */
  lemma DifferenceIsCostAndForeign(ps: seq<Posting>, s: State, settle: real, k: Key, from: real, to: real)
    requires Legal(ps, s, settle) && Around(s, k, from, to, settle) && from <= to
    ensures Counter(ps, to) - Counter(ps, from) == Cost(ps, k) + Foreign(ps, k, from, to)
    ensures Foreign(ps, k, from, to) >= 0.0
  {
    TotalSum(ps, UpTo(from), Within(from, to), UpTo(to));
    TotalSum(ps, Of(k), Others(k, from, to), Within(from, to));
    TotalNonNegative(ps, Others(k, from, to));
  }

  // ---- what runs with one launch for each session keep --------------------------------

  /** No session is launched that is on the table already. */
  ghost predicate LaunchedOnce(s: State, steps: seq<Step>, w: Waits)
    decreases |steps|
  {
    steps == []
    || (Enabled(s, steps[0])
        && (steps[0].Publish? ==> steps[0].key !in s.sessions)
        && LaunchedOnce(Next(s, steps[0], w), steps[1..], w))
  }

  /** The histories against the row of one session. */
  predicate HistoryAgrees(s: State, k: Key)
    requires k in s.sessions
  {
    var row := s.sessions[k];
    && (k in s.listed <==> row.attempt.Some?)
    && (k in s.finished <==> row.ended.Some?)
    && (row.attempt.Some? ==> row.attempt.value <= s.listed[k] <= s.now)
    && (row.ended.Some? ==> s.finished[k] <= row.ended.value)
    && (row.attempt.Some? && row.ended.Some? ==> s.listed[k] <= s.finished[k])
    && (IsMeasured(row) ==> k in s.finished && s.finished[k] <= row.final.value.end)
  }

  /** Nothing of `o` is posted between the start of the measured `k` and its after reading. */
  predicate KeptApart(s: State, k: Key, o: Key, settle: real)
    requires k in s.sessions && s.sessions[k].attempt.Some? && IsMeasured(s.sessions[k])
    requires s.sessions[k].final.value.after.Some?
  {
    o in s.listed ==>
      || s.listed[o] >= s.sessions[k].final.value.after.value.fetched
      || (o in s.finished && s.finished[o] + settle < s.sessions[k].attempt.value)
  }

  ghost predicate Histories(s: State) {
    && s.listed.Keys <= s.sessions.Keys && s.finished.Keys <= s.sessions.Keys
    && (forall k <- s.sessions :: HistoryAgrees(s, k))
  }

  ghost predicate Kept(s: State, settle: real) {
    && Inv(s, settle) && Histories(s)
    && (forall k, o :: k in s.sessions && k != o && IsMeasured(s.sessions[k]) ==> KeptApart(s, k, o, settle))
  }

  lemma StepKeepsHistories(s: State, step: Step, w: Waits)
    requires Kept(s, w.settle) && Enabled(s, step) && (step.Publish? ==> step.key !in s.sessions)
    ensures Histories(Next(s, step, w))
  {
    var t := Next(s, step, w);
    forall k <- t.sessions ensures HistoryAgrees(t, k) {
      NewRowAgrees(s, step, w, k);
    }
  }

  lemma NewRowAgrees(s: State, step: Step, w: Waits, k: Key)
    requires Kept(s, w.settle) && Enabled(s, step) && (step.Publish? ==> step.key !in s.sessions)
    requires k in Next(s, step, w).sessions
    ensures HistoryAgrees(Next(s, step, w), k)
  {
    if k in s.sessions {
      assert HistoryAgrees(s, k) && Sane(s.sessions[k], s.now, w.settle);
    } else {
      assert k !in s.listed && k !in s.finished;
    }
    if !step.Advance? && !step.TakeStart? && step.key == k {
      match step
      case Publish(_) => PublishedRowAgrees(s, step, w);
      case RecordCost(_, _) => RecordedRowAgrees(s, step, w);
      case _ => MarkedRowAgrees(s, step, w);
    }
  }

  lemma PublishedRowAgrees(s: State, step: Step, w: Waits)
    requires AllSane(s, w.settle) && Histories(s) && Enabled(s, step)
    requires step.Publish? && step.key !in s.sessions
    ensures HistoryAgrees(Next(s, step, w), step.key)
  {
    assert step.key !in s.listed && step.key !in s.finished;
    assert NewRow(s, step, w) == Session(Some(s.stamps[step.key].started), None, None, s.stamps[step.key].before, None, None);
  }

  lemma MarkedRowAgrees(s: State, step: Step, w: Waits)
    requires AllSane(s, w.settle) && Histories(s) && Enabled(s, step)
    requires step.MarkLaunched? || step.MarkEnded? || step.FailClosed?
    ensures HistoryAgrees(Next(s, step, w), step.key)
  {
    if step.key in s.sessions {
      assert HistoryAgrees(s, step.key) && Sane(s.sessions[step.key], s.now, w.settle);
    }
  }

  lemma RecordedRowAgrees(s: State, step: Step, w: Waits)
    requires AllSane(s, w.settle) && Histories(s) && Enabled(s, step) && step.RecordCost?
    ensures HistoryAgrees(Next(s, step, w), step.key)
  {
    var k := step.key;
    assert HistoryAgrees(s, k) && Sane(s.sessions[k], s.now, w.settle);
    var row := AfterTick(s.sessions, k, step.snapshot, s.now, w);
    assert row.attempt == s.sessions[k].attempt;
    assert row.ended == s.sessions[k].ended || row.ended == Some(s.now);
    if IsMeasured(row) && !IsMeasured(s.sessions[k]) {
      MeasuredByScan(s, k, step.snapshot, w);
    }
  }

  /** A row that was measured before stays apart: later sessions are listed later. */
  lemma MeasuredStaysApart(s: State, step: Step, w: Waits, k: Key, o: Key)
    requires Kept(s, w.settle) && Enabled(s, step) && (step.Publish? ==> step.key !in s.sessions)
    requires k in s.sessions && IsMeasured(s.sessions[k]) && k != o
    requires IsMeasured(Next(s, step, w).sessions[k]) && Grows(s.sessions[k], Next(s, step, w).sessions[k])
    requires Sane(Next(s, step, w).sessions[k], Next(s, step, w).now, w.settle)
    ensures KeptApart(Next(s, step, w), k, o, w.settle)
  {
    var t := Next(s, step, w);
    assert KeptApart(s, k, o, w.settle) && Sane(s.sessions[k], s.now, w.settle);
    assert o in s.listed ==> o in t.listed && t.listed[o] == s.listed[o];
    assert o in s.finished ==> o in t.finished && t.finished[o] == s.finished[o];
    assert o in t.listed && o !in s.listed ==> t.listed[o] == s.now;
  }

  lemma NewlyMeasuredIsApart(s: State, step: Step, w: Waits, k: Key, o: Key)
    requires Kept(s, w.settle) && Enabled(s, step) && step.RecordCost? && step.key == k
    requires s.sessions[k].final == None && k != o
    requires IsMeasured(Next(s, step, w).sessions[k])
    requires Sane(Next(s, step, w).sessions[k], s.now, w.settle)
    ensures KeptApart(Next(s, step, w), k, o, w.settle)
  {
    var t := Next(s, step, w);
    MeasuredByScan(s, k, step.snapshot, w);
    assert t.listed == s.listed;
    if o in s.listed {
      assert OutOfWindow(t.sessions[k], s.sessions[o], w.settle) && HistoryAgrees(s, o);
      assert o in s.finished ==> t.finished[o] == s.finished[o];
    }
  }

  lemma StepKeepsApart(s: State, step: Step, w: Waits, k: Key, o: Key)
    requires Kept(s, w.settle) && Enabled(s, step) && (step.Publish? ==> step.key !in s.sessions)
    requires AllSane(Next(s, step, w), w.settle)
    requires k in Next(s, step, w).sessions && IsMeasured(Next(s, step, w).sessions[k]) && k != o
    ensures KeptApart(Next(s, step, w), k, o, w.settle)
  {
    var t := Next(s, step, w);
    NewlyMeasured(s, step, w, k);
    StepGrows(s, step, w);
    assert Grows(s.sessions[k], t.sessions[k]);
    if IsMeasured(s.sessions[k]) {
      MeasuredStaysApart(s, step, w, k, o);
    } else {
      NewlyMeasuredIsApart(s, step, w, k, o);
    }
  }

  lemma StepKeepsKept(s: State, step: Step, w: Waits)
    requires Kept(s, w.settle) && Enabled(s, step) && (step.Publish? ==> step.key !in s.sessions)
    ensures Kept(Next(s, step, w), w.settle)
  {
    var t := Next(s, step, w);
    StepKeepsInv(s, step, w);
    StepKeepsHistories(s, step, w);
    forall k, o | k in t.sessions && k != o && IsMeasured(t.sessions[k])
      ensures KeptApart(t, k, o, w.settle)
    {
      StepKeepsApart(s, step, w, k, o);
    }
  }

  lemma {:induction false} RunKeepsKept(s: State, steps: seq<Step>, w: Waits, t: State)
    requires Kept(s, w.settle) && Runs(s, steps, w, t) && LaunchedOnce(s, steps, w)
    ensures Kept(t, w.settle)
    decreases |steps|
  {
    if steps != [] {
      StepKeepsKept(s, steps[0], w);
      RunKeepsKept(Next(s, steps[0], w), steps[1..], w, t);
    }
  }

  // ---- measured sessions of a run ---------------------------------------------------

  /** A snapshot shows the counter at the time it was fetched. */
  ghost predicate Truthful(r: Option<Reading>, ps: seq<Posting>) {
    r.Some? ==> r.value.used == Counter(ps, r.value.fetched)
  }

  ghost predicate TruthfulSteps(steps: seq<Step>, ps: seq<Posting>) {
    forall step <- steps :: (step.TakeStart? || step.RecordCost?) ==> Truthful(step.snapshot, ps)
  }

  ghost predicate TruthfulRow(row: Session, ps: seq<Posting>) {
    Truthful(row.before, ps) && (row.final.Some? ==> Truthful(row.final.value.after, ps))
  }

  ghost predicate TruthfulRows(s: State, ps: seq<Posting>) {
    && (forall k <- s.stamps :: Truthful(s.stamps[k].before, ps))
    && (forall k <- s.sessions :: TruthfulRow(s.sessions[k], ps))
  }

  lemma StepKeepsTruth(s: State, step: Step, w: Waits, ps: seq<Posting>)
    requires Enabled(s, step) && TruthfulRows(s, ps)
    requires (step.TakeStart? || step.RecordCost?) ==> Truthful(step.snapshot, ps)
    ensures TruthfulRows(Next(s, step, w), ps)
  {
    var t := Next(s, step, w);
    if !step.Advance? && !step.TakeStart? {
      assert TruthfulRow(Row(s.sessions, step.key), ps);
      assert TruthfulRow(NewRow(s, step, w), ps);
    }
  }

  lemma {:induction false} RunKeepsTruth(s: State, steps: seq<Step>, w: Waits, t: State, ps: seq<Posting>)
    requires Runs(s, steps, w, t) && TruthfulSteps(steps, ps) && TruthfulRows(s, ps)
    ensures TruthfulRows(t, ps)
    decreases |steps|
  {
    if steps != [] {
      assert steps[0] in steps;
      assert forall step <- steps[1..] :: step in steps;
      StepKeepsTruth(s, steps[0], w, ps);
      RunKeepsTruth(Next(s, steps[0], w), steps[1..], w, t, ps);
    }
  }

  /** The readings of a measured session, and what was measured. */
  ghost function From(s: Session): real
    requires s.before.Some?
  { s.before.value.fetched }

  ghost function To(s: Session): real
    requires s.final.Some? && s.final.value.after.Some?
  { s.final.value.after.value.fetched }

  /** Over every truthful run, a measured amount is the session's true cost and whatever
      others were charged between the before reading and the start. So it is never too
      low, and it is exact when all that was posted there is zero. */
  lemma MeasuredAmount(s: State, steps: seq<Step>, w: Waits, t: State, ps: seq<Posting>, k: Key)
    requires Start(s) && Runs(s, steps, w, t) && LaunchedOnce(s, steps, w) && w.settle >= 0.0
    requires TruthfulSteps(steps, ps) && Legal(ps, t, w.settle)
    requires k in t.sessions && IsMeasured(t.sessions[k])
    ensures var m := t.sessions[k];
            && m.attempt.Some? && m.before.Some? && m.final.value.usd.Some?
            && m.final.value.usd.value == Cost(ps, k) + Foreign(ps, k, From(m), m.attempt.value)
            && m.final.value.usd.value >= Cost(ps, k)
            && (m.final.value.usd.value == Cost(ps, k) <==>
                  forall p <- ps :: p.key != k && From(m) < p.time <= m.attempt.value ==> p.amount == 0.0)
  {
    RunKeepsKept(s, steps, w, t);
    RunKeepsTruth(s, steps, w, t, ps);
    MeasuredIsAround(t, w, k);
    var m := t.sessions[k];
    var from, to, began := From(m), To(m), m.attempt.value;
    DifferenceIsCostAndForeign(ps, t, w.settle, k, from, to);
    OthersBeforeStart(t, w, ps, k);
    TotalSum(ps, Others(k, from, began), Others(k, began, to), Others(k, from, to));
    TotalZero(ps, Others(k, began, to));
    TotalZero(ps, Others(k, from, began));
    TotalNonNegative(ps, Others(k, from, began));
  }

  function OwnWithin(k: Key, from: real, to: real): Posting -> bool {
    (p: Posting) => p.key == k && from < p.time <= to
  }

  /** Over every truthful run, relaunches included, a measured amount is what was posted
      between the two readings, by the session and by others; nothing when the after reading
      is the older one. */
  lemma MeasuredOverAnyRun(s: State, steps: seq<Step>, w: Waits, t: State, ps: seq<Posting>, k: Key)
    requires Start(s) && Runs(s, steps, w, t)
    requires TruthfulSteps(steps, ps) && forall p <- ps :: p.amount >= 0.0
    requires k in t.sessions && IsMeasured(t.sessions[k])
    ensures var m := t.sessions[k];
            && m.before.Some? && m.final.value.after.Some? && m.final.value.usd.Some?
            && m.final.value.usd.value ==
               if From(m) <= To(m) then Total(ps, OwnWithin(k, From(m), To(m))) + Foreign(ps, k, From(m), To(m)) else 0.0
  {
    RunKeepsInv(s, steps, w, t);
    RunKeepsTruth(s, steps, w, t, ps);
    var m := t.sessions[k];
    assert Sane(m, t.now, w.settle) && TruthfulRow(m, ps);
    var from, to := From(m), To(m);
    if from <= to {
      TotalSum(ps, UpTo(from), Within(from, to), UpTo(to));
      TotalSum(ps, OwnWithin(k, from, to), Others(k, from, to), Within(from, to));
    } else {
      TotalSum(ps, UpTo(to), Within(to, from), UpTo(from));
      TotalNonNegative(ps, Within(to, from));
    }
  }

  lemma MeasuredIsAround(t: State, w: Waits, k: Key)
    requires Kept(t, w.settle) && w.settle >= 0.0 && k in t.sessions && IsMeasured(t.sessions[k])
    ensures var m := t.sessions[k];
            && m.attempt.Some? && m.before.Some? && m.final.value.after.Some?
            && m.final.value.usd == Some(m.final.value.after.value.used - m.before.value.used)
            && Around(t, k, From(m), To(m), w.settle) && From(m) <= m.attempt.value <= To(m)
  {
    assert HistoryAgrees(t, k) && Sane(t.sessions[k], t.now, w.settle);
  }

  /** The scan excludes all that others post between the start and the after reading. */
  lemma OthersBeforeStart(t: State, w: Waits, ps: seq<Posting>, k: Key)
    requires Kept(t, w.settle) && Legal(ps, t, w.settle)
    requires k in t.sessions && IsMeasured(t.sessions[k])
    ensures forall p <- ps :: p.key != k ==> !(t.sessions[k].attempt.value < p.time <= To(t.sessions[k]))
  {
    forall p <- ps | p.key != k
      ensures !(t.sessions[k].attempt.value < p.time <= To(t.sessions[k]))
    {
      assert KeptApart(t, k, p.key, w.settle);
    }
  }

  /** Over every run a decreased counter is only ever recorded for an after reading that is
      older than the before reading; and so never when sessions are launched once. */
  lemma CounterNeverDecreases(s: State, steps: seq<Step>, w: Waits, t: State, ps: seq<Posting>, k: Key,
                              snapshot: Option<Reading>)
    requires Start(s) && Runs(s, steps, w, t) && w.settle >= 0.0
    requires TruthfulSteps(steps, ps) && Truthful(snapshot, ps) && forall p <- ps :: p.amount >= 0.0
    requires k in t.sessions && t.sessions[k].final == None
    ensures var row := AfterTick(t.sessions, k, snapshot, t.now, w);
            row.final.Some? && row.final.value.status == UnknownCounterDecreased ==>
              && !LaunchedOnce(s, steps, w)
              && row.before.Some? && row.final.value.after.Some?
              && row.final.value.after.value.fetched < row.before.value.fetched
  {
    RunKeepsInv(s, steps, w, t);
    if LaunchedOnce(s, steps, w) {
      RunKeepsKept(s, steps, w, t);
      assert HistoryAgrees(t, k);
    }
    RunKeepsTruth(s, steps, w, t, ps);
    var b := t.sessions[k];
    assert Sane(b, t.now, w.settle) && TruthfulRow(b, ps);
    var after := Usable(snapshot, t.now);
    if b.before.Some? && after.Some? && b.before.value.fetched <= after.value.fetched {
      var from, to := b.before.value.fetched, after.value.fetched;
      TotalSum(ps, UpTo(from), Within(from, to), UpTo(to));
      TotalNonNegative(ps, Within(from, to));
    }
  }

  // ---- exactness for all charges ------------------------------------------------------

  function Min(x: real, y: real): real { if x <= y then x else y }
  function Max(x: real, y: real): real { if x <= y then y else x }

  /** No charge of `o` can be posted: its settle time is over when it comes on the table. */
  predicate NoCharges(t: State, o: Key, settle: real)
    requires o in t.listed
  {
    o in t.finished && t.finished[o] + settle <= t.listed[o]
  }

  /** All that the session can be charged is posted between the two readings. */
  predicate OwnCovered(t: State, k: Key, from: real, to: real, settle: real)
    requires k in t.listed
  {
    NoCharges(t, k, settle) || (k in t.finished && from <= t.listed[k] && t.finished[k] + settle <= to)
  }

  /** No charge of `o` can be posted after the earlier and until the later reading. */
  predicate OutOfReach(t: State, o: Key, from: real, to: real, settle: real)
    requires o in t.listed
  {
    || from == to
    || NoCharges(t, o, settle)
    || t.listed[o] >= Max(from, to)
    || (o in t.finished && t.finished[o] + settle <= Min(from, to))
  }

  ghost predicate Exact(t: State, k: Key, from: real, to: real, settle: real) {
    forall ps :: Legal(ps, t, settle) ==> Counter(ps, to) - Counter(ps, from) == Cost(ps, k)
  }

  /** The counter difference, whichever reading is the older one. */
  lemma Difference(ps: seq<Posting>, from: real, to: real)
    ensures from <= to ==> Counter(ps, to) - Counter(ps, from) == Total(ps, Within(from, to))
    ensures to <= from ==> Counter(ps, to) - Counter(ps, from) == -Total(ps, Within(to, from))
  {
    if from <= to {
      TotalSum(ps, UpTo(from), Within(from, to), UpTo(to));
    }
    if to <= from {
      TotalSum(ps, UpTo(to), Within(to, from), UpTo(from));
    }
  }

  lemma SameTotal(ps: seq<Posting>, f: Posting -> bool, g: Posting -> bool)
    requires forall p <- ps :: f(p) <==> g(p)
    ensures Total(ps, f) == Total(ps, g)
  {
    if ps != [] {
      assert ps[0] in ps;
      SameTotal(ps[1..], f, g);
    }
  }

  lemma CoveredIsExact(t: State, k: Key, from: real, to: real, settle: real, ps: seq<Posting>)
    requires k in t.listed && OwnCovered(t, k, from, to, settle)
    requires forall o <- t.listed :: o != k ==> OutOfReach(t, o, from, to, settle)
    requires Legal(ps, t, settle)
    ensures Counter(ps, to) - Counter(ps, from) == Cost(ps, k)
  {
    Difference(ps, from, to);
    if from < to {
      SameTotal(ps, Within(from, to), Of(k));
    } else {
      TotalZero(ps, Of(k));
      TotalZero(ps, Within(to, from));
    }
  }

  /** A charge of the session that the two readings do not enclose. */
  lemma UncoveredCharge(t: State, k: Key, from: real, to: real, settle: real) returns (p: Posting)
    requires k in t.listed && !OwnCovered(t, k, from, to, settle)
    ensures Legal([p], t, settle) && p.key == k && p.amount == 1.0
    ensures !(from < p.time <= to)
  {
    var listed := t.listed[k];
    if k !in t.finished {
      p := Posting(k, Max(listed, to) + 1.0, 1.0);
    } else if t.finished[k] + settle > to {
      p := Posting(k, t.finished[k] + settle, 1.0);
    } else {
      p := Posting(k, Min(from, t.finished[k] + settle), 1.0);
    }
  }

  /** A charge of another session that falls between the two readings. */
  lemma ReachingCharge(t: State, o: Key, from: real, to: real, settle: real) returns (p: Posting)
    requires o in t.listed && !OutOfReach(t, o, from, to, settle)
    ensures Legal([p], t, settle) && p.key == o && p.amount == 1.0
    ensures Min(from, to) < p.time <= Max(from, to)
  {
    var hi := Max(from, to);
    p := Posting(o, if o in t.finished then Min(hi, t.finished[o] + settle) else hi, 1.0);
  }

  /** The difference of two readings is the true cost of a session under every legal history
      of charges, if and only if the readings enclose all that it can be charged, and nothing
      of any other can be posted between them. */
  lemma ExactIffApart(t: State, k: Key, from: real, to: real, settle: real)
    requires k in t.listed
    ensures Exact(t, k, from, to, settle) <==>
              && OwnCovered(t, k, from, to, settle)
              && forall o <- t.listed :: o != k ==> OutOfReach(t, o, from, to, settle)
  {
    if !OwnCovered(t, k, from, to, settle) {
      var p := UncoveredCharge(t, k, from, to, settle);
      ChargedOutside(p, k, from, to);
    } else if o :| o in t.listed && o != k && !OutOfReach(t, o, from, to, settle) {
      var p := ReachingCharge(t, o, from, to, settle);
      ChargedInside(p, k, from, to);
    } else {
      forall ps | Legal(ps, t, settle) ensures Counter(ps, to) - Counter(ps, from) == Cost(ps, k) {
        CoveredIsExact(t, k, from, to, settle, ps);
      }
    }
  }

  lemma ChargedOutside(p: Posting, k: Key, from: real, to: real)
    requires p.key == k && p.amount == 1.0 && !(from < p.time <= to)
    ensures Counter([p], to) - Counter([p], from) != Cost([p], k)
  {
    TotalOne(p, UpTo(to));
    TotalOne(p, UpTo(from));
    TotalOne(p, Of(k));
  }

  lemma ChargedInside(p: Posting, k: Key, from: real, to: real)
    requires p.key != k && p.amount == 1.0 && Min(from, to) < p.time <= Max(from, to)
    ensures Counter([p], to) - Counter([p], from) != Cost([p], k)
  {
    TotalOne(p, UpTo(to));
    TotalOne(p, UpTo(from));
    TotalOne(p, Of(k));
  }

  lemma {:induction false} RunListsStarted(s: State, steps: seq<Step>, w: Waits, t: State)
    requires Runs(s, steps, w, t)
    requires forall k <- s.sessions :: s.sessions[k].attempt.Some? ==> k in s.listed
    ensures forall k <- t.sessions :: t.sessions[k].attempt.Some? ==> k in t.listed
    decreases |steps|
  {
    if steps != [] {
      StepListsStarted(s, steps[0], w);
      RunListsStarted(Next(s, steps[0], w), steps[1..], w, t);
    }
  }

  lemma StepListsStarted(s: State, step: Step, w: Waits)
    requires Enabled(s, step)
    requires forall k <- s.sessions :: s.sessions[k].attempt.Some? ==> k in s.listed
    ensures var t := Next(s, step, w);
            forall k <- t.sessions :: t.sessions[k].attempt.Some? ==> k in t.listed
  {
    if !step.Advance? && !step.TakeStart? && !step.Publish? {
      assert NewRow(s, step, w).attempt == Row(s.sessions, step.key).attempt;
    }
  }

  /** Over every run, relaunches included: what is measured is exact for all legal charges if
      and only if the session's own window lies between its two readings, and the windows of
      all other sessions are out of their reach. */
  lemma ExactForAllCharges(s: State, steps: seq<Step>, w: Waits, t: State, k: Key)
    requires Start(s) && Runs(s, steps, w, t)
    requires k in t.sessions && IsMeasured(t.sessions[k])
    ensures t.sessions[k].before.Some? && t.sessions[k].final.value.after.Some? && k in t.listed
    ensures var from, to := From(t.sessions[k]), To(t.sessions[k]);
            Exact(t, k, from, to, w.settle) <==>
              && OwnCovered(t, k, from, to, w.settle)
              && forall o <- t.listed :: o != k ==> OutOfReach(t, o, from, to, w.settle)
  {
    RunKeepsInv(s, steps, w, t);
    RunListsStarted(s, steps, w, t);
    assert Sane(t.sessions[k], t.now, w.settle);
    ExactIffApart(t, k, From(t.sessions[k]), To(t.sessions[k]), w.settle);
  }

  /** Launched once, a session is always covered by its own readings, so that only others
      matter: those whose settle time ends after the before reading and is not empty. */
  lemma ExactWhenLaunchedOnce(s: State, steps: seq<Step>, w: Waits, t: State, k: Key)
    requires Start(s) && Runs(s, steps, w, t) && LaunchedOnce(s, steps, w) && w.settle >= 0.0
    requires k in t.sessions && IsMeasured(t.sessions[k])
    ensures t.sessions[k].before.Some? && t.sessions[k].final.value.after.Some?
    ensures var from, to := From(t.sessions[k]), To(t.sessions[k]);
            Exact(t, k, from, to, w.settle) <==>
              forall o <- t.listed :: o != k ==> OutOfReach(t, o, from, to, w.settle)
  {
    RunKeepsKept(s, steps, w, t);
    MeasuredIsAround(t, w, k);
    ExactForAllCharges(s, steps, w, t, k);
  }

  lemma TotalOne(p: Posting, f: Posting -> bool)
    ensures Total([p], f) == if f(p) then p.amount else 0.0
  {
    assert [p][1..] == [];
    assert Total([p][1..], f) == 0.0;
  }
}
