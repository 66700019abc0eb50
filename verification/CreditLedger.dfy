/** Attribution of one global, cumulative cloud credit counter to cloud sessions. Each
    task may have a real session and a shadow session; both use the same recorder. */
module CreditLedger {
  import opened Wrappers

  datatype Key = Key(task: string, shadow: bool)

  /** A snapshot of the counter, with the time at which it was fetched. */
  datatype Reading = Reading(used: real, fetched: real)

  const CREDIT_MAX_AGE: real := 600.0

  /** The reader accepts a snapshot that is neither from the future nor too old. */
  function Usable(snapshot: Option<Reading>, now: real): Option<Reading> {
    match snapshot
    case Some(r) => if 0.0 <= now - r.fetched <= CREDIT_MAX_AGE && r.used >= 0.0 then snapshot else None
    case None => None
  }

  /** `Unset` is the status of a row that a new launch has taken back. */
  datatype Status = Measured | UnknownOverlap | UnknownNoFreshReading | UnknownCounterDecreased | NotLaunched | Unset

  /** A closed row, with the end that the closing call used. */
  datatype Final = Final(status: Status, usd: Option<real>, overlaps: set<Key>, after: Option<Reading>, end: real, at: real)

  /** The cost fields of one session in the context of its task. */
  datatype Session = Session(
    attempt: Option<real>,
    launched: Option<real>,
    ended: Option<real>,
    before: Option<Reading>,
    pendingAt: Option<real>,
    final: Option<Final>)
  {
    /** `attempt_started_at or launched_at` */
    function Began(): Option<real> { if IsSet(attempt) then attempt else launched }
  }

  /** A time field counts as set when it is present and not zero. */
  predicate IsSet(time: Option<real>) {
    time.Some? && time.value != 0.0
  }

  type Sessions = map<Key, Session>

  const BLANK := Session(None, None, None, None, None, None)

  /** The fields of a session, of which a task may so far have none. */
  function Row(sessions: Sessions, k: Key): Session {
    if k in sessions then sessions[k] else BLANK
  }

  datatype Waits = Waits(settle: real, freshWait: real)

  /** Credit of `other` may have been posted inside [started, windowEnd]. */
  predicate Overlaps(other: Session, started: real, windowEnd: real, settle: real) {
    && other.Began().Some?
    && other.Began().value <= windowEnd
    && (other.ended == None || other.ended.value + settle >= started)
  }

  function OverlapSet(sessions: Sessions, self: Key, started: real, windowEnd: real, settle: real): set<Key> {
    set k | k in sessions && k != self && Overlaps(sessions[k], started, windowEnd, settle)
  }

  function WindowEnd(settleEnd: real, after: Option<Reading>): real {
    if after.Some? && after.value.fetched > settleEnd then after.value.fetched else settleEnd
  }

  function CostStatus(before: Option<Reading>, after: Option<Reading>, overlaps: set<Key>,
                      started: Option<real>, settleEnd: real): Status {
    if overlaps != {} then UnknownOverlap
    else if before == None || after == None || started == None
            || before.value.fetched > started.value || after.value.fetched < settleEnd then UnknownNoFreshReading
    else if after.value.used < before.value.used then UnknownCounterDecreased
    else Measured
  }

  /** Only the after reading is stale, and a later tick may see a fresh one. */
  predicate AwaitFresh(status: Status, after: Option<Reading>, settleEnd: real, now: real, freshWait: real) {
    && status == UnknownNoFreshReading
    && !(after.Some? && after.value.fetched >= settleEnd)
    && now < settleEnd + freshWait
  }

  function Conclude(sessions: Sessions, k: Key, ended: real, after: Option<Reading>, now: real, w: Waits): Final
    requires k in sessions
  {
    var s, settleEnd := sessions[k], ended + w.settle;
    var overlaps := if s.Began() == None then {}
                    else OverlapSet(sessions, k, s.Began().value, WindowEnd(settleEnd, after), w.settle);
    var status := CostStatus(s.before, after, overlaps, s.Began(), settleEnd);
    Final(status, if status.Measured? then Some(after.value.used - s.before.value.used) else None, overlaps, after, ended, now)
  }

  /** One call of the cost recorder. The first opens the settle window; a later one
      closes the row when the window is over and no fresh reading is worth waiting for. */
  function AfterTick(sessions: Sessions, k: Key, snapshot: Option<Reading>, now: real, w: Waits): Session
    requires k in sessions
  {
    var s := sessions[k];
    var ended := if IsSet(s.ended) then s.ended.value else now;
    var settleEnd := ended + w.settle;
    var after := Usable(snapshot, now);
    if s.final.Some? then s
    else if !IsSet(s.pendingAt) then s.(ended := Some(ended), pendingAt := Some(now))
    else if now < settleEnd then s
    else
      var final := Conclude(sessions, k, ended, after, now, w);
      if AwaitFresh(final.status, after, settleEnd, now, w.freshWait) then s else s.(final := Some(final))
  }

  /** What a dispatch holds between taking its start time and putting it on the table. */
  datatype Stamp = Stamp(started: real, before: Option<Reading>)

  function TakeStamp(snapshot: Option<Reading>, now: real): Stamp {
    Stamp(now, Usable(snapshot, now))
  }

  /** A launch replaces start and before reading, and takes back an amount recorded earlier.
      Whatever else an earlier launch left stays. */
  function Launched(s: Session, stamp: Stamp): Session {
    s.(attempt := Some(stamp.started), before := stamp.before,
       final := if s.final.Some? then Some(s.final.value.(status := Unset, usd := None, after := None)) else None)
  }

  /** A dispatch that fails closed ends the session, whatever its state, and leaves its cost
      unknown. */
  function Closed(s: Session, now: real): Session {
    var status := if s.attempt.Some? then UnknownNoFreshReading else NotLaunched;
    s.(ended := Some(now), final := Some(Final(status, None, {}, None, now, now)))
  }
}
