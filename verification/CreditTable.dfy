/** The task table that dispatches and ticks write to. Whatever is done to it, its history is
    a run of the credit attribution, so that all that holds of runs holds of the table. */
module CreditTable {
  import opened Wrappers
  import opened CreditLedger
  import opened CreditRuns

  lemma {:induction false} RunsAppend(s: State, steps: seq<Step>, w: Waits, t: State, step: Step)
    requires Runs(s, steps, w, t) && Enabled(t, step)
    ensures Runs(s, steps + [step], w, Next(t, step, w))
    decreases |steps|
  {
    if steps == [] {
      assert [step][1..] == [] && steps + [step] == [step];
      assert Runs(Next(t, step, w), [], w, Next(t, step, w));
    } else {
      assert (steps + [step])[1..] == steps[1..] + [step];
      RunsAppend(Next(s, steps[0], w), steps[1..], w, t, step);
    }
  }

  class Ledger {
    const waits: Waits
    var now: real
    var tasks: seq<string>
    var sessions: Sessions

    // What dispatches hold, the two histories, and all that was done.
    ghost var stamps: map<Key, Stamp>
    ghost var listed: map<Key, real>
    ghost var finished: map<Key, real>
    ghost const origin: State
    ghost var steps: seq<Step>

    ghost function View(): State
      reads this
    {
      State(now, stamps, sessions, listed, finished)
    }

    predicate Indexed()
      reads this
    {
      forall k <- sessions :: k.task in tasks
    }

    ghost predicate Valid()
      reads this
    {
      Indexed() && Start(origin) && Runs(origin, steps, waits, View())
    }

    constructor (waits: Waits, now: real)
      requires now > 0.0
      ensures Valid() && this.waits == waits && View() == origin && this.now == now && steps == []
    {
      this.waits, this.now, tasks, sessions := waits, now, [], map[];
      stamps, listed, finished, steps := map[], map[], map[], [];
      origin := State(now, map[], map[], map[], map[]);
    }

    method Advance(later: real)
      requires Valid() && later >= now
      modifies this`now, this`steps
      ensures Valid() && steps == old(steps) + [Step.Advance(later)]
      ensures View() == Next(old(View()), Step.Advance(later), waits)
    {
      RunsAppend(origin, steps, waits, View(), Step.Advance(later));
      now := later;
      steps := steps + [Step.Advance(later)];
    }

    /** A dispatch reads the counter and takes the start time. */
    method StampLaunch(k: Key, snapshot: Option<Reading>) returns (stamp: Stamp)
      requires Valid()
      modifies this`stamps, this`steps
      ensures Valid() && steps == old(steps) + [TakeStart(k, snapshot)]
      ensures View() == Next(old(View()), TakeStart(k, snapshot), waits)
      ensures k in stamps && stamps[k] == stamp && stamp.started == now
    {
      RunsAppend(origin, steps, waits, View(), TakeStart(k, snapshot));
      var before := Usable(snapshot, now);
      stamp := Stamp(now, before);
      stamps := stamps[k := stamp];
      steps := steps + [TakeStart(k, snapshot)];
    }

    method Index(k: Key)
      requires Indexed()
      modifies this`tasks
      ensures Indexed() && k.task in tasks
    {
      if k.task !in tasks {
        tasks := tasks + [k.task];
      }
    }

    /** The start comes on the table, where every scan sees it from here on. */
    method PublishLaunch(k: Key, stamp: Stamp)
      requires Valid() && k in stamps && stamps[k] == stamp
      modifies this
      ensures Valid() && steps == old(steps) + [Publish(k)]
      ensures View() == Next(old(View()), Publish(k), waits)
    {
      RunsAppend(origin, steps, waits, View(), Publish(k));
      Index(k);
      sessions := sessions[k := Launched(Row(sessions, k), stamp)];
      stamps, listed, finished := stamps - {k}, Note(listed, k, true, now), finished - {k};
      steps := steps + [Publish(k)];
    }

    method MarkLaunched(k: Key)
      requires Valid() && k in sessions && sessions[k].attempt.Some?
      modifies this`sessions, this`steps
      ensures Valid() && steps == old(steps) + [Step.MarkLaunched(k)]
      ensures View() == Next(old(View()), Step.MarkLaunched(k), waits)
    {
      RunsAppend(origin, steps, waits, View(), Step.MarkLaunched(k));
      sessions := sessions[k := sessions[k].(launched := Some(now))];
      steps := steps + [Step.MarkLaunched(k)];
    }

    method MarkEnded(k: Key)
      requires Valid() && k in sessions
      modifies this`sessions, this`finished, this`steps
      ensures Valid() && steps == old(steps) + [Step.MarkEnded(k)]
      ensures View() == Next(old(View()), Step.MarkEnded(k), waits)
    {
      RunsAppend(origin, steps, waits, View(), Step.MarkEnded(k));
      sessions := sessions[k := sessions[k].(ended := Some(now))];
      finished := Note(finished, k, true, now);
      steps := steps + [Step.MarkEnded(k)];
    }

    method FailClosed(k: Key)
      requires Valid()
      modifies this
      ensures Valid() && steps == old(steps) + [Step.FailClosed(k)]
      ensures View() == Next(old(View()), Step.FailClosed(k), waits)
    {
      RunsAppend(origin, steps, waits, View(), Step.FailClosed(k));
      Index(k);
      sessions := sessions[k := Closed(Row(sessions, k), now)];
      finished := Note(finished, k, true, now);
      steps := steps + [Step.FailClosed(k)];
    }

    /** `_record_reconciled_cloud_cost` and `_record_shadow_review_cost` */
    method RecordCost(k: Key, snapshot: Option<Reading>)
      requires Valid() && k in sessions
      modifies this`sessions, this`finished, this`steps
      ensures Valid() && steps == old(steps) + [Step.RecordCost(k, snapshot)]
      ensures View() == Next(old(View()), Step.RecordCost(k, snapshot), waits)
      ensures sessions == old(sessions)[k := AfterTick(old(sessions), k, snapshot, now, waits)]
    {
      RunsAppend(origin, steps, waits, View(), Step.RecordCost(k, snapshot));
      ghost var ended := sessions[k].ended;
      UpdateCost(k, snapshot);
      finished := Note(finished, k, sessions[k].ended != ended, now);
      steps := steps + [Step.RecordCost(k, snapshot)];
    }

    method UpdateCost(k: Key, snapshot: Option<Reading>)
      requires Indexed() && k in sessions
      modifies this`sessions
      ensures Indexed() && sessions == old(sessions)[k := AfterTick(old(sessions), k, snapshot, now, waits)]
    {
      var s := sessions[k];
      if s.final.Some? {
        return;
      }
      var ended := if IsSet(s.ended) then s.ended.value else now;
      if !IsSet(s.pendingAt) {
        sessions := sessions[k := s.(ended := Some(ended), pendingAt := Some(now))];
        return;
      }
      var settleEnd := ended + waits.settle;
      if now < settleEnd {
        return;
      }
      var after := Usable(snapshot, now);
      var overlaps := {};
      if s.Began().Some? {
        overlaps := CloudCostOverlaps(k, s.Began().value, WindowEnd(settleEnd, after));
      }
      var status := CostStatus(s.before, after, overlaps, s.Began(), settleEnd);
      if AwaitFresh(status, after, settleEnd, now, waits.freshWait) {
        return;
      }
      var usd := if status.Measured? then Some(after.value.used - s.before.value.used) else None;
      sessions := sessions[k := s.(final := Some(Final(status, usd, overlaps, after, ended, now)))];
    }

    /** The scan over all tasks, both sessions of each. */
    method CloudCostOverlaps(self: Key, started: real, windowEnd: real) returns (overlaps: set<Key>)
      requires Indexed()
      ensures overlaps == OverlapSet(sessions, self, started, windowEnd, waits.settle)
    {
      overlaps := {};
      for i := 0 to |tasks|
        invariant overlaps == set k <- OverlapSet(sessions, self, started, windowEnd, waits.settle) | k.task in tasks[..i]
      {
        ghost var sofar := overlaps;
        for j := 0 to 2
          invariant overlaps == sofar + set k <- OverlapSet(sessions, self, started, windowEnd, waits.settle)
                                        | k.task == tasks[i] && (k.shadow ==> j > 1) && j > 0
        {
          var k := Key(tasks[i], j == 1);
          if k != self && k in sessions && Overlaps(sessions[k], started, windowEnd, waits.settle) {
            overlaps := overlaps + {k};
          }
        }
      }
    }

    /** Whatever was done to the table, the measured sessions on it have disjoint windows. */
    lemma MeasuredRowsAreDisjoint(k: Key, o: Key)
      requires Valid() && k in sessions && o in sessions && k != o
      requires IsMeasured(sessions[k]) && IsMeasured(sessions[o])
      ensures sessions[k].attempt.Some? && sessions[o].attempt.Some?
      ensures DisjointWindows(sessions[k], sessions[o], waits.settle)
    {
      MeasuredWindowsAreDisjoint(origin, steps, waits, View(), k, o);
    }
  }
}
