/** Submitting a cloud session: up to three runs of the command line for a resume, up to
    three for a fresh start, and one deadline for all of them. Every run keeps the
    timeout it is given; how long it takes and what it yields is left open. */
module LaunchBudget {
  import opened Wrappers

  const TOTAL_BUDGET: real := 120.0
  const ATTEMPTS: nat := 3

  /** A finished process, read by its exit code and its output. */
  datatype Process = Created(session: string) | Prompts | Refused

  datatype Ran = Exited(process: Process) | TimedOutPrompting | TimedOut(recovered: Option<string>) | NotStarted

  datatype Kind = Timeout | ConfigError | AgentFailed
  datatype Launch = Launched(session: string) | Failed(kind: Kind, interactive: bool)

  datatype TimeoutRecord = TimeoutRecord(attempt: nat, resuming: bool, recovered: Option<string>)

  function Min(x: real, y: real): real { if x <= y then x else y }
  function Max(x: real, y: real): real { if x <= y then y else x }

  /** 0.5 * 2^attempt seconds */
  function Backoff(attempt: nat): real {
    if attempt == 0 then 0.5 else 2.0 * Backoff(attempt - 1)
  }

  lemma BackoffIsPositive(attempt: nat)
    ensures Backoff(attempt) > 0.0
  {
  }

  /** What a finished process means for the launch. */
  function OfProcess(p: Process): Launch {
    match p
    case Created(id) => Launched(id)
    case Prompts => Failed(ConfigError, true)
    case Refused => Failed(AgentFailed, false)
  }

  /** One submission: when it began, how long it might take, and how it ended. */
  datatype RunRecord = RunRecord(start: real, limit: real, ran: Ran)

  /** What a launch makes of its submissions: all but the last are timeouts without a session,
      and the last one decides. */
  predicate Decides(runs: seq<RunRecord>, launch: Launch, outOfTime: bool) {
    if runs == [] then launch == Failed(Timeout, false) && outOfTime
    else
      && (forall i :: 0 <= i < |runs| - 1 ==> runs[i].ran == TimedOut(None))
      && match runs[|runs| - 1].ran
         case Exited(Created(id)) => launch == Launched(id)
         case Exited(Prompts) => launch == Failed(ConfigError, true)
         case Exited(Refused) => launch == Failed(AgentFailed, false)
         case NotStarted => launch == Failed(AgentFailed, false)
         case TimedOutPrompting => launch == Failed(ConfigError, true)
         case TimedOut(Some(id)) => launch == Launched(id)
         case TimedOut(None) => launch == Failed(Timeout, false) && (|runs| == 3 || outOfTime)
  }

  /** Half a second after the first timeout, one second after the second; less only when the
      budget ends. */
  predicate Waits(slept: seq<real>, outOfTime: bool) {
    && |slept| <= 2
    && forall i :: 0 <= i < |slept| ==>
         var full := if i == 0 then 0.5 else 1.0;
         slept[i] == full || (i == |slept| - 1 && outOfTime && 0.0 <= slept[i] <= full)
  }

  /** A record for each run that timed out plainly, numbered from `n` + 1 on. */
  predicate Recorded(records: seq<TimeoutRecord>, n: nat, runs: seq<RunRecord>, resuming: bool) {
    && |records| == (if runs != [] && !runs[|runs| - 1].ran.TimedOut? then |runs| - 1 else |runs|)
    && forall i :: 0 <= i < |records| ==>
         runs[i].ran.TimedOut? && records[i] == TimeoutRecord(n + i + 1, resuming, runs[i].ran.recovered)
  }

  lemma RecordedAdd(records: seq<TimeoutRecord>, n: nat, runs: seq<RunRecord>, resuming: bool, run: RunRecord)
    requires Recorded(records, n, runs, resuming) && |records| == |runs|
    ensures !run.ran.TimedOut? ==> Recorded(records, n, runs + [run], resuming)
    ensures run.ran.TimedOut? ==>
              Recorded(records + [TimeoutRecord(n + |runs| + 1, resuming, run.ran.recovered)], n, runs + [run], resuming)
  {
  }

  lemma StillRecorded(timeouts: seq<TimeoutRecord>, t: nat, runs: seq<RunRecord>, r: nat, resuming: bool, run: RunRecord)
    requires t <= |timeouts| && r <= |runs| && |timeouts| - t == |runs| - r
    requires Recorded(timeouts[t..], t, runs[r..], resuming)
    ensures !run.ran.TimedOut? ==> Recorded(timeouts[t..], t, (runs + [run])[r..], resuming)
    ensures run.ran.TimedOut? ==>
              Recorded((timeouts + [TimeoutRecord(|timeouts| + 1, resuming, run.ran.recovered)])[t..], t, (runs + [run])[r..], resuming)
  {
    RecordedAdd(timeouts[t..], t, runs[r..], resuming, run);
    SliceAdd(runs, run, r);
    if run.ran.TimedOut? {
      SliceAdd(timeouts, TimeoutRecord(|timeouts| + 1, resuming, run.ran.recovered), t);
    }
  }

  lemma SliceAdd<T>(s: seq<T>, x: T, k: nat)
    requires k <= |s|
    ensures (s + [x])[k..] == s[k..] + [x]
  {
  }

  predicate InLimits(run: RunRecord, submitTimeout: real, deadline: real) {
    0.0 < run.limit <= submitTimeout && (run.limit == submitTimeout || run.start + run.limit == deadline)
  }

  lemma BackoffSeconds()
    ensures Backoff(0) == 0.5 && Backoff(1) == 1.0
  {
  }

  class Submitter {
    const submitTimeout: real
    const deadline: real
    var now: real
    var runs: seq<RunRecord>
    var slept: seq<real>
    var timeouts: seq<TimeoutRecord>

    ghost predicate Valid()
      reads this
    {
      && submitTimeout > 0.0
      && now <= deadline
      && |timeouts| <= |runs|
      && (forall i :: 0 <= i < |timeouts| ==> timeouts[i].attempt == i + 1)
      && (forall i :: 0 <= i < |runs| ==> InLimits(runs[i], submitTimeout, deadline))
    }

    constructor (submitTimeout: real, now: real)
      requires submitTimeout > 0.0
      ensures Valid() && deadline == now + 120.0 && this.now == now && this.submitTimeout == submitTimeout
      ensures runs == [] && slept == [] && timeouts == []
    {
      this.submitTimeout, this.deadline := submitTimeout, now + TOTAL_BUDGET;
      this.now, runs, slept, timeouts := now, [], [], [];
    }

    /** One run of the command line. */
    method Run(limit: real) returns (ran: Ran)
      requires limit > 0.0
      modifies this`now, this`runs
      ensures old(now) <= now <= old(now) + limit
      ensures runs == old(runs) + [RunRecord(old(now), limit, ran)]
    {
      var elapsed: real :| 0.0 <= elapsed <= limit;
      ran := *;
      runs := runs + [RunRecord(now, limit, ran)];
      now := now + elapsed;
    }

    method Sleep(seconds: real)
      requires seconds >= 0.0
      modifies this`now, this`slept
      ensures now == old(now) + seconds && slept == old(slept) + [seconds]
    {
      now := now + seconds;
      slept := slept + [seconds];
    }

    /** One run, and the record of a plain timeout. */
    method RunAndRecord(resuming: bool, limit: real) returns (ran: Ran)
      requires Valid() && InLimits(RunRecord(now, limit, NotStarted), submitTimeout, deadline)
      requires now + limit <= deadline
      modifies this`now, this`runs, this`timeouts
      ensures Valid() && old(now) <= now
      ensures runs == old(runs) + [RunRecord(old(now), limit, ran)]
      ensures timeouts == if ran.TimedOut? then old(timeouts) + [TimeoutRecord(|old(timeouts)| + 1, resuming, ran.recovered)]
                          else old(timeouts)
    {
      ran := Run(limit);
      if ran.TimedOut? {
        timeouts := timeouts + [TimeoutRecord(|timeouts| + 1, resuming, ran.recovered)];
      }
    }

    /** The same, in a series of submissions whose timeouts are all recorded. */
    method Submit(resuming: bool, limit: real, ghost t: nat, ghost r: nat) returns (ran: Ran)
      requires Valid() && InLimits(RunRecord(now, limit, NotStarted), submitTimeout, deadline)
      requires now + limit <= deadline && t <= |timeouts| && r <= |runs| && |timeouts| - t == |runs| - r
      requires Recorded(timeouts[t..], t, runs[r..], resuming)
      modifies this`now, this`runs, this`timeouts
      ensures Valid() && old(now) <= now
      ensures runs == old(runs) + [RunRecord(old(now), limit, ran)]
      ensures old(timeouts) <= timeouts && |timeouts| == |old(timeouts)| + (if ran.TimedOut? then 1 else 0)
      ensures Recorded(timeouts[t..], t, runs[r..], resuming)
    {
      ran := RunAndRecord(resuming, limit);
      StillRecorded(old(timeouts), t, old(runs), r, resuming, RunRecord(old(now), limit, ran));
    }

    /** The wait after a timeout. */
    method Pause(attempt: nat, ghost z: nat)
      requires now < deadline && attempt < 2 && |slept| == z + attempt && Waits(slept[z..], false)
      modifies this`now, this`slept
      ensures old(now) <= now <= deadline && |slept| == |old(slept)| + 1 && old(slept) <= slept
      ensures Waits(slept[z..], now == deadline) && (now < deadline ==> Waits(slept[z..], false))
    {
      BackoffSeconds();
      Sleep(Min(Backoff(attempt), Max(0.0, deadline - now)));
      assert slept[z..] == old(slept)[z..] + [slept[|slept| - 1]];
    }

    /** `launch_once`: it never passes the deadline, makes at most three runs within their
        limits, waits between them, records every plain timeout under the next number, and the
        runs decide what it returns. */
    method LaunchOnce(resuming: bool) returns (launch: Launch)
      requires Valid()
      modifies this`now, this`runs, this`slept, this`timeouts
      ensures Valid() && now >= old(now)
      ensures old(runs) <= runs && |runs| <= |old(runs)| + 3
      ensures Decides(runs[|old(runs)|..], launch, now == deadline)
      ensures old(slept) <= slept && Waits(slept[|old(slept)|..], now == deadline)
      ensures old(timeouts) <= timeouts && Recorded(timeouts[|old(timeouts)|..], |old(timeouts)|, runs[|old(runs)|..], resuming)
      ensures old(now) < deadline ==> |runs| > |old(runs)|
    {
      var proc: Option<Process> := None;
      ghost var r, z, t := |runs|, |slept|, |timeouts|;
      for attempt := 0 to ATTEMPTS
        invariant Valid() && now >= old(now) && attempt < 3 && (attempt == 0 ==> now == old(now))
        invariant old(runs) <= runs && |runs| == r + attempt
        invariant forall i :: r <= i < |runs| ==> runs[i].ran == TimedOut(None)
        invariant old(timeouts) <= timeouts && |timeouts| == t + attempt
        invariant Recorded(timeouts[t..], t, runs[r..], resuming)
        invariant old(slept) <= slept && |slept| == z + attempt
        invariant Waits(slept[z..], now == deadline) && (now < deadline ==> Waits(slept[z..], false))
      {
        var remaining := deadline - now;
        if remaining <= 0.0 {
          return Failed(Timeout, false);
        }
        var ran := Submit(resuming, Min(submitTimeout, remaining), t, r);
        match ran {
          case Exited(process) =>
            proc := Some(process);
            break;
          case NotStarted => return Failed(AgentFailed, false);
          case TimedOutPrompting => return Failed(ConfigError, true);
          case TimedOut(recovered) =>
            if recovered.Some? {
              return Launched(recovered.value);
            }
            if attempt == ATTEMPTS - 1 || deadline - now <= 0.0 {
              return Failed(Timeout, false);
            }
            Pause(attempt, z);
        }
      }
      assert proc.Some?;
      return OfProcess(proc.value);
    }

    /** The resume attempt and, unless it timed out or met a prompt, the fresh start that
        follows its failure share one deadline and make at most six submissions. */
    method Dispatch(resumes: bool) returns (launch: Launch, resumeError: Option<Launch>)
      requires Valid() && runs == [] && slept == [] && timeouts == [] && now < deadline
      modifies this`now, this`runs, this`slept, this`timeouts
      ensures Valid() && old(now) <= now <= deadline
      ensures 1 <= |runs| <= 6 && (resumeError == None ==> |runs| <= 3)
      ensures resumeError == None ==> Decides(runs, launch, now == deadline)
      ensures resumeError == None ==>
                !(resumes && launch.Failed? && launch.kind != Timeout && !launch.interactive)
      ensures resumeError.Some? ==> resumes && resumeError.value == Failed(AgentFailed, false)
      ensures resumeError.Some? ==>
                exists n :: 1 <= n <= 3 && n <= |runs|
                            && (exists late: bool :: Decides(runs[..n], resumeError.value, late))
                            && Decides(runs[n..], launch, now == deadline)
      ensures forall i :: 0 <= i < |timeouts| ==> timeouts[i].attempt == i + 1 && (timeouts[i].resuming ==> resumes)
    {
      resumeError := None;
      launch := LaunchOnce(resumes);
      assert runs[0..] == runs;
      if launch.Failed? && resumes && launch.kind != Timeout && !launch.interactive {
        resumeError := Some(launch);
        ghost var first, late := runs, now == deadline;
        launch := LaunchOnce(false);
        assert runs[..|first|] == first;
        assert Decides(runs[..|first|], resumeError.value, late);
      }
    }
  }
}
