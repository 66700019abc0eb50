/** Posting a task over a link that may lose or delay requests and replies, to a server
    that keeps at most one row for a task id. */
module LossyPost {

  /** What the client sees: a created task, an HTTP error, an expired wait, another
      transport failure; and the answer of a confirming GET, which is negative also
      when the GET itself fails. */
  datatype Observation = Created(id: string) | HttpError(code: int) | Expired | Unreachable | Confirmed | Unconfirmed

  datatype Client = AwaitFirst | ConfirmFirst | AwaitRetry | ConfirmRetry(error: Observation)
                  | Returned(id: string) | Raised(error: Observation)
  {
    predicate Done() { Returned? || Raised? }
  }

  predicate Fits(c: Client, o: Observation) {
    match c
    case AwaitFirst => !o.Confirmed? && !o.Unconfirmed?
    case AwaitRetry => !o.Confirmed? && !o.Unconfirmed?
    case ConfirmFirst => o.Confirmed? || o.Unconfirmed?
    case ConfirmRetry(_) => o.Confirmed? || o.Unconfirmed?
    case _ => false
  }

  /** `_post_task_http`, observation by observation. */
  function React(c: Client, o: Observation, id: string): Client
    requires Fits(c, o)
  {
    match c
    case AwaitFirst =>
      if o.Created? then Returned(o.id) else if o.Expired? then ConfirmFirst else Raised(o)
    case ConfirmFirst =>
      if o.Confirmed? then Returned(id) else AwaitRetry
    case AwaitRetry =>
      if o.Created? then Returned(o.id)
      else if o.Expired? || o == HttpError(409) then ConfirmRetry(o)
      else Raised(o)
    case ConfirmRetry(error) =>
      if o.Confirmed? then Returned(id) else Raised(error)
  }

  // ---- all interleavings ------------------------------------------------------------

  /** The rows of the server, the POSTs sent by the client, and the replies the server
      has given to each of them. A reply may reach the client late, twice or never, and
      so may a request reach the server. */
  datatype World = World(client: Client, sent: nat, rows: multiset<string>, replies: set<(nat, Observation)>)

  datatype Step =
    | Serve(request: nat, refusal: Observation, refuse: bool)  // a request arrives
    | OtherCommit(id: string)                                  // another client's task
    | Observe(o: Observation)                                  // the client goes on

  const STARTED := World(AwaitFirst, 1, multiset{}, {})

  /** What the server makes of a request for `id`: a second row is refused with 409, and
      a first one is committed unless the server refuses it for its own reasons. */
  function Serves(w: World, id: string, step: Step): World
    requires step.Serve?
  {
    if w.rows[id] > 0 then w.(replies := w.replies + {(step.request, HttpError(409))})
    else if step.refuse then w.(replies := w.replies + {(step.request, step.refusal)})
    else w.(rows := w.rows + multiset{id}, replies := w.replies + {(step.request, Created(id))})
  }

  predicate Enabled(w: World, id: string, step: Step) {
    match step
    case Serve(request, refusal, _) => 1 <= request <= w.sent && refusal.HttpError?
    case OtherCommit(other) => w.rows[other] == 0
    case Observe(o) =>
      && Fits(w.client, o)
      && (o.Created? || o.HttpError? ==> (w.sent, o) in w.replies)
      && (o.Confirmed? ==> w.rows[id] > 0)
  }

  function Next(w: World, id: string, step: Step): World
    requires Enabled(w, id, step)
  {
    match step
    case Serve(_, _, _) => Serves(w, id, step)
    case OtherCommit(other) => w.(rows := w.rows + multiset{other})
    case Observe(o) =>
      var c := React(w.client, o, id);
      w.(client := c, sent := if c.AwaitRetry? then w.sent + 1 else w.sent)
  }

  ghost predicate Runs(w: World, id: string, steps: seq<Step>, v: World)
    decreases |steps|
  {
    if steps == [] then w == v
    else Enabled(w, id, steps[0]) && Runs(Next(w, id, steps[0]), id, steps[1..], v)
  }

  ghost predicate Inv(w: World, id: string) {
    && (forall x :: w.rows[x] <= 1)
    && w.sent == (if w.client.AwaitFirst? || w.client.ConfirmFirst? then 1 else if w.client.Done() then w.sent else 2)
    && 1 <= w.sent <= 2
    && (forall r <- w.replies :: r.1.Created? ==> r.1.id == id && w.rows[id] == 1)
    && (w.client.Returned? ==> w.client.id == id && w.rows[id] == 1)
    && (w.client.ConfirmRetry? ==> w.client.error == Expired || w.client.error == HttpError(409))
  }

  lemma StepKeepsInv(w: World, id: string, step: Step)
    requires Inv(w, id) && Enabled(w, id, step)
    ensures Inv(Next(w, id, step), id)
    ensures w.rows <= Next(w, id, step).rows
    ensures w.client.Done() ==> Next(w, id, step).client == w.client && Next(w, id, step).sent == w.sent
  {
  }

  lemma {:induction false} RunKeepsInv(w: World, id: string, steps: seq<Step>, v: World)
    requires Inv(w, id) && Runs(w, id, steps, v)
    ensures Inv(v, id) && w.rows <= v.rows
    ensures w.client.Done() ==> v.client == w.client && v.sent == w.sent
    decreases |steps|
  {
    if steps != [] {
      StepKeepsInv(w, id, steps[0]);
      RunKeepsInv(Next(w, id, steps[0]), id, steps[1..], v);
    }
  }

  /** Whatever is lost, delayed or repeated: at most two POSTs are sent, no id ever has two
      rows, and a returned id is the task's own and has exactly one row, then and for ever. */
  lemma ReturnedMeansOneRow(id: string, steps: seq<Step>, w: World, later: seq<Step>, v: World)
    requires Runs(STARTED, id, steps, w) && Runs(w, id, later, v)
    ensures w.sent <= 2 && forall x :: w.rows[x] <= 1
    ensures w.client.Returned? ==> w.client.id == id && w.rows[id] == 1 && v.rows[id] == 1 && v.client == w.client
  {
    RunKeepsInv(STARTED, id, steps, w);
    RunKeepsInv(w, id, later, v);
  }

  /** A call that has ended observes nothing more. */
  lemma {:induction false} DoneIsQuiet(w: World, id: string, steps: seq<Step>, v: World)
    requires w.client.Done() && Runs(w, id, steps, v)
    ensures v.client == w.client && v.sent == w.sent && forall step <- steps :: !step.Observe?
    decreases |steps|
  {
    if steps != [] {
      DoneIsQuiet(Next(w, id, steps[0]), id, steps[1..], v);
    }
  }

  lemma {:induction false} ConfirmingDecides(w: World, id: string, steps: seq<Step>, v: World)
    requires w.client.ConfirmRetry? && Runs(w, id, steps, v) && v.client.Done()
    ensures v.client == if Observe(Confirmed) in steps then Returned(id) else Raised(w.client.error)
    decreases |steps|
  {
    if steps != [] {
      var next := Next(w, id, steps[0]);
      assert steps == [steps[0]] + steps[1..];
      if steps[0].Observe? {
        DoneIsQuiet(next, id, steps[1..], v);
      } else {
        ConfirmingDecides(next, id, steps[1..], v);
      }
    }
  }

  /** A 409 on the retry proves nothing by itself: however the run goes on, the call returns
      if and only if the same id is confirmed afterwards, and then that id has exactly one
      row; otherwise it raises that 409. */
  lemma ConflictNeedsConfirmation(id: string, before: seq<Step>, w: World, after: seq<Step>, v: World)
    requires Runs(STARTED, id, before, w) && w.client.AwaitRetry?
    requires Enabled(w, id, Observe(HttpError(409))) && Runs(Next(w, id, Observe(HttpError(409))), id, after, v)
    requires v.client.Done()
    ensures v.client == if Observe(Confirmed) in after then Returned(id) else Raised(HttpError(409))
    ensures Observe(Confirmed) in after ==> v.rows[id] == 1
  {
    var conflict := Next(w, id, Observe(HttpError(409)));
    RunKeepsInv(STARTED, id, before, w);
    StepKeepsInv(w, id, Observe(HttpError(409)));
    RunKeepsInv(conflict, id, after, v);
    ConfirmingDecides(conflict, id, after, v);
  }

  lemma {:induction false} StillWaiting(w: World, id: string, steps: seq<Step>, v: World)
    requires Runs(w, id, steps, v) && v.client == AwaitFirst
    ensures w.client == AwaitFirst && v.sent == w.sent
    decreases |steps|
  {
    if steps != [] {
      StillWaiting(Next(w, id, steps[0]), id, steps[1..], v);
    }
  }

  /** A 409 on the first POST raises at once: it is not confirmed, and nothing is sent again. */
  lemma FirstConflictRaises(id: string, before: seq<Step>, w: World, after: seq<Step>, v: World)
    requires Runs(STARTED, id, before, w) && w.client.AwaitFirst?
    requires Enabled(w, id, Observe(HttpError(409))) && Runs(Next(w, id, Observe(HttpError(409))), id, after, v)
    ensures v.client == Raised(HttpError(409)) && v.sent == 1
  {
    StillWaiting(STARTED, id, before, w);
    DoneIsQuiet(Next(w, id, Observe(HttpError(409))), id, after, v);
  }

  /** The observations of a run, in order. */
  function Observed(steps: seq<Step>): seq<Observation> {
    if steps == [] then []
    else (if steps[0].Observe? then [steps[0].o] else []) + Observed(steps[1..])
  }

  /** Every way a call can end, by what it saw: a created task or a failure at once; a confirmed
      timeout, without a second POST; and after an unconfirmed one the retry, whose own timeout
      or conflict is again decided by a confirmation. */
  predicate Ends(final: Client, seen: seq<Observation>, id: string, sent: nat) {
    || (|seen| == 1 && seen[0].Created? && final == Returned(seen[0].id) && sent == 1)
    || (|seen| == 1 && (seen[0].HttpError? || seen[0].Unreachable?) && final == Raised(seen[0]) && sent == 1)
    || (seen == [Expired, Confirmed] && final == Returned(id) && sent == 1)
    || (|seen| >= 3 && seen[..2] == [Expired, Unconfirmed] && sent == 2 && EndsRetry(final, seen[2], seen[3..], id))
  }

  predicate EndsRetry(final: Client, o: Observation, rest: seq<Observation>, id: string) {
    if o.Created? then final == Returned(o.id) && rest == []
    else if o == Expired || o == HttpError(409) then
      (rest == [Confirmed] && final == Returned(id)) || (rest == [Unconfirmed] && final == Raised(o))
    else (o.HttpError? || o.Unreachable?) && final == Raised(o) && rest == []
  }

  /** What a call has seen by the time it is in a given state. */
  predicate Seen(c: Client, seen: seq<Observation>, id: string, sent: nat) {
    match c
    case AwaitFirst => seen == [] && sent == 1
    case ConfirmFirst => seen == [Expired] && sent == 1
    case AwaitRetry => seen == [Expired, Unconfirmed] && sent == 2
    case ConfirmRetry(e) => seen == [Expired, Unconfirmed, e] && (e == Expired || e == HttpError(409)) && sent == 2
    case _ => Ends(c, seen, id, sent)
  }

  lemma ObserveKeepsSeen(w: World, id: string, o: Observation, seen: seq<Observation>)
    requires Enabled(w, id, Observe(o)) && Seen(w.client, seen, id, w.sent)
    ensures Seen(Next(w, id, Observe(o)).client, seen + [o], id, Next(w, id, Observe(o)).sent)
  {
    var all := seen + [o];
    match w.client
    case AwaitFirst => assert all == [o];
    case ConfirmFirst => assert all == [Expired, o];
    case AwaitRetry => assert all[..2] == [Expired, Unconfirmed] && all[2] == o && all[3..] == [];
    case ConfirmRetry(e) => assert all[..2] == [Expired, Unconfirmed] && all[2] == e && all[3..] == [o];
  }

  lemma Regroup(seen: seq<Observation>, o: Observation, rest: seq<Observation>)
    ensures seen + ([o] + rest) == (seen + [o]) + rest
  {
  }

  lemma OtherKeepsSeen(w: World, id: string, step: Step)
    requires Enabled(w, id, step) && !step.Observe?
    ensures Next(w, id, step).client == w.client && Next(w, id, step).sent == w.sent
  {
  }

  lemma {:induction false} RunKeepsSeen(w: World, id: string, steps: seq<Step>, v: World, seen: seq<Observation>)
    requires Runs(w, id, steps, v) && Seen(w.client, seen, id, w.sent)
    ensures Seen(v.client, seen + Observed(steps), id, v.sent)
    decreases |steps|
  {
    if steps == [] {
      assert seen + [] == seen;
    } else if steps[0].Observe? {
      ObserveKeepsSeen(w, id, steps[0].o, seen);
      RunKeepsSeen(Next(w, id, steps[0]), id, steps[1..], v, seen + [steps[0].o]);
      Regroup(seen, steps[0].o, Observed(steps[1..]));
    } else {
      OtherKeepsSeen(w, id, steps[0]);
      RunKeepsSeen(Next(w, id, steps[0]), id, steps[1..], v, seen);
      assert [] + Observed(steps[1..]) == Observed(steps[1..]);
    }
  }

  /** Over every run, the observations decide the outcome and the number of POSTs. */
  lemma OutcomeByObservations(id: string, steps: seq<Step>, w: World)
    requires Runs(STARTED, id, steps, w) && w.client.Done()
    ensures Ends(w.client, Observed(steps), id, w.sent)
  {
    RunKeepsSeen(STARTED, id, steps, w, []);
    assert [] + Observed(steps) == Observed(steps);
  }

  /** Raising does not mean that there is no row: the first request may still arrive. */
  lemma RaisedMayLeaveRow(id: string) returns (steps: seq<Step>, w: World)
    ensures Runs(STARTED, id, steps, w)
    ensures w.client.Raised? && w.rows[id] == 1 && w.sent == 2
  {
    var s1, s2, s3, s4 := Observe(Expired), Observe(Unconfirmed), Observe(Expired), Observe(Unconfirmed);
    var arrives := Serve(1, HttpError(500), false);
    steps := [s1, s2, s3, s4, arrives];
    var w1 := Next(STARTED, id, s1);
    var w2 := Next(w1, id, s2);
    var w3 := Next(w2, id, s3);
    var w4 := Next(w3, id, s4);
    w := Next(w4, id, arrives);
    assert Runs(w, id, [], w);
    assert steps[1..] == [s2, s3, s4, arrives] && steps[1..][1..] == [s3, s4, arrives];
    assert steps[1..][1..][1..] == [s4, arrives] && steps[1..][1..][1..][1..] == [arrives];
    assert Runs(w4, id, [arrives], w);
    assert Runs(w3, id, [s4, arrives], w);
    assert Runs(w2, id, [s3, s4, arrives], w);
    assert Runs(w1, id, [s2, s3, s4, arrives], w);
  }

  /** The client makes at most four observations. */
  function Left(c: Client): nat {
    match c
    case AwaitFirst => 4
    case ConfirmFirst => 3
    case AwaitRetry => 2
    case ConfirmRetry(_) => 1
    case _ => 0
  }

  lemma EveryObservationAdvances(w: World, id: string, o: Observation)
    requires Enabled(w, id, Observe(o))
    ensures Left(Next(w, id, Observe(o)).client) < Left(w.client)
    ensures Left(w.client) == 1 ==> Next(w, id, Observe(o)).client.Done()
  {
  }

  // ---- the sequence of effects ------------------------------------------------------

  lemma {:induction false} RunsAppend(w: World, id: string, steps: seq<Step>, v: World, step: Step)
    requires Runs(w, id, steps, v) && Enabled(v, id, step)
    ensures Runs(w, id, steps + [step], Next(v, id, step))
    decreases |steps|
  {
    if steps == [] {
      assert [step][1..] == [];
      assert steps + [step] == [step];
      assert Runs(Next(v, id, step), id, [], Next(v, id, step));
    } else {
      assert (steps + [step])[1..] == steps[1..] + [step];
      RunsAppend(Next(w, id, steps[0]), id, steps[1..], v, step);
    }
  }

  /** The link to one server, for one task id. What has happened on it is a run of the
      protocol; the next POST is sent when the protocol awaits its reply. */
  class Link {
    const id: string
    var world: World
    var posts: nat
    ghost var steps: seq<Step>

    ghost predicate Valid()
      reads this
    {
      Runs(STARTED, id, steps, world) && posts <= world.sent <= posts + 1
    }

    constructor (id: string)
      ensures Valid() && this.id == id && world == STARTED && posts == 0
    {
      this.id, world, posts, steps := id, STARTED, 0, [];
    }

    method Take(step: Step)
      requires Valid() && Enabled(world, id, step)
      requires step.Observe? ==> posts == world.sent
      modifies this`world, this`steps
      ensures Valid() && world == Next(old(world), id, step) && steps == old(steps) + [step]
    {
      RunsAppend(STARTED, id, steps, world, step);
      world := Next(world, id, step);
      steps := steps + [step];
      RunKeepsInv(STARTED, id, steps, world);
    }

    /** Requests arrive, late and repeated ones too, and others commit tasks. */
    method Elapse()
      requires Valid()
      modifies this`world, this`steps
      ensures Valid() && world.client == old(world.client) && world.sent == old(world.sent)
    {
      var events: nat :| 0 <= events;
      for n := 0 to events
        invariant Valid() && world.client == old(world.client) && world.sent == old(world.sent)
      {
        var others: bool, refuse: bool := *, *;
        var request: nat, code: int, other: string := *, *, *;
        if others && world.rows[other] == 0 {
          Take(OtherCommit(other));
        } else if !others && 1 <= request <= world.sent {
          Take(Serve(request, HttpError(code), refuse));
        }
      }
    }

    /** One POST and what comes of it: a reply, an expired wait or another failure. */
    method Post() returns (o: Observation)
      requires Valid() && (world.client.AwaitFirst? || world.client.AwaitRetry?) && posts + 1 == world.sent
      modifies this
      ensures Valid() && posts == old(posts) + 1 == world.sent
      ensures Fits(old(world.client), o) && world.client == React(old(world.client), o, id)
      ensures o.Created? ==> o.id == id
    {
      posts := posts + 1;
      Elapse();
      o := *;
      if !Enabled(world, id, Observe(o)) {
        o := Unreachable;
      }
      RunKeepsInv(STARTED, id, steps, world);
      Take(Observe(o));
    }

    /** The confirming GET; a failure counts as no. */
    method Confirm() returns (yes: bool)
      requires Valid() && (world.client.ConfirmFirst? || world.client.ConfirmRetry?) && posts == world.sent
      modifies this`world, this`steps
      ensures Valid()
      ensures world.client == React(old(world.client), if yes then Confirmed else Unconfirmed, id)
      ensures world.sent == if world.client.AwaitRetry? then posts + 1 else posts
    {
      Elapse();
      yes := *;
      yes := yes && world.rows[id] > 0;
      Take(Observe(if yes then Confirmed else Unconfirmed));
    }
  }

  /** `_post_task_http`: in every environment what happens is a run of the protocol to its
      end, with its outcome and its POSTs, so that all that holds of runs holds of the call. */
  method PostTaskHttp(link: Link) returns (final: Client)
    requires link.Valid() && link.world == STARTED && link.posts == 0
    modifies link
    ensures Runs(STARTED, link.id, link.steps, link.world)
    ensures final.Done() && final == link.world.client && link.posts == link.world.sent <= 2
    ensures final.Returned? ==> final.id == link.id && link.world.rows[link.id] == 1
  {
    final := Exchange(link);
    RunKeepsInv(STARTED, link.id, link.steps, link.world);
  }

  /** The two POSTs with their confirmations. */
  method Exchange(link: Link) returns (final: Client)
    requires link.Valid() && link.world.client == AwaitFirst && link.posts == 0 && link.world.sent == 1
    modifies link
    ensures link.Valid() && final.Done() && final == link.world.client && link.posts == link.world.sent
  {
    var first := link.Post();
    if first.Created? {
      return Returned(first.id);
    }
    if !first.Expired? {
      return Raised(first);
    }
    var yes := link.Confirm();
    if yes {
      return Returned(link.id);
    }
    var retry := link.Post();
    if retry.Created? {
      return Returned(retry.id);
    }
    if retry.Expired? || retry == HttpError(409) {
      yes := link.Confirm();
      if yes {
        return Returned(link.id);
      }
    }
    return Raised(retry);
  }
}
