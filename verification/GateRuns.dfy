/** Runs of the merge gate: processes that may start at any time, take a lock without
    waiting, test heads and post gate comments, and may crash anywhere; and a forge on
    which others comment all the while. */
module GateRuns {
  import opened Text
  import opened Wrappers
  import opened ReviewComment
  import opened GateDecision
  import GateRecord

  /** A comment on the forge; `gate` is the head for which the script posted it. */
  datatype Posted = Posted(comment: Comment, gate: Option<string>)

  /** What a process that holds the lock is doing. `Read` has listed the first `seen`
      comments of the forge; `Testing` has decided on them to test the head. */
  datatype Phase =
    | Holding
    | Read(pr: nat, sha: string, seen: nat)
    | Testing(pr: nat, sha: string, seen: nat)

  datatype State = State(posts: seq<Posted>, lock: Option<nat>, phase: map<nat, Phase>)

  datatype Step =
    | Start(p: nat)
    | List(p: nat, pr: nat, sha: string)
    | Decide(p: nat, sameRepo: bool)
    | Post(p: nat, created: string, id: int, main: string, summary: string, exitCode: int, landed: bool)
    | Skip(p: nat)
    | Leave(p: nat)
    | Say(comment: Comment)

  /** The comments on one pull request. */
  function On(posts: seq<Posted>, pr: nat): (r: seq<Comment>)
    ensures forall c :: c in r <==> exists p <- posts :: p.comment == c && c.pr == pr
  {
    if posts == [] then []
    else
      var front, last := posts[..|posts| - 1], posts[|posts| - 1];
      assert posts == front + [last];
      assert forall p :: p in posts <==> p in front || p == last;
      if last.comment.pr == pr then On(front, pr) + [last.comment] else On(front, pr)
  }

  function GatePost(pr: nat, sha: string, step: Step): Posted
    requires step.Post?
  {
    Posted(Comment(pr, step.created, step.id, true,
                   GateRecord.GateComment(sha, step.main, step.summary, step.exitCode)),
           Some(sha))
  }

  /** The decision on the comments that were listed. */
  function Decided(posts: seq<Posted>, phase: Phase, sameRepo: bool): Phase
    requires phase.Read? && phase.seen <= |posts|
  {
    if Allowed(sameRepo, phase.sha, On(posts[..phase.seen], phase.pr)) then Testing(phase.pr, phase.sha, phase.seen)
    else Holding
  }

  /** One step; a step that is not possible changes nothing. A process that finds the lock
      taken gives up. Posting ends one pull request whether or not the comment arrived, and
      leaving, by crash or at the end, gives the lock back. */
  function Next(s: State, step: Step): State
  {
    match step
    case Start(p) =>
      if s.lock == None && p !in s.phase then s.(lock := Some(p), phase := s.phase[p := Holding]) else s
    case List(p, pr, sha) =>
      if p in s.phase && s.phase[p].Holding? then s.(phase := s.phase[p := Read(pr, sha, |s.posts|)]) else s
    case Decide(p, sameRepo) =>
      if p in s.phase && s.phase[p].Read? && s.phase[p].seen <= |s.posts| then
        s.(phase := s.phase[p := Decided(s.posts, s.phase[p], sameRepo)])
      else s
    case Post(p, _, _, _, _, _, landed) =>
      if p in s.phase && s.phase[p].Testing? then
        s.(posts := s.posts + (if landed then [GatePost(s.phase[p].pr, s.phase[p].sha, step)] else []),
           phase := s.phase[p := Holding])
      else s
    case Skip(p) =>
      if p in s.phase then s.(phase := s.phase[p := Holding]) else s
    case Leave(p) =>
      if p in s.phase then s.(lock := if s.lock == Some(p) then None else s.lock, phase := s.phase - {p}) else s
    case Say(comment) =>
      s.(posts := s.posts + [Posted(comment, None)])
  }

  function Runs(s: State, steps: seq<Step>): State
    decreases |steps|
  {
    if steps == [] then s else Runs(Next(s, steps[0]), steps[1..])
  }

  const INITIAL := State([], None, map[])

  // ---- what every step keeps ------------------------------------------------------------------

  predicate IsGateFor(post: Posted, pr: nat, sha: string) {
    post.comment.pr == pr && post.gate.Some? && Lower(post.gate.value) == Lower(sha)
  }

  /** No pull request has two gate comments for a head. */
  ghost predicate OneGatePerHead(posts: seq<Posted>) {
    forall i, j :: 0 <= i < j < |posts| && posts[j].gate.Some? ==>
      !IsGateFor(posts[i], posts[j].comment.pr, posts[j].gate.value)
  }

  /** A script's gate comment is trusted and can be read back. */
  ghost predicate GatesReadable(posts: seq<Posted>) {
    forall p <- posts :: p.gate.Some? ==> p.comment.trusted && GatesHead(p.comment.body, Lower(p.gate.value))
  }

  /** Some trusted review among the first `n` comments approves the head on this request. */
  ghost predicate Approved(posts: seq<Posted>, n: nat, pr: nat, sha: string) {
    exists i :: 0 <= i < n && i < |posts| && Approval(posts[i].comment, pr, sha)
  }

  predicate Approval(c: Comment, pr: nat, sha: string) {
    c.pr == pr && c.trusted && c.IsReview() && ApprovesHead(c.body, Lower(sha))
  }

  /** Each gate comment comes after an approval of its head. */
  ghost predicate GatesBacked(posts: seq<Posted>) {
    forall i :: 0 <= i < |posts| && posts[i].gate.Some? ==>
      Approved(posts, i, posts[i].comment.pr, posts[i].gate.value)
  }

  ghost predicate NoGateIn(posts: seq<Posted>, start: nat) {
    forall i :: start <= i < |posts| ==> posts[i].gate == None
  }

  ghost predicate NoGateFor(posts: seq<Posted>, pr: nat, sha: string) {
    forall i :: 0 <= i < |posts| ==> !IsGateFor(posts[i], pr, sha)
  }

  /** What a process may rely on. */
  ghost predicate PhaseOk(posts: seq<Posted>, phase: Phase) {
    match phase
    case Holding => true
    case Read(pr, sha, seen) => seen <= |posts| && NoGateIn(posts, seen)
    case Testing(pr, sha, seen) =>
      seen <= |posts| && NoGateFor(posts, pr, sha) && Approved(posts, |posts|, pr, sha)
  }

  ghost predicate Locked(s: State) {
    forall p <- s.phase :: s.lock == Some(p)
  }

  ghost predicate PostsOk(posts: seq<Posted>) {
    OneGatePerHead(posts) && GatesReadable(posts) && GatesBacked(posts)
  }

  ghost predicate Inv(s: State) {
    Locked(s) && PostsOk(s.posts) && forall p <- s.phase :: PhaseOk(s.posts, s.phase[p])
  }

  /** A decision to test rests on comments that hold an approval and no gate record. */
  lemma {:induction false} DecisionIsSafe(posts: seq<Posted>, seen: nat, sameRepo: bool, pr: nat, sha: string)
    requires seen <= |posts| && GatesReadable(posts) && NoGateIn(posts, seen)
    requires Allowed(sameRepo, sha, On(posts[..seen], pr))
    ensures NoGateFor(posts, pr, sha) && Approved(posts, |posts|, pr, sha)
  {
    var comments := On(posts[..seen], pr);
    forall i | 0 <= i < seen && posts[i].comment.pr == pr && posts[i].comment.trusted
      ensures !GatesHead(posts[i].comment.body, Lower(sha))
    {
      assert posts[i] in posts[..seen];
      assert posts[i].comment in comments;
      assert posts[i].comment in Trusted(comments);
    }
    assert forall i :: 0 <= i < |posts| ==> posts[i] in posts;
    var latest := Newest(Trusted(comments)).value;
    assert latest in comments;
    var p :| p in posts[..seen] && p.comment == latest && latest.pr == pr;
    var i :| 0 <= i < seen && posts[i] == p;
    assert Approval(posts[i].comment, pr, sha);
  }

  /** Comments of others change nothing that matters. */
  lemma {:induction false} OtherComment(posts: seq<Posted>, comment: Comment)
    requires PostsOk(posts)
    ensures PostsOk(posts + [Posted(comment, None)])
  {
    var after := posts + [Posted(comment, None)];
    KeepBacking(posts, Posted(comment, None));
    assert forall p <- after :: p in posts || p.gate == None;
  }

  lemma {:induction false} KeepBacking(posts: seq<Posted>, post: Posted)
    requires GatesBacked(posts)
    ensures forall i :: 0 <= i < |posts| && posts[i].gate.Some? ==>
              Approved(posts + [post], i, posts[i].comment.pr, posts[i].gate.value)
  {
    forall i | 0 <= i < |posts| && posts[i].gate.Some?
      ensures Approved(posts + [post], i, posts[i].comment.pr, posts[i].gate.value)
    {
      KeepApproval(posts, post, i, posts[i].comment.pr, posts[i].gate.value);
    }
  }

  lemma {:induction false} KeepApproval(posts: seq<Posted>, post: Posted, n: nat, pr: nat, sha: string)
    requires Approved(posts, n, pr, sha)
    ensures Approved(posts + [post], n, pr, sha) && Approved(posts + [post], |posts|, pr, sha)
    ensures Approved(posts + [post], |posts| + 1, pr, sha)
  {
    var i :| 0 <= i < n && i < |posts| && Approval(posts[i].comment, pr, sha);
    assert (posts + [post])[i] == posts[i];
  }

  lemma {:induction false} PhaseAfterOther(posts: seq<Posted>, comment: Comment, phase: Phase)
    requires PhaseOk(posts, phase)
    ensures PhaseOk(posts + [Posted(comment, None)], phase)
  {
    if phase.Testing? {
      KeepApproval(posts, Posted(comment, None), |posts|, phase.pr, phase.sha);
    }
  }

  /** A gate comment lands where none was. */
  lemma {:induction false} GateLands(posts: seq<Posted>, post: Posted)
    requires PostsOk(posts) && post.gate.Some? && post.comment.trusted
    requires GatesHead(post.comment.body, Lower(post.gate.value))
    requires NoGateFor(posts, post.comment.pr, post.gate.value)
    requires Approved(posts, |posts|, post.comment.pr, post.gate.value)
    ensures PostsOk(posts + [post])
  {
    LandsBacked(posts, post);
    LandsOnce(posts, post);
    assert forall p <- posts + [post] :: p in posts || p == post;
  }

  lemma {:induction false} LandsBacked(posts: seq<Posted>, post: Posted)
    requires GatesBacked(posts) && post.gate.Some?
    requires Approved(posts, |posts|, post.comment.pr, post.gate.value)
    ensures GatesBacked(posts + [post])
  {
    KeepBacking(posts, post);
    KeepApproval(posts, post, |posts|, post.comment.pr, post.gate.value);
  }

  lemma LandsOnce(posts: seq<Posted>, post: Posted)
    requires OneGatePerHead(posts) && post.gate.Some?
    requires NoGateFor(posts, post.comment.pr, post.gate.value)
    ensures OneGatePerHead(posts + [post])
  {
  }

  lemma {:induction false} PostLands(s: State, p: nat, post: Posted)
    requires Inv(s) && p in s.phase && s.phase[p].Testing?
    requires post.comment.pr == s.phase[p].pr && post.gate == Some(s.phase[p].sha) && post.comment.trusted
    requires GatesHead(post.comment.body, Lower(s.phase[p].sha))
    ensures Inv(s.(posts := s.posts + [post], phase := s.phase[p := Holding]))
  {
    assert PhaseOk(s.posts, s.phase[p]);
    GateLands(s.posts, post);
    assert forall q <- s.phase :: q == p;
  }

  lemma {:induction false} PostKeepsInv(s: State, step: Step)
    requires Inv(s) && step.Post?
    ensures Inv(Next(s, step))
  {
    if step.p in s.phase && s.phase[step.p].Testing? {
      var Testing(pr, sha, seen) := s.phase[step.p];
      if step.landed {
        var post := GatePost(pr, sha, step);
        GateCommentIsFound(sha, step.main, step.summary, step.exitCode);
        PostLands(s, step.p, post);
      } else {
        assert s.posts + [] == s.posts;
      }
    }
  }

  lemma {:induction false} DecideKeepsInv(s: State, step: Step)
    requires Inv(s) && step.Decide?
    ensures Inv(Next(s, step))
  {
    if step.p in s.phase && s.phase[step.p].Read? && s.phase[step.p].seen <= |s.posts| {
      var Read(pr, sha, seen) := s.phase[step.p];
      assert PhaseOk(s.posts, s.phase[step.p]);
      if Allowed(step.sameRepo, sha, On(s.posts[..seen], pr)) {
        DecisionIsSafe(s.posts, seen, step.sameRepo, pr, sha);
      }
    }
  }

  lemma {:induction false} SayKeepsInv(s: State, comment: Comment)
    requires Inv(s)
    ensures Inv(Next(s, Say(comment)))
  {
    OtherComment(s.posts, comment);
    forall p <- s.phase ensures PhaseOk(s.posts + [Posted(comment, None)], s.phase[p]) {
      PhaseAfterOther(s.posts, comment, s.phase[p]);
    }
  }

  lemma {:induction false} StepKeepsInv(s: State, step: Step)
    requires Inv(s)
    ensures Inv(Next(s, step))
  {
    match step
    case Post(_, _, _, _, _, _, _) => PostKeepsInv(s, step);
    case Decide(_, _) => DecideKeepsInv(s, step);
    case Say(comment) => SayKeepsInv(s, comment);
    case _ =>
  }

  lemma {:induction false} RunKeepsInv(s: State, steps: seq<Step>)
    requires Inv(s)
    ensures Inv(Runs(s, steps))
    decreases |steps|
  {
    if steps != [] {
      StepKeepsInv(s, steps[0]);
      RunKeepsInv(Next(s, steps[0]), steps[1..]);
    }
  }

  /** Over every run, with any number of processes, crashes and lost posts, a pull request
      gets at most one gate comment for a head. */
  lemma OneGateComment(steps: seq<Step>, i: nat, j: nat)
    requires var posts := Runs(INITIAL, steps).posts;
             i < |posts| && j < |posts| && posts[j].gate.Some?
    requires var posts := Runs(INITIAL, steps).posts;
             IsGateFor(posts[i], posts[j].comment.pr, posts[j].gate.value)
    ensures i == j
  {
    RunKeepsInv(INITIAL, steps);
  }

  /** Over every run, a gate comment stands below a trusted review that approves exactly its
      head on the same pull request. */
  lemma GateFollowsApproval(steps: seq<Step>, i: nat)
    requires i < |Runs(INITIAL, steps).posts| && Runs(INITIAL, steps).posts[i].gate.Some?
    ensures var posts := Runs(INITIAL, steps).posts;
            exists k :: 0 <= k < i && Approval(posts[k].comment, posts[i].comment.pr, posts[i].gate.value)
  {
    RunKeepsInv(INITIAL, steps);
  }

  /** A gate comment stops every later test of its head on its pull request, also by another
      process, and whoever comments in between. */
  lemma {:induction false} GateStopsLaterTests(s: State, i: nat, seen: nat, sameRepo: bool, sha: string)
    requires Inv(s) && i < seen <= |s.posts| && s.posts[i].gate.Some?
    requires Lower(sha) == Lower(s.posts[i].gate.value)
    ensures !Allowed(sameRepo, sha, On(s.posts[..seen], s.posts[i].comment.pr))
  {
    var comments := On(s.posts[..seen], s.posts[i].comment.pr);
    assert s.posts[i] in s.posts[..seen] && s.posts[i] in s.posts;
    assert s.posts[i].comment in comments;
    assert s.posts[i].comment in Trusted(comments);
  }

  lemma FreePassReads(s: State, p: nat, pr: nat, sha: string)
    requires s.lock == None && p !in s.phase
    ensures var s2 := Next(Next(s, Start(p)), List(p, pr, sha));
            s2.posts == s.posts && p in s2.phase && s2.phase[p] == Read(pr, sha, |s.posts|)
  {
  }

  lemma {:induction false} ReadDecides(s: State, p: nat, pr: nat, sha: string)
    requires p in s.phase && s.phase[p] == Read(pr, sha, |s.posts|)
    requires Allowed(true, sha, On(s.posts, pr))
    ensures var s3 := Next(s, Decide(p, true));
            s3.posts == s.posts && p in s3.phase && s3.phase[p] == Testing(pr, sha, |s.posts|)
  {
    assert s.posts[..|s.posts|] == s.posts;
    assert Decided(s.posts, s.phase[p], true) == Testing(pr, sha, |s.posts|);
  }

  lemma TestingPosts(s: State, post: Step)
    requires post.Post? && post.landed && post.p in s.phase && s.phase[post.p].Testing?
    ensures Next(s, post).posts == s.posts + [GatePost(s.phase[post.p].pr, s.phase[post.p].sha, post)]
  {
  }

  /** From a state where nobody holds the lock, a head that is to be tested gets its gate
      comment by one undisturbed pass. */
  lemma {:induction false} FreePassPosts(s: State, p: nat, pr: nat, sha: string, post: Step)
    requires s.lock == None && p !in s.phase
    requires Allowed(true, sha, On(s.posts, pr))
    requires post.Post? && post.p == p && post.landed
    ensures Runs(s, [Start(p), List(p, pr, sha), Decide(p, true), post]).posts
         == s.posts + [GatePost(pr, sha, post)]
  {
    FreePassReads(s, p, pr, sha);
    var s2 := Next(Next(s, Start(p)), List(p, pr, sha));
    ReadDecides(s2, p, pr, sha);
    TestingPosts(Next(s2, Decide(p, true)), post);
    RunFour(s, Start(p), List(p, pr, sha), Decide(p, true), post);
  }

  lemma RunFour(s: State, a: Step, b: Step, c: Step, d: Step)
    ensures Runs(s, [a, b, c, d]) == Next(Next(Next(Next(s, a), b), c), d)
  {
    assert [a, b, c, d][1..] == [b, c, d] && [b, c, d][1..] == [c, d] && [c, d][1..] == [d] && [d][1..] == [];
    assert Runs(Next(Next(Next(s, a), b), c), [d]) == Next(Next(Next(Next(s, a), b), c), d);
    assert Runs(Next(Next(s, a), b), [c, d]) == Runs(Next(Next(Next(s, a), b), c), [d]);
    assert Runs(Next(s, a), [b, c, d]) == Runs(Next(Next(s, a), b), [c, d]);
  }
}
