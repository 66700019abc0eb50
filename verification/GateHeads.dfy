/** Gate comments by head alone. The gate keeps one comment for each pull request and head;
    for a head it is one in all exactly when no two pull requests share it. */
module GateHeads {
  import opened Text
  import opened TextLines
  import opened Wrappers
  import opened ReviewComment
  import opened GateDecision
  import opened GateRuns
  import GateRecord

  /** The pull requests with their heads, as the forge may list them. */
  type Heads = set<(nat, string)>

  ghost predicate ListsFrom(steps: seq<Step>, heads: Heads) {
    forall step <- steps :: step.List? ==> (step.pr, step.sha) in heads
  }

  /** No two pull requests have the same commit as head. */
  ghost predicate HeadsDiffer(heads: Heads) {
    forall x, y :: x in heads && y in heads && IsSha(Lower(x.1)) && Lower(x.1) == Lower(y.1) ==> x.0 == y.0
  }

  /** No head has two gate comments, on whatever pull requests. */
  ghost predicate OneGateInAll(posts: seq<Posted>) {
    forall i, j ::
      (0 <= i < |posts| && 0 <= j < |posts| && posts[i].gate.Some? && posts[j].gate.Some?
       && Lower(posts[i].gate.value) == Lower(posts[j].gate.value)) ==> i == j
  }

  // ---- one comment when heads differ -----------------------------------------------------

  predicate PhaseListed(phase: Phase, heads: Heads) {
    match phase
    case Holding => true
    case Read(pr, sha, _) => (pr, sha) in heads
    case Testing(pr, sha, _) => (pr, sha) in heads && IsSha(Lower(sha))
  }

  predicate PostListed(post: Posted, heads: Heads) {
    post.gate.Some? ==> (post.comment.pr, post.gate.value) in heads && IsSha(Lower(post.gate.value))
  }

  ghost predicate Listed(s: State, heads: Heads) {
    (forall p <- s.phase :: PhaseListed(s.phase[p], heads)) && (forall post <- s.posts :: PostListed(post, heads))
  }

  lemma DecidedIsListed(posts: seq<Posted>, phase: Phase, sameRepo: bool, heads: Heads)
    requires phase.Read? && phase.seen <= |posts| && PhaseListed(phase, heads)
    ensures PhaseListed(Decided(posts, phase, sameRepo), heads)
  {
  }

  lemma StepKeepsListed(s: State, step: Step, heads: Heads)
    requires Listed(s, heads) && (step.List? ==> (step.pr, step.sha) in heads)
    ensures Listed(Next(s, step), heads)
  {
    match step
    case Decide(p, sameRepo) =>
      if p in s.phase && s.phase[p].Read? && s.phase[p].seen <= |s.posts| {
        DecidedIsListed(s.posts, s.phase[p], sameRepo, heads);
      }
    case Post(p, _, _, _, _, _, landed) =>
      if p in s.phase && s.phase[p].Testing? && landed {
        assert PostListed(GatePost(s.phase[p].pr, s.phase[p].sha, step), heads);
      }
    case _ =>
  }

  lemma {:induction false} RunKeepsListed(s: State, steps: seq<Step>, heads: Heads)
    requires Listed(s, heads) && ListsFrom(steps, heads)
    ensures Listed(Runs(s, steps), heads)
    decreases |steps|
  {
    if steps != [] {
      assert steps[0] in steps;
      assert forall step <- steps[1..] :: step in steps;
      StepKeepsListed(s, steps[0], heads);
      RunKeepsListed(Next(s, steps[0]), steps[1..], heads);
    }
  }

  lemma DifferentHeadsAreGatedOnce(heads: Heads, steps: seq<Step>)
    requires HeadsDiffer(heads) && ListsFrom(steps, heads)
    ensures OneGateInAll(Runs(INITIAL, steps).posts)
  {
    var posts := Runs(INITIAL, steps).posts;
    RunKeepsListed(INITIAL, steps, heads);
    forall i, j | 0 <= i < |posts| && 0 <= j < |posts| && posts[i].gate.Some? && posts[j].gate.Some?
                  && Lower(posts[i].gate.value) == Lower(posts[j].gate.value)
      ensures i == j
    {
      assert PostListed(posts[i], heads) && PostListed(posts[j], heads);
      OneGateComment(steps, i, j);
    }
  }

  // ---- two comments when two requests share a head -----------------------------------------

  /** A plain approval of a head. */
  function Approving(sha: string): Review {
    Review(true, "", [], None, Some(sha), "a", "b")
  }

  function ApprovalOn(pr: nat, sha: string): Comment {
    Comment(pr, "", 0, true, Join(BodyLines(Approving(sha))))
  }

  lemma ApprovingProse(sha: string)
    ensures Join(Prose(Approving(sha))) == VerdictLine(true) + ("\n" + "")
  {
    var lines := [VerdictLine(true), ""];
    assert Prose(Approving(sha)) == lines;
    assert lines[1..] == [""];
  }

  lemma VerdictCharacters()
    ensures '>' !in VerdictLine(true) && 'm' !in VerdictLine(true)
  {
  }

  lemma ReviewerCharacters(sha: string)
    ensures 'm' !in ReviewerLine(Approving(sha)) && ReviewerLine(Approving(sha)) == REVIEWER_MARK + "a | task: b"
  {
    assert REVIEWER_MARK + "a" + " | task: " + "b" == REVIEWER_MARK + "a | task: b";
  }

  lemma HeadLineCharacters(sha: string)
    requires IsSha(sha)
    ensures 'm' !in HeadLine(sha)
  {
    assert 'm' !in HEAD_MARK + " ";
  }

  lemma ApprovingIsMarkerFree(sha: string)
    ensures MarkerFree(Approving(sha))
  {
    ApprovingProse(sha);
    VerdictCharacters();
    assert HEAD_MARK[0] == '>';
    LacksCharacter(VerdictLine(true) + ("\n" + ""), HEAD_MARK, 0);
    ReviewerCharacters(sha);
    LacksCharacter("a | task: b", HEAD_MARK, 0);
    LacksMark("a | task: b");
  }

  lemma ApprovalIsNoGate(sha: string)
    requires IsSha(sha)
    ensures !GatesHead(Join(BodyLines(Approving(sha))), Lower(sha))
  {
    var r := Approving(sha);
    BodyShape(r);
    ApprovingProse(sha);
    VerdictCharacters();
    ReviewerCharacters(sha);
    HeadLineCharacters(sha);
    var body := Join(BodyLines(r));
    assert 'm' !in body;
    GateMarksHoldM();
    LacksCharacter(body, GateRecord.MARKER, 15);
    LacksCharacter(body, LEGACY_MARKER, 12);
  }

  lemma GateMarksHoldM()
    ensures |GateRecord.MARKER| > 15 && GateRecord.MARKER[15] == 'm'
    ensures |LEGACY_MARKER| > 12 && LEGACY_MARKER[12] == 'm'
  {
  }

  lemma LowerOfSha(sha: string)
    ensures IsSha(Lower(sha)) <==> IsSha(sha)
    ensures Lower(Lower(sha)) == Lower(sha)
  {
    if IsSha(Lower(sha)) {
      forall c <- sha ensures IsHex(c) {
        var i :| 0 <= i < |sha| && sha[i] == c;
        assert Lower(sha)[i] in Lower(sha);
      }
    }
    if IsSha(sha) {
      forall c <- Lower(sha) ensures IsHex(c) {
        var i :| 0 <= i < |sha| && Lower(sha)[i] == c;
        assert sha[i] in sha;
      }
    }
  }

  lemma ApprovalApproves(pr: nat, sha: string)
    requires IsSha(sha)
    ensures var c := ApprovalOn(pr, sha); c.IsReview() && ApprovesHead(c.body, Lower(sha)) && !GatesHead(c.body, Lower(sha))
  {
    LowerOfSha(sha);
    ApprovingIsMarkerFree(sha);
    ServerReviewApproves(Approving(sha), Lower(sha));
    BodyStartsWithVerdict(Approving(sha));
    ApprovalIsNoGate(sha);
  }

  predicate FreshApproval(c: Comment, sha: string) {
    && c.trusted && c.IsReview() && IsSha(Lower(sha))
    && ApprovesHead(c.body, Lower(sha)) && !GatesHead(c.body, Lower(sha))
  }

  /** A request with nothing but an approval of its head is to be tested. */
  lemma SingleApprovalAllows(sha: string, c: Comment)
    requires FreshApproval(c, sha)
    ensures Allowed(true, sha, [c])
  {
    assert [c][..0] == [];
    assert Trusted([]) == [] && Newest([]) == None;
    assert Trusted([c]) == [c];
    assert Newest([c]) == Some(c);
  }

  lemma {:induction false} RunsConcat(s: State, a: seq<Step>, b: seq<Step>)
    ensures Runs(s, a + b) == Runs(Runs(s, a), b)
    decreases |a|
  {
    if a == [] {
      assert a + b == b;
    } else {
      assert (a + b)[1..] == a[1..] + b;
      RunsConcat(Next(s, a[0]), a[1..], b);
    }
  }

  function Posting(p: nat): Step {
    Post(p, "", 0, "", "", 0, true)
  }

  /** One undisturbed pass over one request. */
  function Pass(pr: nat, sha: string): seq<Step> {
    [Start(0), List(0, pr, sha), Decide(0, true), Posting(0)]
  }

  lemma PassFreesLock(s: State, pr: nat, sha: string)
    requires s.lock == None && s.phase == map[] && Allowed(true, sha, On(s.posts, pr))
    ensures var t := Runs(s, Pass(pr, sha) + [Leave(0)]);
            t.posts == s.posts + [GatePost(pr, sha, Posting(0))] && t.lock == None && t.phase == map[]
  {
    FreePassPosts(s, 0, pr, sha, Posting(0));
    RunsConcat(s, Pass(pr, sha), [Leave(0)]);
    PassHoldsLock(s, pr, sha);
    LeavingFreesLock(Runs(s, Pass(pr, sha)));
  }

  lemma LeavingFreesLock(u: State)
    requires u.lock == Some(0) && u.phase.Keys == {0}
    ensures Runs(u, [Leave(0)]) == State(u.posts, None, map[])
  {
    var t := Next(u, Leave(0));
    assert t.phase.Keys == {};
    assert [Leave(0)][1..] == [];
    assert Runs(t, []) == t;
  }

  lemma PassHoldsLock(s: State, pr: nat, sha: string)
    requires s.lock == None && s.phase == map[]
    ensures var u := Runs(s, Pass(pr, sha)); u.lock == Some(0) && u.phase.Keys == {0}
  {
    RunFour(s, Start(0), List(0, pr, sha), Decide(0, true), Posting(0));
    var s1 := Next(s, Start(0));
    var s2 := Next(s1, List(0, pr, sha));
    KeepsHolder(s1, List(0, pr, sha));
    KeepsHolder(s2, Decide(0, true));
    KeepsHolder(Next(s2, Decide(0, true)), Posting(0));
  }

  lemma KeepsHolder(s: State, step: Step)
    requires s.phase.Keys == {0} && (step.List? || step.Decide? || step.Post?)
    ensures Next(s, step).lock == s.lock && Next(s, step).phase.Keys == {0}
  {
  }

  /** Both requests are approved, and then each is gated. */
  function BothGated(x: (nat, string), y: (nat, string)): seq<Step> {
    [Say(ApprovalOn(x.0, x.1)), Say(ApprovalOn(y.0, y.1))]
    + (Pass(x.0, x.1) + [Leave(0)])
    + (Pass(y.0, y.1) + [Leave(0)])
  }

  lemma OnTwo(a: Posted, b: Posted, pr: nat)
    ensures a.comment.pr == pr != b.comment.pr ==> On([a, b], pr) == [a.comment]
    ensures b.comment.pr == pr != a.comment.pr ==> On([a, b], pr) == [b.comment]
  {
    assert [a, b][..1] == [a] && [a][..0] == [];
    assert On([], pr) == [];
    assert On([a], pr) == if a.comment.pr == pr then [a.comment] else [];
  }

  lemma OnThree(a: Posted, b: Posted, c: Posted, pr: nat)
    requires c.comment.pr != pr
    ensures On([a, b] + [c], pr) == On([a, b], pr)
  {
    assert ([a, b] + [c])[..2] == [a, b];
  }

  /** Two pull requests with one head, whatever the case of its letters, get a gate comment
      each. */
  lemma SharedHeadIsGatedTwice(x: (nat, string), y: (nat, string))
    requires x.0 != y.0 && IsSha(Lower(x.1)) && Lower(x.1) == Lower(y.1)
    ensures var posts := Runs(INITIAL, BothGated(x, y)).posts;
            |posts| == 4 && posts[2].gate == Some(x.1) && posts[3].gate == Some(y.1)
  {
    LowerOfSha(x.1);
    LowerOfSha(y.1);
    ApprovalApproves(x.0, x.1);
    ApprovalApproves(y.0, y.1);
    var a, b := Posted(ApprovalOn(x.0, x.1), None), Posted(ApprovalOn(y.0, y.1), None);
    var says := [Say(a.comment), Say(b.comment)];
    var s := SayBoth(a, b);
    BothPasses(s, a, b, x.1, y.1);
    RunsConcat(INITIAL, says, Pass(x.0, x.1) + [Leave(0)]);
    RunsConcat(INITIAL, says + (Pass(x.0, x.1) + [Leave(0)]), Pass(y.0, y.1) + [Leave(0)]);
  }

  /** One pass over each of two requests that hold nothing but an approval. */
  lemma BothPasses(s: State, a: Posted, b: Posted, x: string, y: string)
    requires s == State([a, b], None, map[]) && a.comment.pr != b.comment.pr
    requires FreshApproval(a.comment, x) && FreshApproval(b.comment, y)
    ensures var posts := Runs(Runs(s, Pass(a.comment.pr, x) + [Leave(0)]), Pass(b.comment.pr, y) + [Leave(0)]).posts;
            |posts| == 4 && posts[2].gate == Some(x) && posts[3].gate == Some(y)
  {
    var p, q := a.comment.pr, b.comment.pr;
    OnTwo(a, b, p);
    SingleApprovalAllows(x, a.comment);
    PassFreesLock(s, p, x);
    OnTwo(a, b, q);
    OnThree(a, b, GatePost(p, x, Posting(0)), q);
    SingleApprovalAllows(y, b.comment);
    PassFreesLock(Runs(s, Pass(p, x) + [Leave(0)]), q, y);
  }

  lemma SayBoth(a: Posted, b: Posted) returns (s: State)
    requires a.gate == None && b.gate == None
    ensures s == Runs(INITIAL, [Say(a.comment), Say(b.comment)])
    ensures s == State([a, b], None, map[])
  {
    var says := [Say(a.comment), Say(b.comment)];
    assert says[1..] == [Say(b.comment)] && says[1..][1..] == [];
    assert Next(INITIAL, says[0]) == State([a], None, map[]);
    assert [a] + [b] == [a, b];
    s := State([a, b], None, map[]);
    assert Next(State([a], None, map[]), says[1]) == s;
    assert Runs(s, []) == s;
  }

  lemma BothGatedLists(x: (nat, string), y: (nat, string), heads: Heads)
    requires x in heads && y in heads
    ensures ListsFrom(BothGated(x, y), heads)
  {
    forall step <- BothGated(x, y) | step.List? ensures (step.pr, step.sha) in heads {
      assert step == List(0, x.0, x.1) || step == List(0, y.0, y.1);
      assert (x.0, x.1) == x && (y.0, y.1) == y;
    }
  }

  /** Over all runs a head gets at most one gate comment, on whatever pull requests, if and
      only if no two of the pull requests share a head. */
  lemma OneGateInAllIffHeadsDiffer(heads: Heads)
    ensures (forall steps :: ListsFrom(steps, heads) ==> OneGateInAll(Runs(INITIAL, steps).posts)) <==> HeadsDiffer(heads)
  {
    if HeadsDiffer(heads) {
      forall steps | ListsFrom(steps, heads) ensures OneGateInAll(Runs(INITIAL, steps).posts) {
        DifferentHeadsAreGatedOnce(heads, steps);
      }
    } else {
      var x, y :| x in heads && y in heads && IsSha(Lower(x.1)) && Lower(x.1) == Lower(y.1) && x.0 != y.0;
      SharedHeadIsGatedTwice(x, y);
      BothGatedLists(x, y, heads);
      assert !OneGateInAll(Runs(INITIAL, BothGated(x, y)).posts);
    }
  }
}
