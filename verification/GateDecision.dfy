/** The decision of the merge gate: which pull request heads are tested. */
module GateDecision {
  import opened Text
  import opened TextLines
  import opened Wrappers
  import opened ReviewComment
  import GateRecord

  /** A comment of the forge; `pr` is the pull request it stands on. */
  datatype Comment = Comment(pr: nat, created: string, id: int, trusted: bool, body: string) {

    predicate IsReview() {
      REVIEW <= body
    }

    /** Sort order: time stamp, then id. */
    predicate KeyLeq(other: Comment) {
      if created == other.created then id <= other.id else TextLeq(created, other.created)
    }
  }

  const LEGACY_MARKER := "Coordinator merge gate:"

  /** A record, of this script or of a coordinator, that the head has been gated. */
  predicate GatesHead(body: string, head: string) {
    (Contains(body, GateRecord.MARKER) || Contains(body, LEGACY_MARKER)) && Contains(Lower(body), head)
  }

  /** The first line of a review as the pattern reads it. */
  predicate IsApproval(line: string) {
    REVIEW <= line &&
    var verdict := Strip(line[|REVIEW|..]);
    verdict == "approve" || (verdict != "" && verdict[0] == '\U{2705}' && Strip(verdict[1..]) == "approve")
  }

  predicate Approves(body: string) {
    body != "" && IsApproval(SplitLines(body)[0])
  }

  // ---- what the decision means --------------------------------------------------------------

  function Trusted(comments: seq<Comment>): (r: seq<Comment>)
    ensures forall c :: c in r <==> c in comments && c.trusted
  {
    if comments == [] then []
    else
      var front, last := comments[..|comments| - 1], comments[|comments| - 1];
      assert comments == front + [last];
      if last.trusted then Trusted(front) + [last] else Trusted(front)
  }

  /** The latest review; of two with the same key, the one listed later. */
  function Newest(comments: seq<Comment>): (r: Option<Comment>)
    ensures r == None <==> forall c <- comments :: !c.IsReview()
    ensures r.Some? ==> r.value in comments && r.value.IsReview()
  {
    if comments == [] then None
    else
      var last, best := comments[|comments| - 1], Newest(comments[..|comments| - 1]);
      assert comments == comments[..|comments| - 1] + [last];
      if last.IsReview() && (best == None || best.value.KeyLeq(last)) then Some(last) else best
  }

  predicate Gated(comments: seq<Comment>, head: string) {
    exists c <- comments :: GatesHead(c.body, head)
  }

  predicate ApprovesHead(body: string, head: string) {
    Approves(body) && ReviewedHead(body) == head
  }

  /** The head is tested: the latest trusted review approves this very head, and no trusted
      comment records a gate for it. */
  predicate Allowed(sameRepo: bool, sha: string, comments: seq<Comment>) {
    && sameRepo
    && IsSha(Lower(sha))
    && !Gated(Trusted(comments), Lower(sha))
    && var latest := Newest(Trusted(comments));
       latest.Some? && ApprovesHead(latest.value.body, Lower(sha))
  }

  lemma KeyOrder(a: Comment, b: Comment, c: Comment)
    ensures a.KeyLeq(b) || b.KeyLeq(a)
    ensures a.KeyLeq(b) && b.KeyLeq(c) ==> a.KeyLeq(c)
  {
    TextLeqTotal(a.created, b.created);
    TextLeqTotal(b.created, c.created);
    if TextLeq(a.created, b.created) && TextLeq(b.created, c.created) {
      TextLeqTransitive(a.created, b.created, c.created);
    }
  }

  /** No trusted review is later than the one the decision rests on. */
  lemma {:induction false} NewestIsLatest(comments: seq<Comment>, c: Comment)
    requires c in comments && c.IsReview()
    ensures Newest(comments).Some? && c.KeyLeq(Newest(comments).value)
  {
    var front, last := comments[..|comments| - 1], comments[|comments| - 1];
    assert comments == front + [last];
    KeyOrder(c, c, c);
    if c in front {
      NewestIsLatest(front, c);
      KeyOrder(c, Newest(front).value, last);
    } else if Newest(front).Some? {
      KeyOrder(Newest(front).value, last, last);
    }
  }

  /** `x` was posted before `c`: by the stamps, compared character by character, and then by
      the ids. */
  ghost predicate Earlier(x: Comment, c: Comment) {
    (x.created == c.created && x.id < c.id) || SmallerText(x.created, c.created)
  }

  /** All other trusted reviews were posted before `c`. */
  ghost predicate IsLatest(c: Comment, comments: seq<Comment>) {
    && c in comments && c.trusted && "[agent_crew review] verdict:" <= c.body
    && forall x <- comments :: x.trusted && "[agent_crew review] verdict:" <= x.body && x != c ==> Earlier(x, c)
  }

  lemma EarlierIsNotLater(x: Comment, c: Comment)
    requires Earlier(x, c)
    ensures !c.KeyLeq(x)
  {
    TextLeqMeans(x.created, c.created);
    TextLeqMeans(c.created, x.created);
    TextLeqTotal(x.created, c.created);
  }

  lemma LatestIsNewest(c: Comment, comments: seq<Comment>)
    requires IsLatest(c, comments)
    ensures Newest(Trusted(comments)) == Some(c)
  {
    NewestIsLatest(Trusted(comments), c);
    var newest := Newest(Trusted(comments)).value;
    if Earlier(newest, c) {
      EarlierIsNotLater(newest, c);
    }
  }

  /** The decision by the facts: the review posted last decides, and a record of a gate by
      whichever trusted comment refuses. */
  lemma LatestReviewDecides(sameRepo: bool, sha: string, comments: seq<Comment>, c: Comment)
    requires IsLatest(c, comments)
    ensures Allowed(sameRepo, sha, comments) <==>
              && sameRepo && IsSha(Lower(sha)) && ApprovesHead(c.body, Lower(sha))
              && forall x <- comments :: x.trusted ==> !GatesHead(x.body, Lower(sha))
  {
    LatestIsNewest(c, comments);
  }

  /** Without a trusted review nothing is tested. */
  lemma NoReviewNoTest(sameRepo: bool, sha: string, comments: seq<Comment>)
    requires forall x <- comments :: x.trusted ==> !("[agent_crew review] verdict:" <= x.body)
    ensures !Allowed(sameRepo, sha, comments)
  {
  }

  /** What a gate record looks like: one of the two marks and the head, in any case, anywhere
      in a comment. */
  lemma RecordsByMark(body: string, x: string, mark: string, y: string, head: string)
    requires mark == "[agent_crew premerge gate]" || mark == "Coordinator merge gate:"
    requires body == x + mark + y && Contains(Lower(body), head)
    ensures GatesHead(body, head)
  {
    ContainsPart(x, mark, y);
  }

  // ---- the sorted scan -----------------------------------------------------------------------

  function Insert(sorted: seq<Comment>, c: Comment): seq<Comment> {
    if sorted == [] || sorted[|sorted| - 1].KeyLeq(c) then sorted + [c]
    else Insert(sorted[..|sorted| - 1], c) + [sorted[|sorted| - 1]]
  }

  /** `sorted(comments, key=...)`, which keeps the order of equal keys. */
  function Sort(comments: seq<Comment>): seq<Comment> {
    if comments == [] then [] else Insert(Sort(comments[..|comments| - 1]), comments[|comments| - 1])
  }

  /** The last review of a list. */
  function LastReview(comments: seq<Comment>): Option<Comment> {
    if comments == [] then None
    else if comments[|comments| - 1].IsReview() then Some(comments[|comments| - 1])
    else LastReview(comments[..|comments| - 1])
  }

  ghost predicate Ordered(comments: seq<Comment>) {
    forall i, j :: 0 <= i <= j < |comments| ==> comments[i].KeyLeq(comments[j])
  }

  lemma {:induction false} InsertKeeps(sorted: seq<Comment>, c: Comment)
    requires Ordered(sorted)
    ensures Ordered(Insert(sorted, c))
    ensures multiset(Insert(sorted, c)) == multiset(sorted) + multiset{c}
    decreases |sorted|
  {
    KeyOrder(c, c, c);
    if sorted != [] {
      var front, last := sorted[..|sorted| - 1], sorted[|sorted| - 1];
      assert sorted == front + [last];
      if last.KeyLeq(c) {
        forall i | 0 <= i < |sorted| ensures sorted[i].KeyLeq(c) {
          KeyOrder(sorted[i], last, c);
        }
      } else {
        InsertKeeps(front, c);
        KeyOrder(last, c, c);
        InsertBefore(front, c, last);
      }
    }
  }

  lemma InsertBefore(front: seq<Comment>, c: Comment, last: Comment)
    requires Ordered(front + [last]) && c.KeyLeq(last)
    requires Ordered(Insert(front, c)) && multiset(Insert(front, c)) == multiset(front) + multiset{c}
    ensures Ordered(Insert(front, c) + [last])
  {
    var s := Insert(front, c);
    forall x <- s ensures x.KeyLeq(last) {
      assert x in multiset(s);
      if x != c {
        assert x in front;
        var i :| 0 <= i < |front| && front[i] == x;
        assert (front + [last])[i].KeyLeq((front + [last])[|front|]);
      }
    }
    KeyOrder(last, last, last);
  }

  lemma {:induction false} LastReviewIsListed(comments: seq<Comment>)
    ensures var r := LastReview(comments); r.Some? ==> r.value in comments && r.value.IsReview()
    decreases |comments|
  {
    if comments != [] {
      LastReviewIsListed(comments[..|comments| - 1]);
    }
  }

  lemma {:induction false} InsertMovesLastReview(sorted: seq<Comment>, c: Comment)
    requires Ordered(sorted)
    ensures var best := LastReview(sorted);
            LastReview(Insert(sorted, c)) ==
            if c.IsReview() && (best == None || best.value.KeyLeq(c)) then Some(c) else best
    decreases |sorted|
  {
    if sorted == [] || sorted[|sorted| - 1].KeyLeq(c) {
      assert (sorted + [c])[..|sorted|] == sorted;
      LastReviewIsListed(sorted);
      var best := LastReview(sorted);
      if best.Some? {
        KeyOrder(best.value, sorted[|sorted| - 1], c);
      }
    } else {
      var front, last := sorted[..|sorted| - 1], sorted[|sorted| - 1];
      InsertMovesLastReview(front, c);
      assert (Insert(front, c) + [last])[..|Insert(front, c)|] == Insert(front, c);
    }
  }

  /** Sorting and taking the last review finds the latest one. */
  lemma {:induction false} SortFindsNewest(comments: seq<Comment>)
    ensures Ordered(Sort(comments)) && multiset(Sort(comments)) == multiset(comments)
    ensures LastReview(Sort(comments)) == Newest(comments)
    decreases |comments|
  {
    if comments != [] {
      var front, last := comments[..|comments| - 1], comments[|comments| - 1];
      assert comments == front + [last];
      SortFindsNewest(front);
      InsertKeeps(Sort(front), last);
      InsertMovesLastReview(Sort(front), last);
    }
  }

  /** The loop over the sorted comments; `gates` is the test for a gate record. */
  method Scan(sorted: seq<Comment>, gates: string -> bool) returns (gated: bool, latest: Option<Comment>)
    ensures gated == exists c <- sorted :: gates(c.body)
    ensures !gated ==> latest == LastReview(sorted)
  {
    latest := None;
    for i := 0 to |sorted|
      invariant latest == LastReview(sorted[..i])
      invariant forall k :: 0 <= k < i ==> !gates(sorted[k].body)
    {
      assert sorted[..i + 1][..i] == sorted[..i];
      if sorted[i].IsReview() {
        latest := Some(sorted[i]);
      }
      if gates(sorted[i].body) {
        return true, latest;
      }
    }
    assert sorted[..|sorted|] == sorted;
    gated := false;
  }

  lemma GatedInAnyOrder(a: seq<Comment>, b: seq<Comment>, head: string)
    requires multiset(a) == multiset(b)
    ensures Gated(a, head) == Gated(b, head)
  {
    assert forall c :: c in a <==> c in multiset(a);
    assert forall c :: c in b <==> c in multiset(b);
  }

  /** `needs_gate` */
  method NeedsGate(sameRepo: bool, sha: string, comments: seq<Comment>) returns (needed: bool)
    ensures needed == Allowed(sameRepo, sha, comments)
    ensures forall c :: IsLatest(c, comments) && !ApprovesHead(c.body, Lower(sha)) ==> !needed
    ensures forall c :: (IsLatest(c, comments) && ApprovesHead(c.body, Lower(sha)) && sameRepo && IsSha(Lower(sha))
                         && (forall x <- comments :: x.trusted ==> !GatesHead(x.body, Lower(sha)))) ==> needed
  {
    forall c | IsLatest(c, comments)
      ensures Allowed(sameRepo, sha, comments) <==>
                && sameRepo && IsSha(Lower(sha)) && ApprovesHead(c.body, Lower(sha))
                && forall x <- comments :: x.trusted ==> !GatesHead(x.body, Lower(sha))
    {
      LatestReviewDecides(sameRepo, sha, comments, c);
    }
    needed := Decide(sameRepo, sha, comments);
  }

  method Decide(sameRepo: bool, sha: string, comments: seq<Comment>) returns (needed: bool)
    ensures needed == Allowed(sameRepo, sha, comments)
  {
    if !sameRepo {
      return false;
    }
    var head := Lower(sha);
    if !IsSha(head) {
      return false;
    }
    var trusted := Trusted(comments);
    var sorted := Sort(trusted);
    SortFindsNewest(trusted);
    GatedInAnyOrder(trusted, sorted, head);
    var gated, latest := Scan(sorted, body => GatesHead(body, head));
    if gated || latest == None || !Approves(latest.value.body) {
      return false;
    }
    return ReviewedHead(latest.value.body) == head;
  }

  // ---- the server's own review comments ----------------------------------------------------

  lemma StripSpace(word: string)
    requires word != "" && !IsSpace(word[0]) && !IsSpace(word[|word| - 1])
    ensures Strip(" " + word) == word
  {
    assert (" " + word)[1..] == word;
    GateRecord.StripIsIdentity(word);
  }

  /** The pattern on a line that begins as a review does. */
  lemma ApprovalAfterMark(rest: string)
    ensures IsApproval(REVIEW + rest) <==>
            var verdict := Strip(rest);
            verdict == "approve" || (verdict != "" && verdict[0] == '\U{2705}' && Strip(verdict[1..]) == "approve")
  {
    assert (REVIEW + rest)[|REVIEW|..] == rest;
  }

  /** The pattern of an approval: white space, perhaps the check mark and white space, the
      word, and white space, between the mark and the end of the line. */
  ghost predicate ApprovalText(rest: string) {
    exists a, b, c :: Blank(a) && Blank(b) && Blank(c)
                      && (rest == a + "approve" + b || rest == a + ("\U{2705}" + c + "approve") + b)
  }

  lemma WordIsTrim(word: string)
    requires word == "approve"
    ensures Trim(word)
  {
  }

  lemma ApprovalPattern(rest: string)
    ensures IsApproval("[agent_crew review] verdict:" + rest) <==> ApprovalText(rest)
  {
    var word, check := "approve", "\U{2705}";
    WordIsTrim(word);
    ApprovalAfterMark(rest);
    if ApprovalText(rest) {
      var a, b, c :| Blank(a) && Blank(b) && Blank(c) && (rest == a + word + b || rest == a + (check + c + word) + b);
      TextIsApproval(rest, word, check, a, b, c);
    }
    if IsApproval("[agent_crew review] verdict:" + rest) {
      var a, b, c := ApprovalIsText(rest, word, check);
    }
  }

  predicate ReadsAs(rest: string, word: string) {
    var verdict := Strip(rest);
    verdict == word || (verdict != "" && verdict[0] == '\U{2705}' && Strip(verdict[1..]) == word)
  }

  lemma TextIsApproval(rest: string, word: string, check: string, a: string, b: string, c: string)
    requires Trim(word) && check == ['\U{2705}']
    requires Blank(a) && Blank(b) && Blank(c) && (rest == a + word + b || rest == a + (check + c + word) + b)
    ensures ReadsAs(rest, word)
  {
    if rest == a + word + b {
      StripOfPadded(a, word, b);
    } else {
      var inner := check + c + word;
      assert inner[0] == '\U{2705}' && inner[|inner| - 1] == word[|word| - 1] && inner[1..] == c + word + "";
      StripOfPadded(a, inner, b);
      StripOfPadded(c, word, "");
    }
  }

  lemma ApprovalIsText(rest: string, word: string, check: string) returns (a: string, b: string, c: string)
    requires Trim(word) && check == ['\U{2705}'] && ReadsAs(rest, word)
    ensures Blank(a) && Blank(b) && Blank(c) && (rest == a + word + b || rest == a + (check + c + word) + b)
  {
    var verdict := Strip(rest);
    a, b := StripSplits(rest);
    c := "";
    if verdict != word {
      var d;
      c, d := StripSplits(verdict[1..]);
      CheckedShape(a, verdict, b, check, c, word, d);
      b := d + b;
    }
  }

  lemma CheckedShape(a: string, verdict: string, b: string, check: string, c: string, word: string, d: string)
    requires verdict != "" && check == [verdict[0]] && verdict[1..] == c + word + d
    requires Blank(a) && Blank(b) && Blank(c) && Blank(d) && Trim(word)
    ensures a + verdict + b == a + (check + c + word) + (d + b) && Blank(d + b)
  {
    assert verdict == check + verdict[1..];
    assert check + (c + word + d) == (check + c + word) + d;
    assert a + ((check + c + word) + d) + b == a + (check + c + word) + (d + b);
  }

  lemma PlainVerdict(word: string)
    requires word != "" && !IsSpace(word[0]) && !IsSpace(word[|word| - 1]) && word[0] != '\U{2705}'
    ensures IsApproval(REVIEW + (" " + word)) <==> word == "approve"
  {
    StripSpace(word);
    ApprovalAfterMark(" " + word);
  }

  lemma {:induction false} CheckedVerdict(check: string, word: string)
    requires check == ['\U{2705}']
    requires word != "" && !IsSpace(word[0]) && !IsSpace(word[|word| - 1])
    ensures IsApproval(REVIEW + (" " + (check + (" " + word)))) <==> word == "approve"
  {
    var verdict := check + (" " + word);
    StripSpace(word);
    assert verdict[|verdict| - 1] == word[|word| - 1] && verdict[1..] == " " + word;
    StripSpace(verdict);
    ApprovalAfterMark(" " + verdict);
    assert "approve"[0] == 'a';
  }

  function Word(approve: bool): string {
    if approve then "approve" else "request_changes"
  }

  function Sign(approve: bool): string {
    if approve then "\U{2705}" else "\U{1f504}"
  }

  lemma VerdictParts(approve: bool)
    ensures VerdictLine(approve) == REVIEW + (" " + (Sign(approve) + (" " + Word(approve))))
  {
    MarkAndSpace();
    VerdictWords(approve);
    var text := Sign(approve) + (" " + Word(approve));
    assert (REVIEW + " ") + text == REVIEW + (" " + text);
  }

  lemma MarkAndSpace()
    ensures REVIEW + " " == "[agent_crew review] verdict: "
  {
  }

  lemma VerdictWords(approve: bool)
    ensures VerdictLine(approve) == "[agent_crew review] verdict: " + (Sign(approve) + (" " + Word(approve)))
  {
    if approve {
      assert Sign(true) + (" " + Word(true)) == "\U{2705} approve";
    } else {
      assert Sign(false) + (" " + Word(false)) == "\U{1f504} request_changes";
    }
  }

  lemma OtherSign(sign: string, word: string)
    requires sign == ['\U{1f504}']
    requires word != "" && !IsSpace(word[|word| - 1])
    ensures !IsApproval(REVIEW + (" " + (sign + (" " + word))))
  {
    var verdict := sign + (" " + word);
    assert verdict[|verdict| - 1] == word[|word| - 1];
    PlainVerdict(verdict);
    assert verdict[0] == sign[0] && "approve"[0] == 'a';
  }

  lemma VerdictIsRead(approve: bool)
    ensures REVIEW <= VerdictLine(approve)
    ensures IsApproval(VerdictLine(approve)) <==> approve
  {
    VerdictParts(approve);
    if approve {
      CheckedVerdict(Sign(true), Word(true));
    } else {
      OtherSign(Sign(false), Word(false));
    }
  }

  lemma VerdictIsOneLine(approve: bool)
    ensures OneLine(VerdictLine(approve))
  {
  }

  lemma BodyStartsWithVerdict(r: Review)
    ensures REVIEW <= Join(BodyLines(r))
    ensures SplitLines(Join(BodyLines(r))) != [] && SplitLines(Join(BodyLines(r)))[0] == VerdictLine(r.approve)
  {
    var lines := BodyLines(r);
    VerdictIsRead(r.approve);
    VerdictIsOneLine(r.approve);
    assert lines[0] == Prose(r)[0] == VerdictLine(r.approve) && |lines| > 1;
    SplitFirstLine(lines[0], Join(lines[1..]));
  }

  /** A comment written by the server approves a head exactly when the review approved, was
      given that head, and its text does not hold the head marker. */
  lemma {:induction false} ServerReviewApproves(r: Review, head: string)
    requires OneLine(r.reviewer) && OneLine(r.task) && IsSha(head)
    ensures Join(BodyLines(r)) != ""
    ensures ApprovesHead(Join(BodyLines(r)), head) <==>
            r.approve && HasHead(r) && MarkerFree(r) && Lower(r.sha.value) == head
  {
    BodyStartsWithVerdict(r);
    VerdictIsRead(r.approve);
    HeadCannotBeForged(r);
  }

  /** When the latest trusted review is one the server wrote, the head is tested exactly if
      that review approved this head and no gate is recorded for it. */
  lemma {:induction false} ServerReviewDecides(sha: string, comments: seq<Comment>, r: Review)
    requires OneLine(r.reviewer) && OneLine(r.task)
    requires var latest := Newest(Trusted(comments)); latest.Some? && latest.value.body == Join(BodyLines(r))
    ensures Allowed(true, sha, comments) <==>
            && IsSha(Lower(sha)) && !Gated(Trusted(comments), Lower(sha))
            && r.approve && HasHead(r) && MarkerFree(r) && Lower(r.sha.value) == Lower(sha)
  {
    if IsSha(Lower(sha)) {
      ServerReviewApproves(r, Lower(sha));
    }
  }

  // ---- the script's own gate comments ------------------------------------------------------

  lemma LowerContains(s: string, t: string)
    requires Contains(s, t)
    ensures Contains(Lower(s), Lower(t))
  {
    var i := Find(s, t);
    forall k | 0 <= k < |t| ensures Lower(s)[i + k] == Lower(t)[k] {
      assert s[i + k] == t[k];
    }
    assert OccursAt(Lower(s), Lower(t), i);
  }

  lemma ContainsSuffix(s: string, tag: string, t: string)
    requires Contains(s, tag + t)
    ensures Contains(s, t)
  {
    var i := Find(s, tag + t);
    forall k | 0 <= k < |t| ensures s[i + |tag| + k] == t[k] {
      assert (tag + t)[|tag| + k] == t[k];
    }
    assert OccursAt(s, t, i + |tag|);
  }

  lemma ContainsPart(x: string, t: string, y: string)
    ensures Contains(x + t + y, t)
  {
    assert OccursAt(x + t + y, t, |x|);
  }

  /** `gate_for_head`: a trusted gate comment naming the head. */
  predicate GateFound(comments: seq<Comment>, sha: string) {
    exists c <- comments :: c.trusted && Contains(c.body, GateRecord.MARKER) && Contains(c.body, "HEAD " + sha)
  }

  lemma ContainsBoth(mark: string, x: string, t: string, y: string)
    ensures var s := mark + x + t + y; Contains(s, mark) && Contains(s, t)
  {
    ContainsPart(mark + x, t, y);
    assert OccursAt(mark + x + t + y, mark, 0);
  }

  lemma NamedGate(body: string, sha: string)
    requires Contains(body, GateRecord.MARKER) && Contains(body, "HEAD " + sha)
    ensures GatesHead(body, Lower(sha))
  {
    ContainsSuffix(body, "HEAD ", sha);
    LowerContains(body, sha);
  }

  lemma CommentParts(mark: string, head: string, b: string, c: string, d: string)
    ensures mark + "\n" + head + "\n" + b + "\n" + c + "\n" + d + "\n"
         == mark + "\n" + head + ("\n" + b + "\n" + c + "\n" + d + "\n")
  {
  }

  /** Both readers find a gate comment that the script wrote, in whatever case the head was
      given: the main loop to resume delivery, the decision to refuse a second run. */
  lemma GateCommentIsFound(sha: string, main: string, summary: string, exitCode: int)
    ensures var body := GateRecord.GateComment(sha, main, summary, exitCode);
            && Contains(body, GateRecord.MARKER) && Contains(body, "HEAD " + sha)
            && GatesHead(body, Lower(sha))
  {
    var last := "EXIT " + GateRecord.PrintInt(exitCode);
    CommentParts(GateRecord.MARKER, "HEAD " + sha, "MAIN " + main, "pytest: " + summary, last);
    ContainsBoth(GateRecord.MARKER, "\n", "HEAD " + sha,
                 "\n" + ("MAIN " + main) + "\n" + ("pytest: " + summary) + "\n" + last + "\n");
    NamedGate(GateRecord.GateComment(sha, main, summary, exitCode), sha);
  }

  /** What the main loop takes for a finished gate, the decision refuses as well. */
  lemma {:induction false} FoundGateIsRefused(sameRepo: bool, sha: string, comments: seq<Comment>)
    requires GateFound(comments, sha)
    ensures !Allowed(sameRepo, sha, comments)
  {
    var c :| c in comments && c.trusted && Contains(c.body, GateRecord.MARKER) && Contains(c.body, "HEAD " + sha);
    NamedGate(c.body, sha);
    assert c in Trusted(comments);
  }
}
