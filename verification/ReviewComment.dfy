/** The review comment that the server posts, and the reader of the merge gate that
    looks for the reviewed head in it. */
module ReviewComment {
  import opened Text
  import opened TextLines
  import opened Wrappers

  const REVIEW := "[agent_crew review] verdict:"
  const HEAD_MARK := "> reviewed head:"
  const REVIEWER_MARK := "> reviewer: "

  predicate IsHex(c: char) {
    '0' <= c <= '9' || 'a' <= c <= 'f' || 'A' <= c <= 'F'
  }

  /** A full commit id: forty hexadecimal digits. */
  predicate IsSha(s: string) {
    |s| == 40 && forall c <- s :: IsHex(c)
  }

  function LowerChar(c: char): char {
    if 'A' <= c <= 'Z' then c - 'A' + 'a' else c
  }

  function Lower(s: string): (r: string)
    ensures |r| == |s| && forall i :: 0 <= i < |s| ==> r[i] == LowerChar(s[i])
  {
    seq(|s|, i requires 0 <= i < |s| => LowerChar(s[i]))
  }

  datatype Review = Review(
    approve: bool,
    summary: string,
    findings: seq<string>,
    files: Option<seq<string>>,
    sha: Option<string>,
    reviewer: string,
    task: string)

  // ---- the writer -------------------------------------------------------------------

  function VerdictLine(approve: bool): string {
    "[agent_crew review] verdict: " + if approve then "\U{2705} approve" else "\U{1f504} request_changes"
  }

  function Bullets(findings: seq<string>): seq<string> {
    if findings == [] then [] else ["- " + findings[0]] + Bullets(findings[1..])
  }

  /** Carriage returns and line feeds of a path become spaces. */
  function CleanPath(path: string): string {
    if path == "" then ""
    else [if path[0] == '\r' || path[0] == '\n' then ' ' else path[0]] + CleanPath(path[1..])
  }

  function JoinPaths(paths: seq<string>): string {
    if paths == [] then ""
    else if |paths| == 1 then CleanPath(paths[0])
    else CleanPath(paths[0]) + ", " + JoinPaths(paths[1..])
  }

  const FILES_LABEL := "\U{bcc0}\U{acbd} \U{d30c}\U{c77c} \U{d655}\U{c778}: "

  function FindingsPart(r: Review): seq<string> {
    if r.findings != [] then ["**Findings:**"] + Bullets(r.findings) + [""] else []
  }

  function SummaryPart(r: Review): seq<string> {
    if r.summary != "" then ["**Summary:** " + r.summary, ""] else []
  }

  function FilesPart(r: Review): seq<string> {
    if r.files.Some? then [FILES_LABEL + JoinPaths(r.files.value), ""] else []
  }

  /** Everything above the structured lines; it always ends with an empty line. */
  function Prose(r: Review): (lines: seq<string>)
    ensures |lines| > 0 && lines[|lines| - 1] == ""
  {
    [VerdictLine(r.approve), ""] + FindingsPart(r) + SummaryPart(r) + FilesPart(r)
  }

  function HeadLine(sha: string): string {
    HEAD_MARK + " " + sha
  }

  function ReviewerLine(r: Review): string {
    REVIEWER_MARK + r.reviewer + " | task: " + r.task
  }

  function HasHead(r: Review): bool {
    r.sha.Some? && IsSha(r.sha.value)
  }

  function BodyLines(r: Review): seq<string> {
    Prose(r) + (if HasHead(r) then [HeadLine(r.sha.value)] else []) + [ReviewerLine(r)]
  }

  /** The body that `post_review_comment` builds. */
  method BuildBody(r: Review) returns (body: string)
    ensures body == Join(BodyLines(r))
  {
    var lines := [VerdictLine(r.approve), ""];
    ghost var start := lines;
    if r.findings != [] {
      lines := lines + ["**Findings:**"];
      for i := 0 to |r.findings|
        invariant lines + Bullets(r.findings[i..]) == start + (["**Findings:**"] + Bullets(r.findings))
      {
        assert r.findings[i..][1..] == r.findings[i + 1..];
        lines := lines + ["- " + r.findings[i]];
      }
      assert r.findings[|r.findings|..] == [];
      assert lines == start + (["**Findings:**"] + Bullets(r.findings));
      lines := lines + [""];
    }
    assert lines == start + FindingsPart(r);
    if r.summary != "" {
      lines := lines + ["**Summary:** " + r.summary];
      lines := lines + [""];
    }
    assert lines == start + FindingsPart(r) + SummaryPart(r);
    if r.files.Some? {
      lines := lines + [FILES_LABEL + JoinPaths(r.files.value)];
      lines := lines + [""];
    }
    assert lines == Prose(r);
    if r.sha.Some? && IsSha(r.sha.value) {
      lines := lines + [HeadLine(r.sha.value)];
    }
    lines := lines + [ReviewerLine(r)];
    assert lines == BodyLines(r);
    body := Join(lines);
  }

  lemma HexDigits(c: char)
    ensures IsHex(c) <==> c in "0123456789abcdefABCDEF"
  {
  }

  lemma {:induction false} BulletsAre(findings: seq<string>)
    ensures Bullets(findings) == seq(|findings|, i requires 0 <= i < |findings| => "- " + findings[i])
  {
    if findings != [] {
      BulletsAre(findings[1..]);
    }
  }

  lemma {:induction false} CleanPathIs(path: string)
    ensures |CleanPath(path)| == |path|
    ensures forall i :: 0 <= i < |path| ==> CleanPath(path)[i] == if path[i] == '\r' || path[i] == '\n' then ' ' else path[i]
  {
    if path != "" {
      CleanPathIs(path[1..]);
    }
  }

  /** Path after path, with a comma and a space between two. */
  lemma {:induction false} PathsAre(paths: seq<string>, path: string)
    ensures JoinPaths([path]) == CleanPath(path)
    ensures paths != [] ==> JoinPaths(paths + [path]) == JoinPaths(paths) + (", " + CleanPath(path))
  {
    if |paths| == 1 {
      assert (paths + [path])[1..] == [path];
    } else if |paths| > 1 {
      PathsAre(paths[1..], path);
      assert (paths + [path])[1..] == paths[1..] + [path];
      var first, rest, last := CleanPath(paths[0]), JoinPaths(paths[1..]), ", " + CleanPath(path);
      assert first + ", " + (rest + last) == (first + ", " + rest) + last;
    }
  }

  /** The lines of a body, one by one. */
  lemma BodyText(r: Review)
    ensures BodyLines(r) ==
            ([if r.approve then "[agent_crew review] verdict: \U{2705} approve"
              else "[agent_crew review] verdict: \U{1f504} request_changes", ""] + FindingsPart(r) + SummaryPart(r) + FilesPart(r))
            + (if r.sha.Some? && FullSha(r.sha.value) then ["> reviewed head: " + r.sha.value] else [])
            + ["> reviewer: " + r.reviewer + " | task: " + r.task]
    ensures FindingsPart(r) ==
            (if r.findings == [] then []
             else ["**Findings:**"] + seq(|r.findings|, i requires 0 <= i < |r.findings| => "- " + r.findings[i]) + [""])
    ensures SummaryPart(r) == if r.summary == "" then [] else ["**Summary:** " + r.summary, ""]
    ensures FilesPart(r) ==
            if r.files == None then []
            else ["\U{bcc0}\U{acbd} \U{d30c}\U{c77c} \U{d655}\U{c778}: " + JoinPaths(r.files.value), ""]
  {
    BulletsAre(r.findings);
    HeadText(r);
    VerdictText(r.approve);
    if r.sha.Some? { ShaIsFull(r.sha.value); }
  }

  predicate FullSha(sha: string) {
    |sha| == 40 && forall c <- sha :: c in "0123456789abcdefABCDEF"
  }

  lemma ShaIsFull(sha: string)
    ensures IsSha(sha) <==> FullSha(sha)
  {
    forall c: char ensures IsHex(c) <==> c in "0123456789abcdefABCDEF" {
      HexDigits(c);
    }
  }

  lemma HeadText(r: Review)
    ensures r.sha.Some? ==> HeadLine(r.sha.value) == "> reviewed head: " + r.sha.value
  {
    assert HEAD_MARK + " " == "> reviewed head: ";
  }

  lemma VerdictText(approve: bool)
    ensures VerdictLine(approve) == if approve then "[agent_crew review] verdict: \U{2705} approve"
                                    else "[agent_crew review] verdict: \U{1f504} request_changes"
  {
    assert "[agent_crew review] verdict: " + "\U{2705} approve" == "[agent_crew review] verdict: \U{2705} approve";
    assert "[agent_crew review] verdict: " + "\U{1f504} request_changes" == "[agent_crew review] verdict: \U{1f504} request_changes";
  }

  lemma {:induction false} SplitOfJoined(lines: seq<string>)
    requires lines != [] && lines[|lines| - 1] != "" && forall line <- lines :: OneLine(line)
    ensures SplitLines(Join(lines)) == lines
  {
    assert lines[0] in lines;
    if |lines| == 1 {
      SplitOneLine(lines[0]);
    } else {
      assert forall line <- lines[1..] :: line in lines;
      SplitOfJoined(lines[1..]);
      SplitFirstLine(lines[0], Join(lines[1..]));
      assert lines == [lines[0]] + lines[1..];
    }
  }

  /** A body whose parts are single lines is read back line by line. */
  lemma BodyReadsBack(r: Review)
    requires forall line <- BodyLines(r) :: OneLine(line)
    ensures SplitLines(Join(BodyLines(r))) == BodyLines(r)
  {
    assert BodyLines(r)[|BodyLines(r)| - 1] == ReviewerLine(r);
    SplitOfJoined(BodyLines(r));
  }

  // ---- the reader -------------------------------------------------------------------

  /** Case-insensitive match of one character of a lower-case pattern. */
  predicate FoldsTo(c: char, p: char) {
    LowerChar(c) == p || (p == 'i' && (c == '\U{130}' || c == '\U{131}'))
  }

  /** The head line as the reader matches it, without regard to case. */
  function MatchHead(line: string): string {
    var prefix := HEAD_MARK + " ";
    if |line| == |prefix| + 40
       && (forall i :: 0 <= i < |prefix| ==> FoldsTo(line[i], prefix[i]))
       && IsSha(line[|prefix|..])
    then Lower(line[|prefix|..]) else ""
  }

  function ReviewedHead(body: string): string {
    var lines := SplitLines(body);
    if Count(body, HEAD_MARK) != 1 || |lines| < 2 || !(REVIEWER_MARK <= lines[|lines| - 1]) then ""
    else MatchHead(lines[|lines| - 2])
  }

  lemma MatchHeadLine(sha: string)
    requires IsSha(sha)
    ensures MatchHead(HeadLine(sha)) == Lower(sha)
    ensures MatchHead("") == ""
  {
    var line, prefix := HeadLine(sha), HEAD_MARK + " ";
    assert line[|prefix|..] == sha;
    assert forall i :: 0 <= i < |prefix| ==> line[i] == prefix[i];
    assert forall c <- prefix :: LowerChar(c) == c;
  }

  lemma HeadLineIsOneLine(sha: string)
    requires IsSha(sha)
    ensures OneLine(HeadLine(sha))
    ensures Count(HeadLine(sha), HEAD_MARK) == 1
  {
    var line := HeadLine(sha);
    assert line == HEAD_MARK + (" " + sha);
    FindAtFront(HEAD_MARK, " " + sha);
    CountFrom(line, HEAD_MARK, 0, " " + sha);
    assert HEAD_MARK[0] == '>' && '>' !in " " + sha;
    LacksCharacter(" " + sha, HEAD_MARK, 0);
    CountIsZero(" " + sha, HEAD_MARK);
    assert OneLine(HEAD_MARK) && OneLine(" ");
  }

  lemma ReviewerLineFacts(r: Review)
    requires OneLine(r.reviewer) && OneLine(r.task)
    ensures OneLine(ReviewerLine(r)) && ReviewerLine(r) != "" && REVIEWER_MARK <= ReviewerLine(r)
  {
    assert OneLine(REVIEWER_MARK) && OneLine(" | task: ");
  }

  /** The marker does not occur in the text of the reviewer, nor in the last line. */
  predicate MarkerFree(r: Review) {
    !Contains(Join(Prose(r)), HEAD_MARK) && !Contains(ReviewerLine(r), HEAD_MARK)
  }

  /** The joined body, with its structured lines apart from the prose. */
  lemma BodyShape(r: Review)
    ensures HasHead(r) ==>
              Join(BodyLines(r)) == Join(Prose(r)) + ("\n" + (HeadLine(r.sha.value) + ("\n" + ReviewerLine(r))))
    ensures !HasHead(r) ==>
              Join(BodyLines(r)) == Join(Prose(r)) + ("\n" + ReviewerLine(r))
  {
    if HasHead(r) {
      var tail := [HeadLine(r.sha.value), ReviewerLine(r)];
      assert BodyLines(r) == Prose(r) + tail;
      JoinConcat(Prose(r), tail);
      assert tail[1..] == [ReviewerLine(r)];
    } else {
      assert BodyLines(r) == Prose(r) + [ReviewerLine(r)];
      JoinConcat(Prose(r), [ReviewerLine(r)]);
    }
  }

  /** The prose is closed by an empty line. */
  lemma ProseEndsEmpty(r: Review) returns (above: string)
    ensures Join(Prose(r)) == above + ("\n" + "")
  {
    var lines := Prose(r);
    var n := |lines| - 1;
    assert lines == lines[..n] + [""];
    JoinConcat(lines[..n], [""]);
    above := Join(lines[..n]);
  }

  /** The reader on a text whose last two lines are known. */
  lemma {:induction false} ReadLastTwo(x: string, a: string, b: string)
    requires OneLine(a) && OneLine(b) && REVIEWER_MARK <= b
    ensures var body := x + ("\n" + (a + ("\n" + b)));
            ReviewedHead(body) == if Count(x, HEAD_MARK) + Count(a, HEAD_MARK) + Count(b, HEAD_MARK) == 1
                                  then MatchHead(a) else ""
  {
    var before := LastTwoLines(x, a, b);
    CountAcrossLines(a, b, HEAD_MARK);
    CountAcrossLines(x, a + ("\n" + b), HEAD_MARK);
  }

  /** Whatever a reviewer writes into findings, summary or paths: with reviewer and task
      on one line, the reader finds the supplied head in lower case or nothing, and it
      finds the head exactly when the head is a commit id and the text does not hold the
      marker as well. */
  lemma {:induction false} HeadCannotBeForged(r: Review)
    requires OneLine(r.reviewer) && OneLine(r.task)
    ensures ReviewedHead(Join(BodyLines(r))) == if HasHead(r) && MarkerFree(r) then Lower(r.sha.value) else ""
  {
    var prose, last := Join(Prose(r)), ReviewerLine(r);
    BodyShape(r);
    ReviewerLineFacts(r);
    CountIsZero(prose, HEAD_MARK);
    CountIsZero(last, HEAD_MARK);
    if HasHead(r) {
      HeadLineIsOneLine(r.sha.value);
      MatchHeadLine(r.sha.value);
      ReadLastTwo(prose, HeadLine(r.sha.value), last);
    } else {
      var above := ProseEndsEmpty(r);
      EmptyLineBetween(above, last);
      ReadLastTwo(above, "", last);
    }
  }

  lemma EmptyLineBetween(above: string, last: string)
    ensures (above + ("\n" + "")) + ("\n" + last) == above + ("\n" + ("" + ("\n" + last)))
    ensures MatchHead("") == ""
  {
    assert "" + ("\n" + last) == "\n" + last;
  }

  /** The one-line condition matters: a reviewer id with line breaks can name a head that
      was never supplied. */
  lemma {:induction false} OneLineIdsAreNeeded(r: Review, sha: string)
    requires r.sha == None && IsSha(sha) && OneLine(r.task) && !Contains(r.task, HEAD_MARK)
    requires r.reviewer == "x" + ("\n" + (HeadLine(sha) + ("\n" + (REVIEWER_MARK + "y"))))
    requires !Contains(Join(Prose(r)), HEAD_MARK)
    ensures ReviewedHead(Join(BodyLines(r))) == Lower(sha)
  {
    var prose, first, head := Join(Prose(r)), REVIEWER_MARK + "x", HeadLine(sha);
    var last := REVIEWER_MARK + ("y | task: " + r.task);
    BodyShape(r);
    HeadLineIsOneLine(sha);
    MatchHeadLine(sha);
    ForgedLine(REVIEWER_MARK, head, r.task);
    Regroup(prose, first, head + ("\n" + last));
    LabelIsOneLine(r.task);
    LacksMark("x");
    LabelLacksMark(r.task);
    LacksMark("y | task: " + r.task);
    ReadBelowClean(prose, first, head, last);
  }

  /** The reader below text that does not hold the marker. */
  lemma ReadBelowClean(prose: string, first: string, head: string, last: string)
    requires OneLine(head) && OneLine(last) && REVIEWER_MARK <= last && Count(head, HEAD_MARK) == 1
    requires !Contains(prose, HEAD_MARK) && !Contains(first, HEAD_MARK) && !Contains(last, HEAD_MARK)
    ensures ReviewedHead((prose + ("\n" + first)) + ("\n" + (head + ("\n" + last)))) == MatchHead(head)
  {
    ReadLastTwo(prose + ("\n" + first), head, last);
    CountAcrossLines(prose, first, HEAD_MARK);
    CountIsZero(prose, HEAD_MARK);
    CountIsZero(first, HEAD_MARK);
    CountIsZero(last, HEAD_MARK);
  }

  lemma LabelIsOneLine(task: string)
    requires OneLine(task)
    ensures OneLine(REVIEWER_MARK + ("y | task: " + task))
    ensures !Contains("x", HEAD_MARK)
  {
    assert OneLine(REVIEWER_MARK) && OneLine("y | task: ");
  }

  lemma ForgedLine(mark: string, head: string, task: string)
    ensures mark + ("x" + ("\n" + (head + ("\n" + (mark + "y"))))) + " | task: " + task ==
            (mark + "x") + ("\n" + (head + ("\n" + (mark + ("y | task: " + task)))))
  {
    assert "y" + (" | task: " + task) == "y | task: " + task;
    var tail := " | task: " + task;
    assert (mark + "y") + tail == mark + ("y" + tail);
    assert ("\n" + (mark + "y")) + tail == "\n" + ((mark + "y") + tail);
    assert (head + ("\n" + (mark + "y"))) + tail == head + (("\n" + (mark + "y")) + tail);
  }

  lemma Regroup(a: string, b: string, c: string)
    ensures a + ("\n" + (b + ("\n" + c))) == (a + ("\n" + b)) + ("\n" + c)
  {
  }

  lemma LacksMark(rest: string)
    requires rest != "" && !Contains(rest, HEAD_MARK)
    ensures !Contains(REVIEWER_MARK + rest, HEAD_MARK)
  {
    var s := REVIEWER_MARK + rest;
    var i := Find(s, HEAD_MARK);
    var probe := [CharAt(HEAD_MARK, 0), CharAt(HEAD_MARK, 9)];
    assert s[9] == 'r' && forall k :: 1 <= k < |REVIEWER_MARK| ==> s[k] == REVIEWER_MARK[k] != '>';
    if i >= |REVIEWER_MARK| {
      OccursInRight(REVIEWER_MARK, rest, HEAD_MARK, i);
    }
  }

  lemma LabelLacksMark(task: string)
    requires !Contains(task, HEAD_MARK)
    ensures !Contains("y | task: " + task, HEAD_MARK)
  {
    var text := "y | task: ";
    var i := Find(text + task, HEAD_MARK);
    var probe := CharAt(HEAD_MARK, 0);
    assert forall k :: 0 <= k < |text| ==> (text + task)[k] == text[k] != '>';
    if i >= |text| {
      OccursInRight(text, task, HEAD_MARK, i);
    }
  }
}
