/** The one-line summary that the merge gate takes from the output of a test run, and its
    way through the gate comment. The pattern of a totals line is a parameter. */
module PytestSummary {
  import opened Text
  import opened TextLines
  import opened Wrappers
  import GateRecord

  /** `s.strip("= ")` */
  function StripBar(s: string): (r: string)
    ensures forall c <- r :: c in s
    ensures r != "" ==> r[0] !in "= " && r[|r| - 1] !in "= "
  {
    if s == "" then ""
    else if s[0] in "= " then StripBar(s[1..])
    else if s[|s| - 1] in "= " then StripBar(s[..|s| - 1])
    else s
  }

  const UNAVAILABLE := "pytest summary unavailable"

  // ---- what the summary means -----------------------------------------------------------

  /** The last line that reads as a totals line. */
  function Totals(isTotals: string -> bool, lines: seq<string>): string
    decreases |lines|
  {
    if lines == [] then UNAVAILABLE
    else
      var stripped := StripBar(Strip(lines[|lines| - 1]));
      if isTotals(stripped) then stripped else Totals(isTotals, lines[..|lines| - 1])
  }

  function Before(s: string, t: string): string {
    if Contains(s, t) then s[..Find(s, t)] else s
  }

  /** The test named by a failure line; empty for any other line. */
  function Node(line: string): (node: string)
    ensures node == "" || !Blank(node)
    ensures forall c <- node :: c in line
  {
    var stripped := Strip(line);
    if "FAILED " <= stripped then Strip(Before(stripped[7..], " - "))
    else if "ERROR " <= stripped then Strip(Before(stripped[6..], " - "))
    else ""
  }

  /** Every test named, once each, in the order of the output. */
  function Named(lines: seq<string>): seq<string> {
    if lines == [] then []
    else
      var rest := Named(lines[..|lines| - 1]);
      var node := Node(lines[|lines| - 1]);
      if node == "" || node in rest then rest else rest + [node]
  }

  function Take(nodes: seq<string>, n: nat): seq<string> {
    if |nodes| <= n then nodes else nodes[..n]
  }

  function Commas(nodes: seq<string>): string {
    if nodes == [] then ""
    else if |nodes| == 1 then nodes[0]
    else Commas(nodes[..|nodes| - 1]) + ", " + nodes[|nodes| - 1]
  }

  function Cut(s: string, n: nat): string {
    if |s| <= n then s else s[..n]
  }

  function Summary(isTotals: string -> bool, output: string): string {
    var failures := Take(Named(SplitLines(output)), 3);
    var totals := Totals(isTotals, SplitLines(output));
    Cut(if failures == [] then totals else totals + " | failed: " + Commas(failures), 300)
  }

  /** `pytest_summary` */
  method PytestSummary(isTotals: string -> bool, output: string) returns (summary: string)
    ensures summary == Summary(isTotals, output)
  {
    var lines := SplitLines(output);
    summary := FindTotals(isTotals, lines);
    var failures := FindFailures(lines);
    if failures != [] {
      summary := summary + " | failed: " + Commas(failures);
    }
    summary := Cut(summary, 300);
  }

  method FindTotals(isTotals: string -> bool, lines: seq<string>) returns (summary: string)
    ensures summary == Totals(isTotals, lines)
  {
    summary := UNAVAILABLE;
    assert lines[..|lines|] == lines;
    for i := |lines| downto 0
      invariant Totals(isTotals, lines) == Totals(isTotals, lines[..i])
    {
      assert lines[..i + 1][..i] == lines[..i];
      var stripped := StripBar(Strip(lines[i]));
      if isTotals(stripped) {
        return stripped;
      }
    }
  }

  /** The loop stops at the third test named; that is all the summary takes. */
  method FindFailures(lines: seq<string>) returns (failures: seq<string>)
    ensures failures == Take(Named(lines), 3)
  {
    failures := [];
    for i := 0 to |lines|
      invariant failures == Named(lines[..i]) && |failures| < 3
    {
      assert lines[..i + 1][..i] == lines[..i];
      var node := Node(lines[i]);
      if node != "" && node !in failures {
        failures := failures + [node];
      }
      if |failures| == 3 {
        NamedOnlyGrows(lines, i + 1);
        return;
      }
    }
    assert lines[..|lines|] == lines;
  }

  lemma {:induction false} NamedOnlyGrows(lines: seq<string>, n: nat)
    requires n <= |lines|
    ensures Named(lines[..n]) <= Named(lines)
    decreases |lines|
  {
    if n == |lines| {
      assert lines[..n] == lines;
    } else {
      var front := lines[..|lines| - 1];
      assert front[..n] == lines[..n];
      NamedOnlyGrows(front, n);
    }
  }

  /** Each failing test is named once, and every failure line contributes its test. */
  lemma {:induction false} NamedOnce(lines: seq<string>)
    ensures forall i, j :: 0 <= i < j < |Named(lines)| ==> Named(lines)[i] != Named(lines)[j]
    ensures forall node :: node in Named(lines) <==> node != "" && exists line <- lines :: Node(line) == node
    decreases |lines|
  {
    if lines != [] {
      var front, last := lines[..|lines| - 1], lines[|lines| - 1];
      NamedOnce(front);
      assert lines == front + [last];
      assert forall line :: line in lines <==> line in front || line == last;
    }
  }

  // ---- the parts, by the facts ----------------------------------------------------------

  predicate Bar(s: string) {
    forall c <- s :: c == '=' || c == ' '
  }

  /** Whatever bar stands around a text, stripping the bar gives the text. */
  lemma {:induction false} BarIsStripped(a: string, t: string, b: string)
    requires Bar(a) && Bar(b) && t != ""
    requires t[0] != '=' && t[0] != ' ' && t[|t| - 1] != '=' && t[|t| - 1] != ' '
    ensures StripBar(a + t + b) == t
    decreases |a| + |b|
  {
    var s := a + t + b;
    if a != "" {
      assert s[0] == a[0] && a[0] in a && s[1..] == a[1..] + t + b;
      assert forall c <- a[1..] :: c in a;
      BarIsStripped(a[1..], t, b);
    } else if b != "" {
      var n := |b| - 1;
      assert s[0] == t[0] && s[|s| - 1] == b[n] && b[n] in b && s[..|s| - 1] == a + t + b[..n];
      assert forall c <- b[..n] :: c in b;
      BarIsStripped(a, t, b[..n]);
    } else {
      assert s == t;
    }
  }

  /** The totals are those of the last line that reads as totals. */
  lemma {:induction false} TotalsAreLast(isTotals: string -> bool, lines: seq<string>, i: nat)
    requires i < |lines| && isTotals(StripBar(Strip(lines[i])))
    requires forall j :: i < j < |lines| ==> !isTotals(StripBar(Strip(lines[j])))
    ensures Totals(isTotals, lines) == StripBar(Strip(lines[i]))
    decreases |lines|
  {
    if i < |lines| - 1 {
      TotalsAreLast(isTotals, lines[..|lines| - 1], i);
    }
  }

  lemma {:induction false} NoTotals(isTotals: string -> bool, lines: seq<string>)
    requires forall line <- lines :: !isTotals(StripBar(Strip(line)))
    ensures Totals(isTotals, lines) == "pytest summary unavailable"
    decreases |lines|
  {
    if lines != [] {
      assert lines[|lines| - 1] in lines;
      NoTotals(isTotals, lines[..|lines| - 1]);
    }
  }

  lemma StrippedLabel(kind: string, name: string, rest: string)
    requires kind == "FAILED " || kind == "ERROR "
    requires Trim(name) && (rest == "" || (|rest| > 3 && " - " <= rest && !IsSpace(rest[|rest| - 1])))
    ensures Trim(kind + (name + rest)) && kind <= kind + (name + rest)
    ensures (kind + (name + rest))[|kind|..] == name + rest
    ensures !("FAILED " <= "ERROR " + (name + rest))
  {
    var text := kind + (name + rest);
    assert text[0] == kind[0];
    assert rest == "" ==> text[|text| - 1] == name[|name| - 1];
    assert rest != "" ==> text[|text| - 1] == rest[|rest| - 1];
    assert ("ERROR " + (name + rest))[0] == 'E' && "FAILED "[0] == 'F';
  }

  lemma BeforeSeparator(name: string, rest: string)
    requires Trim(name) && !Contains(name + " ", " - ")
    requires rest == "" || " - " <= rest
    ensures Before(name + rest, " - ") == name
  {
    if rest == "" {
      assert name + rest == name;
      NotInPrefix(name, " ", " - ");
    } else {
      SeparatorAt(name, rest, " - ");
      assert (name + rest)[..|name|] == name;
    }
  }

  lemma NotInPrefix(x: string, y: string, t: string)
    requires !Contains(x + y, t)
    ensures !Contains(x, t)
  {
    if Contains(x, t) {
      FindInLeft(x, y, t);
    }
  }

  lemma SeparatorAt(name: string, rest: string, sep: string)
    requires sep == " - " && sep <= rest && name != "" && !IsSpace(name[|name| - 1]) && !Contains(name + " ", sep)
    ensures Find(name + rest, sep) == |name|
  {
    var s := name + rest;
    assert forall k :: 0 <= k < |sep| ==> s[|name| + k] == rest[k] == sep[k];
    assert OccursAt(s, sep, |name|);
    var i := Find(s, sep);
    var padded := name + " ";
    var probe := [CharAt(sep, 0), CharAt(sep, 1), CharAt(sep, 2)];
    assert probe == [' ', '-', ' '] && OccursAt(s, sep, i);
    assert s[i + 0] == sep[0] && s[i + 1] == sep[1] && s[i + 2] == sep[2];
    assert i < |name| ==> CharAt(s, i) == ' ' && CharAt(s, i + 1) == '-' && CharAt(s, i + 2) == ' ';
    assert forall k :: 0 <= k < |padded| ==> padded[k] == s[k];
    assert i + 3 <= |padded| ==> OccursAt(padded, sep, i);
    assert CharAt(s, |name|) == ' ' && CharAt(s, |name| - 1) == name[|name| - 1];
  }

  /** The test that a failure line names: what stands between the label and the separator,
      whatever white space is around the line. */
  lemma FailureNamesTest(a: string, kind: string, name: string, rest: string, b: string)
    requires Blank(a) && Blank(b) && Trim(name) && !Contains(name + " ", " - ")
    requires kind == "FAILED " || kind == "ERROR "
    requires rest == "" || (|rest| > 3 && " - " <= rest && !IsSpace(rest[|rest| - 1]))
    ensures Node(a + (kind + (name + rest)) + b) == name
  {
    StrippedLabel(kind, name, rest);
    StripOfPadded(a, kind + (name + rest), b);
    BeforeSeparator(name, rest);
    StripOfPadded("", name, "");
    assert "" + name + "" == name;
  }

  lemma OtherLinesNameNone(line: string)
    requires !("FAILED " <= Strip(line)) && !("ERROR " <= Strip(line))
    ensures Node(line) == ""
  {
  }

  /** The summary: the totals, and up to three tests. */
  lemma SummaryText(isTotals: string -> bool, output: string)
    ensures var named, totals := Named(SplitLines(output)), Totals(isTotals, SplitLines(output));
            var text := if |named| == 0 then totals
                        else if |named| == 1 then totals + " | failed: " + named[0]
                        else if |named| == 2 then totals + " | failed: " + (named[0] + ", " + named[1])
                        else totals + " | failed: " + (named[0] + ", " + named[1] + ", " + named[2]);
            Summary(isTotals, output) == if |text| <= 300 then text else text[..300]
  {
    var named := Named(SplitLines(output));
    CommasOfThree(Take(named, 3));
  }

  lemma CommasOfThree(nodes: seq<string>)
    ensures |nodes| == 1 ==> Commas(nodes) == nodes[0]
    ensures |nodes| == 2 ==> Commas(nodes) == nodes[0] + ", " + nodes[1]
    ensures |nodes| == 3 ==> Commas(nodes) == nodes[0] + ", " + nodes[1] + ", " + nodes[2]
  {
    if |nodes| >= 2 {
      var front := nodes[..|nodes| - 1];
      if |nodes| == 3 {
        assert front[..1] == [front[0]];
      }
    }
  }

  // ---- through the gate comment -----------------------------------------------------------

  lemma {:induction false} TotalsIsOneLine(isTotals: string -> bool, lines: seq<string>)
    requires forall line <- lines :: OneLine(line)
    ensures OneLine(Totals(isTotals, lines))
    decreases |lines|
  {
    if lines != [] {
      TotalsIsOneLine(isTotals, lines[..|lines| - 1]);
      assert lines[|lines| - 1] in lines;
    }
  }

  lemma {:induction false} CommasIsOneLine(nodes: seq<string>)
    requires forall node <- nodes :: OneLine(node)
    ensures OneLine(Commas(nodes))
    decreases |nodes|
  {
    if |nodes| > 1 {
      CommasIsOneLine(nodes[..|nodes| - 1]);
      assert nodes[|nodes| - 1] in nodes;
      GateRecord.OneLineConcat(Commas(nodes[..|nodes| - 1]), ", ");
    }
  }

  lemma {:induction false} SummaryIsOneLine(isTotals: string -> bool, output: string)
    ensures OneLine(Summary(isTotals, output)) && |Summary(isTotals, output)| <= 300
  {
    var lines := SplitLines(output);
    var failures := Take(Named(lines), 3);
    TotalsIsOneLine(isTotals, lines);
    NamedOnce(lines);
    forall node | node in failures
      ensures OneLine(node)
    {
      assert node in Named(lines);
    }
    CommasIsOneLine(failures);
    GateRecord.OneLineConcat(Totals(isTotals, lines), " | failed: ");
  }

  /** How a test run of the gate can end. */
  datatype Run = SquashConflict(code: int) | TimedOut | Finished(output: string, code: int)

  function RunSummary(isTotals: string -> bool, run: Run): string {
    match run
    case SquashConflict(_) => "pytest not run: squash conflict"
    case TimedOut => "pytest timed out after 7200s"
    case Finished(output, _) => Summary(isTotals, output)
  }

  function ExitCode(run: Run): int {
    match run
    case SquashConflict(code) => code
    case TimedOut => 124
    case Finished(_, code) => code
  }

  /** Whatever the tests print and however the run ends, a reader of the gate comment gets
      back head, main, summary and exit code. */
  lemma {:induction false} RecordRoundTrip(isTotals: string -> bool, head: string, main: string, run: Run)
    requires OneLine(head) && OneLine(main)
    ensures GateRecord.ReadLines(GateRecord.EMPTY,
                                 SplitLines(GateRecord.GateComment(head, main, RunSummary(isTotals, run), ExitCode(run)))) ==
            GateRecord.Payload(Some(head), Some(main), Some(RunSummary(isTotals, run)), Some(ExitCode(run)))
  {
    if run.Finished? {
      SummaryIsOneLine(isTotals, run.output);
    }
    GateRecord.PayloadRoundTrip(head, main, RunSummary(isTotals, run), ExitCode(run));
  }
}
