/** The gate comment of the merge gate: written once, and read back to deliver the same
    result to the blackboard. Also the one-line summary of a test run. */
module GateRecord {
  import opened Text
  import opened TextLines
  import opened Wrappers

  const MARKER := "[agent_crew premerge gate]"

  // ---- decimal integers ---------------------------------------------------------------

  function Digit(n: nat): char
    requires n < 10
  {
    (48 + n) as char
  }

  predicate IsDigit(c: char) {
    '0' <= c <= '9'
  }

  function PrintNat(n: nat): (s: string)
    ensures AllDigits(s)
  {
    if n < 10 then [Digit(n)] else PrintNat(n / 10) + [Digit(n % 10)]
  }

  /** `str(n)` */
  function PrintInt(n: int): string {
    if n < 0 then "-" + PrintNat(-n) else PrintNat(n)
  }

  function DigitValue(c: char): int {
    if IsDigit(c) then (c as int) - 48 else 0
  }

  function ParseNat(s: string): int {
    if s == "" then 0 else 10 * ParseNat(s[..|s| - 1]) + DigitValue(s[|s| - 1])
  }

  predicate AllDigits(s: string) {
    s != "" && forall c <- s :: IsDigit(c)
  }

  /** `int(s)`, which raises on anything but an optionally signed decimal number. */
  function ParseInt(s: string): Option<int> {
    var t := Strip(s);
    if AllDigits(t) then Some(ParseNat(t))
    else if t != "" && t[0] == '-' && AllDigits(t[1..]) then Some(-ParseNat(t[1..]))
    else if t != "" && t[0] == '+' && AllDigits(t[1..]) then Some(ParseNat(t[1..]))
    else None
  }

  lemma ParsePrintNat(n: nat)
    ensures ParseNat(PrintNat(n)) == n
  {
    var s := PrintNat(n);
    if n >= 10 {
      ParsePrintNat(n / 10);
      assert s[..|s| - 1] == PrintNat(n / 10);
    } else {
      assert s[..|s| - 1] == "";
    }
  }

  lemma StripIsIdentity(s: string)
    requires s != "" && !IsSpace(s[0]) && !IsSpace(s[|s| - 1])
    ensures Strip(s) == s
  {
  }

  lemma {:induction false} ParseOfDigits(digits: string)
    requires AllDigits(digits)
    ensures ParseInt(digits) == Some(ParseNat(digits))
  {
    assert digits[0] in digits && digits[|digits| - 1] in digits;
    StripIsIdentity(digits);
  }

  lemma ParseOfNegative(digits: string)
    requires AllDigits(digits)
    ensures ParseInt("-" + digits) == Some(-ParseNat(digits))
  {
    var text := "-" + digits;
    assert digits[|digits| - 1] in digits && text[|text| - 1] == digits[|digits| - 1];
    StripIsIdentity(text);
    assert text[1..] == digits;
    assert text[0] in text;
  }

  /** Printing and parsing an integer, negative ones included. */
  lemma ParsePrintInt(n: int)
    ensures ParseInt(PrintInt(n)) == Some(n)
    ensures OneLine(PrintInt(n))
  {
    var size: nat := if n < 0 then -n else n;
    ParsePrintNat(size);
    ParseOfDigits(PrintNat(size));
    ParseOfNegative(PrintNat(size));
    OneLineConcat("-", PrintNat(size));
  }

  // ---- the comment and its reader -------------------------------------------------------

  function GateLines(head: string, main: string, summary: string, exitCode: int): seq<string> {
    [MARKER, "HEAD " + head, "MAIN " + main, "pytest: " + summary, "EXIT " + PrintInt(exitCode)]
  }

  /** The body that `gate_comment` builds. */
  function GateComment(head: string, main: string, summary: string, exitCode: int): string {
    MARKER + "\n"
    + ("HEAD " + head) + "\n" + ("MAIN " + main) + "\n"
    + ("pytest: " + summary) + "\n" + ("EXIT " + PrintInt(exitCode)) + "\n"
  }

  /** The fields found so far; `Raised` when an exit line holds no integer. */
  datatype Payload =
    | Payload(head: Option<string>, main: Option<string>, summary: Option<string>, exitCode: Option<int>)
    | Raised

  const EMPTY := Payload(None, None, None, None)

  function ReadLine(p: Payload, line: string): Payload {
    if p.Raised? then Raised
    else if "HEAD " <= line then p.(head := Some(line[5..]))
    else if "MAIN " <= line then p.(main := Some(line[5..]))
    else if "pytest: " <= line then p.(summary := Some(line[8..]))
    else if "EXIT " <= line then
      match ParseInt(line[5..])
      case Some(n) => p.(exitCode := Some(n))
      case None => Raised
    else p
  }

  function ReadLines(p: Payload, lines: seq<string>): Payload
    decreases |lines|
  {
    if lines == [] then p else ReadLines(ReadLine(p, lines[0]), lines[1..])
  }

  /** `gate_payload` */
  method GatePayload(body: string) returns (fields: Payload)
    ensures fields == ReadLines(EMPTY, SplitLines(body))
  {
    var lines := SplitLines(body);
    fields := EMPTY;
    for i := 0 to |lines|
      invariant ReadLines(fields, lines[i..]) == ReadLines(EMPTY, lines)
    {
      assert lines[i..][1..] == lines[i + 1..];
      fields := ReadLine(fields, lines[i]);
    }
  }

  /** Lines that each end with a line feed. */
  function Terminated(lines: seq<string>): string {
    if lines == [] then "" else lines[0] + ("\n" + Terminated(lines[1..]))
  }

  lemma {:induction false} SplitTerminated(lines: seq<string>)
    requires forall line <- lines :: OneLine(line)
    ensures SplitLines(Terminated(lines)) == lines
  {
    if lines != [] {
      SplitTerminated(lines[1..]);
      SplitFirstLine(lines[0], Terminated(lines[1..]));
    }
  }

  lemma OneLineConcat(x: string, y: string)
    requires OneLine(x) && OneLine(y)
    ensures OneLine(x + y)
  {
  }

  lemma CommentShape(a: string, b: string, c: string, d: string, e: string)
    ensures a + "\n" + b + "\n" + c + "\n" + d + "\n" + e + "\n" == Terminated([a, b, c, d, e])
  {
    var lines := [a, b, c, d, e];
    assert lines[1..] == [b, c, d, e] && lines[1..][1..] == [c, d, e] && lines[1..][1..][1..] == [d, e];
    assert [d, e][1..] == [e] && [e][1..] == [];
    assert Terminated([e]) == e + "\n";
    assert Terminated([d, e]) == d + "\n" + e + "\n";
    assert Terminated([c, d, e]) == c + "\n" + d + "\n" + e + "\n";
    assert Terminated([b, c, d, e]) == b + "\n" + c + "\n" + d + "\n" + e + "\n";
  }

  lemma LabelsAreOneLine()
    ensures OneLine("HEAD ") && OneLine("MAIN ") && OneLine("pytest: ") && OneLine("EXIT ") && OneLine(MARKER)
  {
  }

  lemma GateLinesAreLines(head: string, main: string, summary: string, exitCode: int)
    requires OneLine(head) && OneLine(main) && OneLine(summary)
    ensures forall line <- GateLines(head, main, summary, exitCode) :: OneLine(line)
  {
    ParsePrintInt(exitCode);
    LabelsAreOneLine();
    OneLineConcat("HEAD ", head);
    OneLineConcat("MAIN ", main);
    OneLineConcat("pytest: ", summary);
    OneLineConcat("EXIT ", PrintInt(exitCode));
  }

  lemma {:induction false} CommentLines(head: string, main: string, summary: string, exitCode: int)
    requires OneLine(head) && OneLine(main) && OneLine(summary)
    ensures SplitLines(GateComment(head, main, summary, exitCode)) == GateLines(head, main, summary, exitCode)
  {
    GateLinesAreLines(head, main, summary, exitCode);
    CommentShape(MARKER, "HEAD " + head, "MAIN " + main, "pytest: " + summary, "EXIT " + PrintInt(exitCode));
    SplitTerminated(GateLines(head, main, summary, exitCode));
  }

  lemma ReadLabelled(p: Payload, value: string)
    requires !p.Raised?
    ensures ReadLine(p, MARKER) == p
    ensures ReadLine(p, "HEAD " + value) == p.(head := Some(value))
    ensures ReadLine(p, "MAIN " + value) == p.(main := Some(value))
    ensures ReadLine(p, "pytest: " + value) == p.(summary := Some(value))
  {
    assert MARKER[0] == '[' && ("MAIN " + value)[0] == 'M' && ("pytest: " + value)[0] == 'p';
    assert ("HEAD " + value)[5..] == value && ("MAIN " + value)[5..] == value;
    assert ("pytest: " + value)[8..] == value;
  }

  lemma ReadExit(p: Payload, n: int)
    requires !p.Raised?
    ensures ReadLine(p, "EXIT " + PrintInt(n)) == p.(exitCode := Some(n))
  {
    var printed := PrintInt(n);
    ParsePrintInt(n);
    assert ("EXIT " + printed)[0] == 'E';
    assert ("EXIT " + printed)[5..] == printed;
  }

  /** What the reader gets from any gate comment is what was written, the exit code
      printed and parsed included. */
  lemma {:induction false} PayloadRoundTrip(head: string, main: string, summary: string, exitCode: int)
    requires OneLine(head) && OneLine(main) && OneLine(summary)
    ensures ReadLines(EMPTY, SplitLines(GateComment(head, main, summary, exitCode))) ==
            Payload(Some(head), Some(main), Some(summary), Some(exitCode))
  {
    CommentLines(head, main, summary, exitCode);
    var p1 := EMPTY.(head := Some(head));
    var p2 := p1.(main := Some(main));
    var p3 := p2.(summary := Some(summary));
    ReadLabelled(EMPTY, head);
    ReadLabelled(p1, main);
    ReadLabelled(p2, summary);
    ReadExit(p3, exitCode);
    FoldFive(GateLines(head, main, summary, exitCode));
  }

  /** The comment, character by character. */
  lemma CommentText(head: string, main: string, summary: string, exitCode: int)
    ensures GateComment(head, main, summary, exitCode) ==
            "[agent_crew premerge gate]" + "\n" + ("HEAD " + head) + "\n" + ("MAIN " + main) + "\n"
            + ("pytest: " + summary) + "\n" + ("EXIT " + PrintInt(exitCode)) + "\n"
  {
  }

  /** Decimal digits, the highest first. */
  lemma PrintedDigits(n: nat, d: nat)
    requires d < 10
    ensures d < |"0123456789"| && PrintInt(d) == ["0123456789"[d]]
    ensures n > 0 ==> PrintInt(10 * n + d) == PrintInt(n) + ["0123456789"[d]]
    ensures n > 0 ==> PrintInt(0 - n) == "-" + PrintInt(n)
  {
    assert "0123456789"[d] == Digit(d);
  }

  lemma FoldFive(lines: seq<string>)
    requires |lines| == 5
    ensures ReadLines(EMPTY, lines) ==
            ReadLine(ReadLine(ReadLine(ReadLine(ReadLine(EMPTY, lines[0]), lines[1]), lines[2]), lines[3]), lines[4])
  {
    var l1 := lines[1..];
    var l2 := l1[1..];
    var l3 := l2[1..];
    var l4 := l3[1..];
    var p1 := ReadLine(EMPTY, lines[0]);
    var p2 := ReadLine(p1, l1[0]);
    var p3 := ReadLine(p2, l2[0]);
    var p4 := ReadLine(p3, l3[0]);
    assert ReadLines(p4, l4) == ReadLine(p4, l4[0]) by { assert l4[1..] == []; }
    assert ReadLines(p3, l3) == ReadLines(p4, l4);
    assert ReadLines(p2, l2) == ReadLines(p3, l3);
    assert ReadLines(p1, l1) == ReadLines(p2, l2);
  }
}
