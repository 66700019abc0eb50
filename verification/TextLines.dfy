/** Lines of a text, as Python's `str.splitlines` and `"\n".join` see them, and counting
    of occurrences as `str.count`. */
module TextLines {
  import opened Text

  predicate IsLineBreak(c: char) {
    '\n' <= c <= '\r' || '\U{1c}' <= c <= '\U{1e}' || c == '\U{85}' || c == '\U{2028}' || c == '\U{2029}'
  }

  /** One line: no line break of any kind. */
  predicate OneLine(s: string) {
    forall c <- s :: !IsLineBreak(c)
  }

  function LineLength(s: string): (n: nat)
    ensures n <= |s| && OneLine(s[..n])
    ensures n < |s| ==> IsLineBreak(s[n])
  {
    if s == "" || IsLineBreak(s[0]) then 0 else 1 + LineLength(s[1..])
  }

  /** A carriage return and the line feed after it are one break. */
  function BreakLength(s: string): (n: nat)
    requires s != ""
    ensures 1 <= n <= |s|
  {
    if s[0] == '\r' && |s| > 1 && s[1] == '\n' then 2 else 1
  }

  /** `s.splitlines()` */
  function SplitLines(s: string): (lines: seq<string>)
    ensures forall line <- lines :: OneLine(line)
    decreases |s|
  {
    if s == "" then []
    else
      var n := LineLength(s);
      if n == |s| then [s[..n]]
      else [s[..n]] + SplitLines(s[n..][BreakLength(s[n..])..])
  }

  /** `"\n".join(lines)` */
  function Join(lines: seq<string>): string {
    if lines == [] then ""
    else if |lines| == 1 then lines[0]
    else lines[0] + ("\n" + Join(lines[1..]))
  }

  lemma LineLengthConcat(x: string, y: string)
    ensures LineLength(x + y) == if LineLength(x) < |x| then LineLength(x) else |x| + LineLength(y)
  {
    if x == "" {
      assert x + y == y;
    } else {
      assert (x + y)[1..] == x[1..] + y;
      LineLengthConcat(x[1..], y);
    }
  }

  lemma OneLineLength(s: string)
    requires OneLine(s)
    ensures LineLength(s) == |s|
  {
  }

  lemma SplitOneLine(a: string)
    requires OneLine(a) && a != ""
    ensures SplitLines(a) == [a]
  {
    OneLineLength(a);
    assert a[..|a|] == a;
  }

  /** A line that ends with a line feed, and the rest. */
  lemma SplitFirstLine(a: string, y: string)
    requires OneLine(a)
    ensures SplitLines(a + ("\n" + y)) == [a] + SplitLines(y)
  {
    var s := a + ("\n" + y);
    OneLineLength(a);
    LineLengthConcat(a, "\n" + y);
    assert s[..|a|] == a;
    assert s[|a|..] == "\n" + y;
    assert ("\n" + y)[1..] == y;
  }

  lemma CutConcat(x: string, y: string, n: nat)
    requires n <= |x|
    ensures (x + y)[..n] == x[..n]
    ensures (x + y)[n..] == x[n..] + y
  {
  }

  /** One round of `SplitLines` on a text with a line break. */
  lemma SplitRound(s: string, n: nat)
    requires n == LineLength(s) < |s|
    ensures SplitLines(s) == [s[..n]] + SplitLines(s[n..][BreakLength(s[n..])..])
  {
  }

  /** A line feed separates what is before it from what is after it. */
  lemma {:induction false} SplitAtLineFeed(x: string, y: string) returns (before: seq<string>)
    ensures SplitLines(x + ("\n" + y)) == before + SplitLines(y)
    decreases |x|
  {
    var n := LineLength(x);
    if n == |x| {
      assert x[..n] == x;
      SplitFirstLine(x, y);
      before := [x];
    } else {
      SplitFirstOfTwo(x, "\n" + y, n);
      before := SplitAfterBreak(x[n..], y);
      RegroupLines(x[..n], before, SplitLines(y));
      before := [x[..n]] + before;
    }
  }

  lemma SplitFirstOfTwo(x: string, y: string, n: nat)
    requires n == LineLength(x) < |x|
    ensures var s := x[n..] + y; SplitLines(x + y) == [x[..n]] + SplitLines(s[BreakLength(s)..])
  {
    LineLengthConcat(x, y);
    CutConcat(x, y, n);
    SplitRound(x + y, n);
  }

  lemma RegroupLines(line: string, a: seq<string>, b: seq<string>)
    ensures [line] + (a + b) == ([line] + a) + b
  {
  }

  lemma {:induction false} SplitAfterBreak(rest: string, y: string) returns (before: seq<string>)
    requires rest != ""
    ensures var s := rest + ("\n" + y);
            SplitLines(s[BreakLength(s)..]) == before + SplitLines(y)
    decreases |rest|, 0
  {
    var s := rest + ("\n" + y);
    if |rest| == 1 && rest[0] == '\r' {
      assert s[2..] == y;
      before := [];
    } else {
      var k := BreakLength(rest);
      assert BreakLength(s) == k;
      CutConcat(rest, "\n" + y, k);
      before := SplitAtLineFeed(rest[k..], y);
    }
  }

  /** The line breaks, one by one. */
  lemma BreakCharacters(c: char)
    ensures IsLineBreak(c) <==> c in "\n\r\U{0b}\U{0c}\U{1c}\U{1d}\U{1e}\U{85}\U{2028}\U{2029}"
  {
  }

  /** Any line break ends a line, and a carriage return with a line feed ends it once. */
  lemma SplitAtBreak(line: string, sep: string, rest: string)
    requires OneLine(line)
    requires sep == "\r\n" || (|sep| == 1 && IsLineBreak(sep[0]) && !(sep == "\r" && rest != "" && rest[0] == '\n'))
    ensures SplitLines(line + (sep + rest)) == [line] + SplitLines(rest)
  {
    var s := line + (sep + rest);
    OneLineLength(line);
    LineLengthConcat(line, sep + rest);
    assert IsLineBreak(sep[0]) && (sep + rest)[0] == sep[0];
    assert LineLength(sep + rest) == 0;
    SplitRound(s, |line|);
    assert s[..|line|] == line && s[|line|..] == sep + rest;
    assert (sep + rest)[|sep|..] == rest;
  }

  // ---- counting ---------------------------------------------------------------------

  /** `s.count(t)`: occurrences from left to right that do not overlap. */
  function Count(s: string, t: string): nat
    requires t != ""
    decreases |s|
  {
    var i := Find(s, t);
    if i == -1 then 0 else 1 + Count(s[i + |t|..], t)
  }

  lemma CountIsZero(s: string, t: string)
    requires t != ""
    ensures Count(s, t) == 0 <==> !Contains(s, t)
  {
  }

  lemma FindAcrossLines(x: string, y: string, t: string)
    requires t != "" && '\n' !in t
    ensures Find(x + ("\n" + y), t) ==
            if Contains(x, t) then Find(x, t)
            else if Contains(y, t) then |x| + 1 + Find(y, t) else -1
  {
    var line := "\n" + y;
    assert OnlyFirst(t, '\n') && t[0] != '\n';
    assert ['\n'] + y == line;
    if Contains(x, t) {
      FindInLeft(x, line, t);
    } else if Contains(y, t) {
      FindSkip('\n', y, t);
      FindAfter(x, line, t);
    } else {
      var r := Find(x + line, t);
      if 0 <= r < |x| {
        NoStraddle(x, line, t, r);
      } else if r >= |x| {
        OccursInRight(x, line, t, r);
        assert line[0] == '\n';
        var probe := CharAt(t, 0);
        if r > |x| {
          OccursInRight(['\n'], y, t, r - |x|);
        }
      }
    }
  }

  lemma CountRound(s: string, t: string)
    requires t != "" && Contains(s, t)
    ensures Count(s, t) == 1 + Count(s[Find(s, t) + |t|..], t)
  {
  }

  lemma CountFrom(s: string, t: string, at: nat, rest: string)
    requires t != "" && Find(s, t) == at && s[at + |t|..] == rest
    ensures Count(s, t) == 1 + Count(rest, t)
  {
  }

  lemma CountAfterCleanLine(x: string, y: string, t: string)
    requires t != "" && '\n' !in t && !Contains(x, t)
    ensures Count(x + ("\n" + y), t) == Count(y, t)
  {
    FindAcrossLines(x, y, t);
    var at := Find(y, t);
    if at == -1 {
      CountIsZero(y, t);
      CountIsZero(x + ("\n" + y), t);
    } else {
      DropFront(x, y, at + |t|);
      CountFrom(y, t, at, y[at + |t|..]);
      CountFrom(x + ("\n" + y), t, |x| + 1 + at, y[at + |t|..]);
    }
  }

  lemma CountFirstOfTwo(x: string, line: string, t: string, at: nat)
    requires t != "" && Find(x + line, t) == at && at + |t| <= |x|
    ensures Count(x + line, t) == 1 + Count(x[at + |t|..] + line, t)
  {
    CutConcat(x, line, at + |t|);
    CountFrom(x + line, t, at, x[at + |t|..] + line);
  }

  lemma {:induction false} CountOneMore(x: string, y: string, t: string) returns (k: nat)
    requires t != "" && '\n' !in t && Contains(x, t)
    ensures 0 < k <= |x|
    ensures Count(x, t) == 1 + Count(x[k..], t)
    ensures Count(x + ("\n" + y), t) == 1 + Count(x[k..] + ("\n" + y), t)
  {
    k := Find(x, t) + |t|;
    FindAcrossLines(x, y, t);
    CountFirstOfTwo(x, "\n" + y, t, Find(x, t));
    CountRound(x, t);
  }

  /** What holds no line feed is counted line by line. */
  lemma {:induction false} CountAcrossLines(x: string, y: string, t: string)
    requires t != "" && '\n' !in t
    ensures Count(x + ("\n" + y), t) == Count(x, t) + Count(y, t)
    decreases |x|
  {
    if Contains(x, t) {
      var k := CountOneMore(x, y, t);
      CountAcrossLines(x[k..], y, t);
    } else {
      CountIsZero(x, t);
      CountAfterCleanLine(x, y, t);
    }
  }

  lemma DropFront(x: string, y: string, k: nat)
    requires k <= |y|
    ensures (x + ("\n" + y))[|x| + 1 + k..] == y[k..]
  {
  }

  // ---- joined lines -------------------------------------------------------------------

  lemma {:induction false} JoinConcat(a: seq<string>, b: seq<string>)
    requires a != [] && b != []
    ensures Join(a + b) == Join(a) + ("\n" + Join(b))
  {
    if |a| == 1 {
      assert (a + b)[1..] == b;
    } else {
      assert (a + b)[1..] == a[1..] + b;
      JoinConcat(a[1..], b);
      assert a[0] + ("\n" + (Join(a[1..]) + ("\n" + Join(b)))) == (a[0] + ("\n" + Join(a[1..]))) + ("\n" + Join(b));
    }
  }

  /** The last two lines of a text whose last two parts are single lines. */
  lemma LastTwoLines(x: string, a: string, b: string) returns (before: seq<string>)
    requires OneLine(a) && OneLine(b) && b != ""
    ensures SplitLines(x + ("\n" + (a + ("\n" + b)))) == before + [a, b]
  {
    before := SplitAtLineFeed(x, a + ("\n" + b));
    SplitFirstLine(a, b);
    SplitOneLine(b);
    assert [a] + [b] == [a, b];
  }
}
