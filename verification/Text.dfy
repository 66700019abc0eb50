/** First-occurrence search over strings, as Python's `str.find`, and the facts
    about concatenation that the splicing proofs need. */
module Text {

  predicate OccursAt(s: string, t: string, i: int) {
    0 <= i && i + |t| <= |s| && forall k :: 0 <= k < |t| ==> s[i + k] == t[k]
  }

  /** `s.find(t)`: the first index at which `t` occurs, or -1. */
  function Find(s: string, t: string): (r: int)
    ensures r == -1 || OccursAt(s, t, r)
    ensures forall i :: OccursAt(s, t, i) ==> 0 <= r <= i
  {
    FindFrom(s, t, 0)
  }

  function FindFrom(s: string, t: string, start: nat): (r: int)
    requires start <= |s|
    ensures r == -1 || (start <= r && OccursAt(s, t, r))
    ensures forall i :: start <= i && OccursAt(s, t, i) ==> 0 <= r <= i
    decreases |s| - start
  {
    if OccursAt(s, t, start) then start
    else if start == |s| then -1
    else FindFrom(s, t, start + 1)
  }

  predicate Contains(s: string, t: string) {
    Find(s, t) != -1
  }

  /** Past its first character `t` does not hold `c`. */
  predicate OnlyFirst(t: string, c: char) {
    forall k :: 1 <= k < |t| ==> t[k] != c
  }

  lemma OccursInRight(x: string, y: string, t: string, i: int)
    requires i >= |x|
    ensures OccursAt(x + y, t, i) <==> OccursAt(y, t, i - |x|)
  {
  }

  /** No occurrence of `t` starts in `x` and runs into `y`, because the first
      character of `y` can only be the first character of `t`. */
  lemma NoStraddle(x: string, y: string, t: string, i: int)
    requires t != "" && y != "" && OnlyFirst(t, y[0])
    requires i < |x|
    ensures OccursAt(x + y, t, i) <==> OccursAt(x, t, i)
  {
    var k := |x| - i;
    assert 1 <= k < |t| ==> t[k] != y[0];
    assert (x + y)[|x|] == y[0];
  }

  /** Occurrences of `t` and `u` in the same text do not overlap when the first
      character of `u` can only be the first character of `t`. */
  lemma Apart(s: string, t: string, u: string, i: int, j: int)
    requires u != "" && OnlyFirst(t, u[0])
    requires OccursAt(s, t, i) && OccursAt(s, u, j) && i < j
    ensures i + |t| <= j
  {
    assert s[j + 0] == u[0];
    var probe := CharAt(t, j - i);
  }

  function CharAt(s: string, i: int): char {
    if 0 <= i < |s| then s[i] else ' '
  }

  /** A first part without `t` is skipped by the search. */
  lemma FindAfter(x: string, y: string, t: string)
    requires t != "" && y != "" && OnlyFirst(t, y[0])
    requires !Contains(x, t) && Contains(y, t)
    ensures Find(x + y, t) == |x| + Find(y, t) && Contains(x + y, t)
  {
    var r := Find(x + y, t);
    OccursInRight(x, y, t, |x| + Find(y, t));
    if r < |x| {
      NoStraddle(x, y, t, r);
    } else {
      OccursInRight(x, y, t, r);
    }
  }

  /** A character that cannot start `t` is skipped by the search. */
  lemma FindSkip(c: char, y: string, t: string)
    requires t != "" && t[0] != c && Contains(y, t)
    ensures Find([c] + y, t) == 1 + Find(y, t) && Contains([c] + y, t)
  {
    var r := Find([c] + y, t);
    OccursInRight([c], y, t, 1 + Find(y, t));
    assert ([c] + y)[0 + 0] == c;
    assert r != 0;
    OccursInRight([c], y, t, r);
  }

  /** An occurrence in the first part decides the search. */
  lemma FindInLeft(x: string, y: string, t: string)
    requires Contains(x, t)
    ensures Find(x + y, t) == Find(x, t) && Contains(x + y, t)
  {
    assert OccursAt(x + y, t, Find(x, t));
    assert OccursAt(x, t, Find(x + y, t));
  }

  lemma FindAtFront(t: string, y: string)
    ensures Find(t + y, t) == 0 && Contains(t + y, t)
  {
    assert OccursAt(t + y, t, 0);
  }

  /** A text without some character of `t` does not hold `t`. */
  lemma LacksCharacter(s: string, t: string, k: nat)
    requires k < |t| && t[k] !in s
    ensures !Contains(s, t)
  {
    var i, probe := Find(s, t), CharAt(t, k);
    assert i >= 0 ==> CharAt(s, i + k) in s || i + k >= |s|;
  }

  // ---- order -----------------------------------------------------------------

  /** Code-point order of strings. */
  predicate TextLeq(s: string, t: string) {
    s == "" || (t != "" && (s[0] < t[0] || (s[0] == t[0] && TextLeq(s[1..], t[1..]))))
  }

  lemma TextLeqTotal(s: string, t: string)
    ensures TextLeq(s, t) || TextLeq(t, s)
    ensures TextLeq(s, t) && TextLeq(t, s) ==> s == t
  {
    if s != "" && t != "" && s[0] == t[0] {
      TextLeqTotal(s[1..], t[1..]);
      assert s == [s[0]] + s[1..] && t == [t[0]] + t[1..];
    }
  }

  /** At the first position where they differ, `s` has the smaller character, or ends. */
  ghost predicate SmallerText(s: string, t: string) {
    exists n :: 0 <= n <= |s| && n < |t| && s[..n] == t[..n] && (n == |s| || s[n] < t[n])
  }

  lemma TextLeqMeans(s: string, t: string)
    ensures TextLeq(s, t) <==> s == t || SmallerText(s, t)
  {
    if SmallerText(s, t) {
      var n :| 0 <= n <= |s| && n < |t| && s[..n] == t[..n] && (n == |s| || s[n] < t[n]);
      SmallerIsLeq(s, t, n);
    }
    if TextLeq(s, t) && s != t {
      var n := LeqDiffers(s, t);
    }
  }

  lemma {:induction false} SmallerIsLeq(s: string, t: string, n: nat)
    requires n <= |s| && n < |t| && s[..n] == t[..n] && (n == |s| || s[n] < t[n])
    ensures TextLeq(s, t)
  {
    if n > 0 {
      assert s[0] == s[..n][0] == t[0];
      assert s[1..][..n - 1] == s[..n][1..] && t[1..][..n - 1] == t[..n][1..];
      SmallerIsLeq(s[1..], t[1..], n - 1);
    }
  }

  lemma {:induction false} LeqDiffers(s: string, t: string) returns (n: nat)
    requires TextLeq(s, t) && s != t
    ensures n <= |s| && n < |t| && s[..n] == t[..n] && (n == |s| || s[n] < t[n])
  {
    if s == "" || s[0] < t[0] {
      n := 0;
    } else {
      assert s == [s[0]] + s[1..] && t == [t[0]] + t[1..];
      n := LeqDiffers(s[1..], t[1..]);
      assert s[..n + 1] == [s[0]] + s[1..][..n] && t[..n + 1] == [t[0]] + t[1..][..n];
      n := n + 1;
    }
  }

  lemma TextLeqTransitive(s: string, t: string, u: string)
    requires TextLeq(s, t) && TextLeq(t, u)
    ensures TextLeq(s, u)
  {
  }

  // ---- white space, as `str.strip` ------------------------------------------

  predicate IsSpace(c: char) {
    || '\t' <= c <= '\r'
    || '\U{1c}' <= c <= ' '
    || c == '\U{85}' || c == '\U{a0}' || c == '\U{1680}'
    || '\U{2000}' <= c <= '\U{200a}'
    || c == '\U{2028}' || c == '\U{2029}' || c == '\U{202f}' || c == '\U{205f}' || c == '\U{3000}'
  }

  predicate Blank(s: string) {
    forall c <- s :: IsSpace(c)
  }

  /** `s.strip()`: nothing but outer white space is dropped. */
  function Strip(s: string): (r: string)
    ensures r == "" <==> Blank(s)
    ensures forall c <- r :: c in s
    ensures r != "" ==> !IsSpace(r[0]) && !IsSpace(r[|r| - 1])
  {
    if s == "" then ""
    else if IsSpace(s[0]) then Strip(s[1..])
    else if IsSpace(s[|s| - 1]) then Strip(s[..|s| - 1])
    else s
  }

  /** The white space characters, one by one. */
  lemma SpaceCharacters(c: char)
    ensures IsSpace(c) <==> c in "\t\n\U{0b}\U{0c}\r\U{1c}\U{1d}\U{1e}\U{1f} \U{85}\U{a0}\U{1680}"
                            + "\U{2000}\U{2001}\U{2002}\U{2003}\U{2004}\U{2005}\U{2006}\U{2007}\U{2008}\U{2009}\U{200a}"
                            + "\U{2028}\U{2029}\U{202f}\U{205f}\U{3000}"
  {
  }

  /** Stripping takes white space off both ends, and nothing else. */
  lemma {:induction false} StripSplits(s: string) returns (a: string, b: string)
    ensures s == a + Strip(s) + b && Blank(a) && Blank(b)
    decreases |s|
  {
    if s == "" {
      a, b := "", "";
    } else if IsSpace(s[0]) {
      a, b := StripSplits(s[1..]);
      assert s == [s[0]] + s[1..];
      assert [s[0]] + (a + Strip(s[1..]) + b) == ([s[0]] + a) + Strip(s[1..]) + b;
      a := [s[0]] + a;
    } else if IsSpace(s[|s| - 1]) {
      var n := |s| - 1;
      a, b := StripSplits(s[..n]);
      assert s == s[..n] + [s[n]];
      assert (a + Strip(s[..n]) + b) + [s[n]] == a + Strip(s[..n]) + (b + [s[n]]);
      b := b + [s[n]];
    } else {
      a, b := "", "";
      assert "" + s + "" == s;
    }
  }

  predicate Trim(t: string) {
    t != "" && !IsSpace(t[0]) && !IsSpace(t[|t| - 1])
  }

  /** Whatever white space stands around a text, stripping gives the text. */
  lemma {:induction false} StripOfPadded(a: string, t: string, b: string)
    requires Blank(a) && Trim(t) && Blank(b)
    ensures Strip(a + t + b) == t
    decreases |a| + |b|
  {
    var s := a + t + b;
    if a != "" {
      assert s[0] == a[0] && a[0] in a && s[1..] == a[1..] + t + b;
      assert forall c <- a[1..] :: c in a;
      StripOfPadded(a[1..], t, b);
    } else if b != "" {
      var n := |b| - 1;
      assert s[0] == t[0] && s[|s| - 1] == b[n] && b[n] in b && s[..|s| - 1] == a + t + b[..n];
      assert forall c <- b[..n] :: c in b;
      StripOfPadded(a, t, b[..n]);
    } else {
      assert s == t;
    }
  }

  /** Stripping gives `t` exactly for the paddings of `t`. */
  lemma StripMeans(s: string, t: string)
    requires Trim(t)
    ensures Strip(s) == t <==> exists a, b :: Blank(a) && Blank(b) && s == a + t + b
  {
    if Strip(s) == t {
      var a, b := StripSplits(s);
    }
    if a, b :| Blank(a) && Blank(b) && s == a + t + b {
      StripOfPadded(a, t, b);
    }
  }
}
