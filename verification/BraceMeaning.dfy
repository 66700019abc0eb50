/** What a brace pattern means, independently of the rewriting loop: a pattern is a
    tree, and its meaning is defined by recursion on the tree. One rewriting of the
    text is one reduction of the tree, and a reduction keeps the meaning. */
module BraceMeaning {
  import opened Text
  import opened Wrappers
  import opened BraceExpansion

  /** A balanced text. Inside a group, a comma at the top level separates alternatives. */
  datatype Pattern = End | Lit(c: char, rest: Pattern) | Braces(body: Pattern, rest: Pattern)

  function Render(p: Pattern): string {
    match p
    case End => ""
    case Lit(c, rest) => [c] + Render(rest)
    case Braces(body, rest) => "{" + (Render(body) + ("}" + Render(rest)))
  }

  /** Literals are not braces; every balanced text is the rendering of such a tree. */
  predicate Proper(p: Pattern) {
    match p
    case End => true
    case Lit(c, rest) => !IsBrace(c) && Proper(rest)
    case Braces(body, rest) => Proper(body) && Proper(rest)
  }

  predicate Flat(p: Pattern) {
    match p
    case End => true
    case Lit(_, rest) => Flat(rest)
    case Braces(_, _) => false
  }

  /** The meaning of a pattern. With `inGroup` set, of its first alternative. */
  ghost function Meaning(p: Pattern, inGroup: bool): set<string>
    decreases p, 0
  {
    match p
    case End => {""}
    case Lit(c, rest) =>
      if inGroup && c == ',' then {""}
      else set y | y in Meaning(rest, inGroup) :: [c] + y
    case Braces(body, rest) =>
      set x, y | x in Alternatives(body) && y in Meaning(rest, inGroup) :: Strip(x) + y
  }

  /** The meaning of a group body: the union over its alternatives. */
  ghost function Alternatives(p: Pattern): set<string>
    decreases p, 1
  {
    Meaning(p, true) + Later(p)
  }

  /** The meaning of the alternatives after the first one. */
  ghost function Later(p: Pattern): set<string>
    decreases p, 0
  {
    match p
    case End => {}
    case Lit(c, rest) => if c == ',' then Alternatives(rest) else Later(rest)
    case Braces(_, rest) => Later(rest)
  }

  // ---- every balanced text has a tree ---------------------------------------

  predicate Balanced(s: string, depth: nat) {
    if s == "" then depth == 0
    else if s[0] == '{' then Balanced(s[1..], depth + 1)
    else if s[0] == '}' then depth > 0 && Balanced(s[1..], depth - 1)
    else Balanced(s[1..], depth)
  }

  lemma Assoc(a: string, b: string, c: string)
    ensures a + b + c == a + (b + c)
  {
  }

  lemma RenderGroup(s: string, body: Pattern, rest: string, p: Pattern, tail: string)
    requires s != "" && s[0] == '{' && s[1..] == Render(body) + rest
    requires rest != "" && rest[0] == '}' && rest[1..] == Render(p) + tail
    ensures s == Render(Braces(body, p)) + tail
  {
    var b, q := Render(body), Render(p);
    FrontAndTail(s);
    FrontAndTail(rest);
    Assoc("}", q, tail);
    Assoc(b, "}" + q, tail);
    Assoc("{", b + ("}" + q), tail);
  }

  lemma FrontAndTail(s: string)
    requires s != ""
    ensures s == [s[0]] + s[1..]
  {
  }

  /** A text that is balanced up to `depth` closing braces, read up to the first of them. */
  lemma {:induction false} ReadPattern(s: string, depth: nat) returns (p: Pattern, tail: string)
    requires Balanced(s, depth)
    ensures Proper(p) && s == Render(p) + tail
    ensures if depth == 0 then tail == ""
            else |tail| > 0 && tail[0] == '}' && Balanced(tail[1..], depth - 1)
    decreases |s|
  {
    if s == "" || s[0] == '}' {
      p, tail := End, s;
    } else if s[0] == '{' {
      var body, rest := ReadPattern(s[1..], depth + 1);
      p, tail := ReadPattern(rest[1..], depth);
      RenderGroup(s, body, rest, p, tail);
      p := Braces(body, p);
    } else {
      p, tail := ReadPattern(s[1..], depth);
      p := Lit(s[0], p);
    }
  }

  lemma BalancedHasPattern(s: string) returns (p: Pattern)
    requires Balanced(s, 0)
    ensures Proper(p) && Render(p) == s
  {
    var tail;
    p, tail := ReadPattern(s, 0);
  }

  // ---- the rewriting step on trees ------------------------------------------

  function Prepend(s: string, p: Pattern): Pattern {
    if s == "" then p else Lit(s[0], Prepend(s[1..], p))
  }

  /** The leftmost innermost group replaced by its alternatives. */
  function Reduce(p: Pattern): (reduced: Option<seq<Pattern>>)
    ensures reduced.Some? ==> reduced.value != []
  {
    match p
    case End => None
    case Lit(c, rest) => MapOption(q => Lit(c, q), Reduce(rest))
    case Braces(body, rest) =>
      match Reduce(body)
      case Some(bodies) => Some(Map(b => Braces(b, rest), bodies))
      case None =>
        if Flat(body) && body != End then
          Some(Map(part => Prepend(Strip(part), rest), SplitComma(Render(body))))
        else MapOption(q => Braces(body, q), Reduce(rest))
  }

  lemma FirstBraceConcat(x: string, y: string)
    ensures FirstBrace(x + y) == if FirstBrace(x) < |x| then FirstBrace(x) else |x| + FirstBrace(y)
  {
    if x == "" {
      assert x + y == y;
    } else {
      assert (x + y)[1..] == x[1..] + y;
      FirstBraceConcat(x[1..], y);
    }
  }

  /** No '{' is left without a brace after it. */
  predicate Closed(s: string) {
    s == "" || ((s[0] == '{' ==> FirstBrace(s[1..]) < |s| - 1) && Closed(s[1..]))
  }

  lemma ClosedConcat(x: string, y: string)
    requires Closed(x) && Closed(y)
    ensures Closed(x + y)
  {
    if x == "" {
      assert x + y == y;
    } else {
      assert (x + y)[1..] == x[1..] + y;
      ClosedConcat(x[1..], y);
      FirstBraceConcat(x[1..], y);
    }
  }

  function Shift(x: string, g: Option<Group>): Option<Group> {
    match g
    case None => None
    case Some(v) => Some(v.(pre := x + v.pre))
  }

  /** A brace inside `x` decides whether a group opens at its front. */
  lemma FrontInLeft(x: string, y: string)
    requires x != "" && FirstBrace(x[1..]) < |x| - 1
    ensures FirstBrace((x + y)[1..]) == FirstBrace(x[1..])
    ensures OpensGroup(x + y) == OpensGroup(x)
  {
    assert (x + y)[1..] == x[1..] + y;
    FirstBraceConcat(x[1..], y);
  }

  lemma GroupHasBrace(s: string)
    requires FindGroup(s).Some?
    ensures FirstBrace(s) < |s|
  {
  }

  lemma FindGroupHere(s: string)
    requires OpensGroup(s)
    ensures var n := FirstBrace(s[1..]);
            FindGroup(s) == Some(Group("", s[1..][..n], s[n + 2..]))
  {
  }

  lemma FindGroupLater(s: string)
    requires s != "" && !OpensGroup(s)
    ensures FindGroup(s) == Shift([s[0]], FindGroup(s[1..]))
  {
  }

  /** A group found in the first part is found in the whole. */
  lemma {:induction false} GroupInLeft(x: string, y: string)
    requires FindGroup(x).Some?
    ensures FindGroup(x + y) == Some(FindGroup(x).value.(post := FindGroup(x).value.post + y))
  {
    assert (x + y)[1..] == x[1..] + y;
    var n := FirstBrace(x[1..]);
    if OpensGroup(x) {
      FrontInLeft(x, y);
      FindGroupHere(x);
      FindGroupHere(x + y);
      assert (x[1..] + y)[..n] == x[1..][..n];
      assert (x + y)[n + 2..] == x[n + 2..] + y;
    } else {
      FindGroupLater(x);
      GroupHasBrace(x[1..]);
      FrontInLeft(x, y);
      FindGroupLater(x + y);
      GroupInLeft(x[1..], y);
    }
  }

  lemma ShiftTwice(c: char, x: string, g: Option<Group>)
    ensures Shift([c], Shift(x, g)) == Shift([c] + x, g)
  {
    if g.Some? {
      assert [c] + (x + g.value.pre) == [c] + x + g.value.pre;
    }
  }

  /** A closed first part without a group is passed. */
  lemma {:induction false} GroupInRight(x: string, y: string)
    requires FindGroup(x) == None && Closed(x)
    ensures FindGroup(x + y) == Shift(x, FindGroup(y))
  {
    if x == "" {
      assert x + y == y;
      assert FindGroup(y).Some? ==> "" + FindGroup(y).value.pre == FindGroup(y).value.pre;
    } else {
      assert (x + y)[1..] == x[1..] + y;
      FindGroupLater(x);
      if x[0] == '{' {
        FrontInLeft(x, y);
      }
      FindGroupLater(x + y);
      GroupInRight(x[1..], y);
      ShiftTwice(x[0], x[1..], FindGroup(y));
      assert [x[0]] + x[1..] == x;
    }
  }

  /** Two ways to rewrite a list that agree item by item. */
  lemma MapTwice<A, B, C>(f: A -> B, g: B -> C, h: A -> C, xs: seq<A>)
    requires forall i :: 0 <= i < |xs| ==> g(f(xs[i])) == h(xs[i])
    ensures Map(g, Map(f, xs)) == Map(h, xs)
  {
  }

  function Filled(g: Group, part: string): string {
    g.pre + Strip(part) + g.post
  }

  lemma StepFills(s: string, g: Group)
    requires FindGroup(s) == Some(g)
    ensures Step(s) == Some(Map(part => Filled(g, part), SplitComma(g.content)))
  {
    assert Step(s).value == Map(part => Filled(g, part), SplitComma(g.content));
  }

  lemma FilledInRight(x: string, g: Group, part: string)
    ensures Filled(g.(pre := x + g.pre), part) == x + Filled(g, part)
  {
    Assoc(x, g.pre, Strip(part));
    Assoc(x, g.pre + Strip(part), g.post);
  }

  lemma {:induction false} StepInRight(x: string, y: string)
    requires FindGroup(x + y) == Shift(x, FindGroup(y))
    ensures Step(x + y) == MapOption(t => x + t, Step(y))
  {
    if FindGroup(y).Some? {
      var g := FindGroup(y).value;
      var h := g.(pre := x + g.pre);
      var parts := SplitComma(g.content);
      StepFills(y, g);
      StepFills(x + y, h);
      forall i | 0 <= i < |parts| ensures x + Filled(g, parts[i]) == Filled(h, parts[i]) {
        FilledInRight(x, g, parts[i]);
      }
      MapTwice(part => Filled(g, part), t => x + t, part => Filled(h, part), parts);
    }
  }

  lemma StepInLeft(x: string, y: string)
    requires Step(x).Some?
    ensures Step(x + y) == MapOption(t => t + y, Step(x))
  {
    GroupInLeft(x, y);
    var g := FindGroup(x).value;
    var parts := SplitComma(g.content);
    StepFills(x, g);
    StepFills(x + y, g.(post := g.post + y));
    forall i | 0 <= i < |parts| ensures Filled(g.(post := g.post + y), parts[i]) == Filled(g, parts[i]) + y {
      Assoc(g.pre + Strip(parts[i]), g.post, y);
    }
    assert Step(x + y).value == Map(t => t + y, Step(x).value);
  }

  lemma {:induction false} RenderPrepend(s: string, p: Pattern)
    ensures Render(Prepend(s, p)) == s + Render(p)
  {
    if s != "" {
      RenderPrepend(s[1..], p);
      Assoc([s[0]], s[1..], Render(p));
      assert [s[0]] + s[1..] == s;
    }
  }

  /** A rendering is closed; it holds a brace exactly when the tree holds a group,
      and the first brace then opens. */
  lemma {:induction false} RenderShape(p: Pattern)
    requires Proper(p)
    ensures Closed(Render(p))
    ensures Flat(p) <==> BraceFree(Render(p))
    ensures Flat(p) <==> FirstBrace(Render(p)) == |Render(p)|
    ensures !Flat(p) ==> Render(p)[FirstBrace(Render(p))] == '{'
  {
    match p
    case End =>
    case Lit(c, rest) =>
      RenderShape(rest);
      LiteralIsClosed(c, Render(rest));
    case Braces(body, rest) =>
      RenderShape(body);
      RenderShape(rest);
      GroupIsClosed(Render(body), Render(rest));
  }

  lemma LiteralIsClosed(c: char, rest: string)
    requires !IsBrace(c) && Closed(rest)
    ensures var s := [c] + rest;
            Closed(s) && FirstBrace(s) == 1 + FirstBrace(rest) && (BraceFree(s) <==> BraceFree(rest))
  {
    var s := [c] + rest;
    assert s[1..] == rest;
    assert forall d :: d in s <==> d == c || d in rest;
  }

  lemma GroupIsClosed(body: string, rest: string)
    requires Closed(body) && Closed(rest)
    ensures var s := "{" + (body + ("}" + rest));
            Closed(s) && !BraceFree(s) && FirstBrace(s) == 0 && s[0] == '{'
  {
    var tail := "}" + rest;
    assert tail[1..] == rest;
    ClosedConcat(body, tail);
    FirstBraceConcat(body, tail);
    var s := "{" + (body + tail);
    assert s[1..] == body + tail && s[0] == '{' && IsBrace(s[0]) && s[0] in s;
  }

  lemma SkipFront(c: char, y: string)
    requires !OpensGroup([c] + y)
    ensures Step([c] + y) == MapOption(t => [c] + t, Step(y))
  {
    assert ([c] + y)[1..] == y;
    FindGroupLater([c] + y);
    StepInRight([c], y);
  }

  lemma SkipLeft(x: string, y: string)
    requires Step(x) == None && Closed(x)
    ensures Step(x + y) == MapOption(t => x + t, Step(y))
  {
    GroupInRight(x, y);
    StepInRight(x, y);
  }

  /** The rewriting step on a text is the rewriting step on its tree. */
  lemma {:induction false} StepIsReduce(p: Pattern)
    requires Proper(p)
    ensures Step(Render(p)) == MapOption(Render, Reduce(p))
  {
    match p
    case End =>
    case Lit(c, rest) =>
      StepIsReduce(rest);
      SkipFront(c, Render(rest));
      if Reduce(rest).Some? {
        var qs := Reduce(rest).value;
        MapTwice(q => Lit(c, q), Render, q => [c] + Render(q), qs);
        MapTwice(Render, t => [c] + t, q => [c] + Render(q), qs);
      }
    case Braces(body, rest) =>
      StepIsReduce(body);
      StepIsReduce(rest);
      if Reduce(body).Some? {
        StepInBody(body, rest);
      } else if Flat(body) && body != End {
        StepOfGroup(body, rest);
      } else {
        StepAfterGroup(body, rest);
      }
  }

  lemma BodyHidesFront(body: Pattern, rest: Pattern)
    requires Proper(body)
    requires !Flat(body) || body == End
    ensures !OpensGroup(Render(Braces(body, rest)))
  {
    var s := Render(Braces(body, rest));
    var tail := "}" + Render(rest);
    RenderShape(body);
    FirstBraceConcat(Render(body), tail);
    assert s[1..] == Render(body) + tail;
  }

  lemma ReducedIsNotFlat(p: Pattern)
    requires Flat(p)
    ensures Reduce(p) == None
  {
  }

  lemma {:induction false} StepInBody(body: Pattern, rest: Pattern)
    requires Proper(body) && Reduce(body).Some?
    requires Step(Render(body)) == MapOption(Render, Reduce(body))
    ensures Step(Render(Braces(body, rest))) == MapOption(Render, Reduce(Braces(body, rest)))
  {
    var tail := "}" + Render(rest);
    var bodies := Reduce(body).value;
    if Flat(body) { ReducedIsNotFlat(body); }
    BodyHidesFront(body, rest);
    SkipFront('{', Render(body) + tail);
    StepInLeft(Render(body), tail);
    MapTwice(Render, t => t + tail, b => Render(b) + tail, bodies);
    MapTwice(b => Render(b) + tail, t => ['{'] + t, b => ['{'] + (Render(b) + tail), bodies);
    MapTwice(b => Braces(b, rest), Render, b => ['{'] + (Render(b) + tail), bodies);
  }

  lemma {:induction false} GroupInFront(body: string, rest: string)
    requires BraceFree(body) && body != ""
    ensures FindGroup("{" + (body + ("}" + rest))) == Some(Group("", body, rest))
  {
    var tail := "}" + rest;
    var s := "{" + (body + tail);
    FirstBraceConcat(body, tail);
    FirstBraceOfFree(body);
    assert s[1..] == body + tail;
    FindGroupHere(s);
    assert s[1..][..|body|] == body;
    assert s[|body| + 2..] == rest;
  }

  lemma FirstBraceOfFree(s: string)
    requires BraceFree(s)
    ensures FirstBrace(s) == |s|
  {
  }

  lemma {:induction false} StepOfGroup(body: Pattern, rest: Pattern)
    requires Proper(body) && Flat(body) && body != End
    ensures Step(Render(Braces(body, rest))) == MapOption(Render, Reduce(Braces(body, rest)))
  {
    RenderShape(body);
    ReducedIsNotFlat(body);
    var g := Group("", Render(body), Render(rest));
    GroupInFront(Render(body), Render(rest));
    StepFills(Render(Braces(body, rest)), g);
    var parts := SplitComma(Render(body));
    forall i | 0 <= i < |parts| ensures Render(Prepend(Strip(parts[i]), rest)) == Filled(g, parts[i]) {
      RenderPrepend(Strip(parts[i]), rest);
      assert "" + Strip(parts[i]) == Strip(parts[i]);
    }
    MapTwice(part => Prepend(Strip(part), rest), Render, part => Filled(g, part), parts);
  }

  lemma {:induction false} StepAfterGroup(body: Pattern, rest: Pattern)
    requires Proper(body) && Reduce(body) == None && (!Flat(body) || body == End)
    requires Step(Render(body)) == None
    requires Step(Render(rest)) == MapOption(Render, Reduce(rest))
    ensures Step(Render(Braces(body, rest))) == MapOption(Render, Reduce(Braces(body, rest)))
  {
    var tail := "}" + Render(rest);
    BodyHidesFront(body, rest);
    SkipFront('{', Render(body) + tail);
    RenderShape(body);
    SkipLeft(Render(body), tail);
    SkipFront('}', Render(rest));
    if Reduce(rest).Some? {
      var qs := Reduce(rest).value;
      MapTwice(Render, t => ['}'] + t, q => ['}'] + Render(q), qs);
      MapTwice(q => ['}'] + Render(q), t => Render(body) + t, q => Render(body) + (['}'] + Render(q)), qs);
      MapTwice(q => Render(body) + (['}'] + Render(q)), t => ['{'] + t, q => ['{'] + (Render(body) + (['}'] + Render(q))), qs);
      MapTwice(q => Braces(body, q), Render, q => ['{'] + (Render(body) + (['}'] + Render(q))), qs);
    }
  }

  // ---- the rewriting step keeps the meaning ---------------------------------

  ghost predicate InSome(ps: seq<Pattern>, inGroup: bool, s: string) {
    exists i :: 0 <= i < |ps| && s in Meaning(ps[i], inGroup)
  }

  ghost predicate InSomeLater(ps: seq<Pattern>, s: string) {
    exists i :: 0 <= i < |ps| && s in Later(ps[i])
  }

  lemma MeaningOfPrepend(t: string, p: Pattern, inGroup: bool)
    requires inGroup ==> ',' !in t
    ensures Meaning(Prepend(t, p), inGroup) == set y | y in Meaning(p, inGroup) :: t + y
  {
    if t == "" {
      assert forall y: string :: "" + y == y;
    } else {
      MeaningOfPrepend(t[1..], p, inGroup);
      forall y | y in Meaning(p, inGroup) ensures [t[0]] + (t[1..] + y) == t + y {
        FrontAndTail(t);
        Assoc([t[0]], t[1..], y);
      }
    }
  }

  lemma LaterOfPrepend(t: string, p: Pattern)
    requires ',' !in t
    ensures Later(Prepend(t, p)) == Later(p)
  {
  }

  lemma SplitFront(c: char, s: string)
    ensures var parts, whole := SplitComma(s), SplitComma([c] + s);
            && whole[0] == (if c == ',' then "" else [c] + parts[0])
            && whole[1..] == if c == ',' then parts else parts[1..]
  {
    assert ([c] + s)[1..] == s;
  }

  /** A body without inner groups means its comma-separated parts. */
  lemma {:induction false} FlatMeaning(p: Pattern)
    requires Flat(p)
    ensures Meaning(p, true) == {SplitComma(Render(p))[0]}
    ensures forall s :: s in Later(p) <==> s in SplitComma(Render(p))[1..]
    ensures Meaning(p, false) == {Render(p)}
  {
    match p
    case End =>
    case Lit(c, rest) =>
      FlatMeaning(rest);
      SplitFront(c, Render(rest));
  }

  lemma {:induction false} FlatAlternatives(p: Pattern, s: string)
    requires Flat(p)
    ensures s in Alternatives(p) <==> s in SplitComma(Render(p))
  {
    FlatMeaning(p);
    var parts := SplitComma(Render(p));
    assert parts == [parts[0]] + parts[1..];
  }

  ghost predicate InSomeAlternatives(ps: seq<Pattern>, s: string) {
    exists i :: 0 <= i < |ps| && s in Alternatives(ps[i])
  }

  lemma LitMeaning(c: char, rest: Pattern, inGroup: bool, s: string)
    ensures s in Meaning(Lit(c, rest), inGroup) <==>
            if inGroup && c == ',' then s == ""
            else s != "" && s[0] == c && s[1..] in Meaning(rest, inGroup)
  {
    if s != "" { FrontAndTail(s); }
    forall y | y in Meaning(rest, inGroup) ensures ([c] + y)[1..] == y {}
  }

  /** The replacements together mean what the pattern means. */
  lemma {:induction false} ReduceKeepsMeaning(p: Pattern, inGroup: bool, s: string)
    requires Reduce(p).Some?
    ensures s in Meaning(p, inGroup) <==> InSome(Reduce(p).value, inGroup, s)
    decreases p, 0
  {
    var ps := Reduce(p).value;
    match p
    case Lit(c, rest) =>
      if s != "" {
        ReduceKeepsMeaning(rest, inGroup, s[1..]);
      }
      LitMeaning(c, rest, inGroup, s);
      forall i | 0 <= i < |ps| ensures ps[i] == Lit(c, Reduce(rest).value[i]) {}
      forall i | 0 <= i < |ps| { LitMeaning(c, Reduce(rest).value[i], inGroup, s); }
      if inGroup && c == ',' {
        assert s in Meaning(ps[0], inGroup) <==> s == "";
      }
    case Braces(body, rest) =>
      if Reduce(body).Some? {
        forall x { ReduceKeepsAlternatives(body, x); }
        MeaningByBody(p, inGroup, s);
      } else if Flat(body) && body != End {
        MeaningByParts(p, inGroup, s);
      } else {
        forall y { ReduceKeepsMeaning(rest, inGroup, y); }
        MeaningByRest(p, inGroup, s);
      }
  }

  lemma {:induction false} ReduceKeepsLater(p: Pattern, s: string)
    requires Reduce(p).Some?
    ensures s in Later(p) <==> InSomeLater(Reduce(p).value, s)
    decreases p, 0
  {
    var ps := Reduce(p).value;
    match p
    case Lit(c, rest) =>
      var qs := Reduce(rest).value;
      ReduceKeepsAlternatives(rest, s);
      ReduceKeepsLater(rest, s);
      forall i | 0 <= i < |ps|
        ensures Later(ps[i]) == if c == ',' then Alternatives(qs[i]) else Later(qs[i])
      {
        assert ps[i] == Lit(c, qs[i]);
      }
    case Braces(body, rest) =>
      if Reduce(body).Some? || (Flat(body) && body != End) {
        forall i | 0 <= i < |ps| { LaterBehindGroup(p, i); }
        assert Later(ps[0]) == Later(rest);
      } else {
        ReduceKeepsLater(rest, s);
        forall i | 0 <= i < |ps| ensures ps[i] == Braces(body, Reduce(rest).value[i]) {}
      }
  }

  /** Rewriting a group changes nothing behind it. */
  lemma {:induction false} LaterBehindGroup(p: Pattern, i: nat)
    requires p.Braces? && (Reduce(p.body).Some? || (Flat(p.body) && p.body != End))
    requires i < |Reduce(p).value|
    ensures Later(Reduce(p).value[i]) == Later(p.rest)
  {
    if Reduce(p.body).Some? {
      assert Reduce(p).value[i] == Braces(Reduce(p.body).value[i], p.rest);
    } else {
      GroupReplacement(p, i);
      var part := SplitComma(Render(p.body))[i];
      LaterOfPrepend(Strip(part), p.rest);
    }
  }

  lemma {:induction false} GroupReplacement(p: Pattern, i: nat)
    requires p.Braces? && Reduce(p.body) == None && Flat(p.body) && p.body != End
    requires i < |Reduce(p).value|
    ensures |Reduce(p).value| == |SplitComma(Render(p.body))|
    ensures var part := SplitComma(Render(p.body))[i];
            Reduce(p).value[i] == Prepend(Strip(part), p.rest) && ',' !in Strip(part)
  {
    PartOfContent(Render(p.body), i);
  }

  lemma {:induction false} ReduceKeepsAlternatives(p: Pattern, s: string)
    requires Reduce(p).Some?
    ensures s in Alternatives(p) <==> InSomeAlternatives(Reduce(p).value, s)
    decreases p, 1
  {
    ReduceKeepsMeaning(p, true, s);
    ReduceKeepsLater(p, s);
  }

  lemma MeaningByBody(p: Pattern, inGroup: bool, s: string)
    requires p.Braces? && Reduce(p.body).Some?
    requires forall x :: x in Alternatives(p.body) <==> InSomeAlternatives(Reduce(p.body).value, x)
    ensures s in Meaning(p, inGroup) <==> InSome(Reduce(p).value, inGroup, s)
  {
    var bodies, ps := Reduce(p.body).value, Reduce(p).value;
    forall i | 0 <= i < |ps| ensures ps[i] == Braces(bodies[i], p.rest) {}
    if s in Meaning(p, inGroup) {
      var x, y :| x in Alternatives(p.body) && y in Meaning(p.rest, inGroup) && s == Strip(x) + y;
      var i :| 0 <= i < |bodies| && x in Alternatives(bodies[i]);
      assert s in Meaning(ps[i], inGroup);
    }
    if InSome(ps, inGroup, s) {
      var i :| 0 <= i < |ps| && s in Meaning(ps[i], inGroup);
      var x, y :| x in Alternatives(bodies[i]) && y in Meaning(p.rest, inGroup) && s == Strip(x) + y;
      assert InSomeAlternatives(bodies, x);
    }
  }

  lemma {:induction false} MeaningByParts(p: Pattern, inGroup: bool, s: string)
    requires p.Braces? && Reduce(p.body) == None && Flat(p.body) && p.body != End
    ensures s in Meaning(p, inGroup) <==> InSome(Reduce(p).value, inGroup, s)
  {
    if s in Meaning(p, inGroup) {
      MeaningHasPart(p, inGroup, s);
    }
    if InSome(Reduce(p).value, inGroup, s) {
      PartHasMeaning(p, inGroup, s);
    }
  }

  lemma {:induction false} MeaningHasPart(p: Pattern, inGroup: bool, s: string)
    requires p.Braces? && Reduce(p.body) == None && Flat(p.body) && p.body != End
    requires s in Meaning(p, inGroup)
    ensures InSome(Reduce(p).value, inGroup, s)
  {
    var x, y :| x in Alternatives(p.body) && y in Meaning(p.rest, inGroup) && s == Strip(x) + y;
    FlatAlternatives(p.body, x);
    var i :| 0 <= i < |SplitComma(Render(p.body))| && SplitComma(Render(p.body))[i] == x;
    GroupReplacement(p, 0);
    MeaningOfPart(p, inGroup, i);
    assert s in Meaning(Reduce(p).value[i], inGroup);
  }

  lemma {:induction false} PartHasMeaning(p: Pattern, inGroup: bool, s: string)
    requires p.Braces? && Reduce(p.body) == None && Flat(p.body) && p.body != End
    requires InSome(Reduce(p).value, inGroup, s)
    ensures s in Meaning(p, inGroup)
  {
    var i :| 0 <= i < |Reduce(p).value| && s in Meaning(Reduce(p).value[i], inGroup);
    MeaningOfPart(p, inGroup, i);
    var part := SplitComma(Render(p.body))[i];
    FlatAlternatives(p.body, part);
    var y :| y in Meaning(p.rest, inGroup) && s == Strip(part) + y;
  }

  lemma {:induction false} MeaningOfPart(p: Pattern, inGroup: bool, i: nat)
    requires p.Braces? && Reduce(p.body) == None && Flat(p.body) && p.body != End
    requires i < |Reduce(p).value|
    ensures |Reduce(p).value| == |SplitComma(Render(p.body))|
    ensures Meaning(Reduce(p).value[i], inGroup) ==
            set y | y in Meaning(p.rest, inGroup) :: Strip(SplitComma(Render(p.body))[i]) + y
  {
    GroupReplacement(p, i);
    MeaningOfPrepend(Strip(SplitComma(Render(p.body))[i]), p.rest, inGroup);
  }

  lemma {:induction false} MeaningByRest(p: Pattern, inGroup: bool, s: string)
    requires p.Braces? && Reduce(p.body) == None && (!Flat(p.body) || p.body == End) && Reduce(p.rest).Some?
    requires forall y :: y in Meaning(p.rest, inGroup) <==> InSome(Reduce(p.rest).value, inGroup, y)
    ensures s in Meaning(p, inGroup) <==> InSome(Reduce(p).value, inGroup, s)
  {
    var rests, ps := Reduce(p.rest).value, Reduce(p).value;
    forall i | 0 <= i < |ps| ensures ps[i] == Braces(p.body, rests[i]) {}
    if s in Meaning(p, inGroup) {
      var x, y :| x in Alternatives(p.body) && y in Meaning(p.rest, inGroup) && s == Strip(x) + y;
      var i :| 0 <= i < |rests| && y in Meaning(rests[i], inGroup);
      assert s in Meaning(ps[i], inGroup);
    }
    if InSome(ps, inGroup, s) {
      var i :| 0 <= i < |ps| && s in Meaning(ps[i], inGroup);
      var x, y :| x in Alternatives(p.body) && y in Meaning(rests[i], inGroup) && s == Strip(x) + y;
      assert InSome(rests, inGroup, y);
    }
  }
}
