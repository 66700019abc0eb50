/** When the rewriting loop computes the meaning of a pattern: exactly when no group
    with a single alternative can come out empty. Such a group ends as the text `{}`,
    which the loop no longer takes for a group. */
module BraceAgreement {
  import opened Text
  import opened Wrappers
  import opened BraceExpansion
  import opened BraceMeaning

  /** Some expansion is empty; with `inGroup` set, of the first alternative. */
  predicate CanBeEmpty(p: Pattern, inGroup: bool) {
    match p
    case End => true
    case Lit(c, _) => inGroup && c == ','
    case Braces(body, rest) => SomeBlank(body) && CanBeEmpty(rest, inGroup)
  }

  /** Some expansion is white space only. */
  predicate CanBeBlank(p: Pattern, inGroup: bool)
    decreases p, 0
  {
    match p
    case End => true
    case Lit(c, rest) => (inGroup && c == ',') || (IsSpace(c) && CanBeBlank(rest, inGroup))
    case Braces(body, rest) => SomeBlank(body) && CanBeBlank(rest, inGroup)
  }

  /** Some alternative of a group body can be white space only. */
  predicate SomeBlank(p: Pattern)
    decreases p, 1
  {
    CanBeBlank(p, true) || LaterBlank(p)
  }

  predicate LaterBlank(p: Pattern)
    decreases p, 0
  {
    match p
    case End => false
    case Lit(c, rest) => if c == ',' then SomeBlank(rest) else LaterBlank(rest)
    case Braces(_, rest) => LaterBlank(rest)
  }

  predicate HasComma(p: Pattern) {
    match p
    case End => false
    case Lit(c, rest) => c == ',' || HasComma(rest)
    case Braces(_, rest) => HasComma(rest)
  }

  /** No group with a single alternative can come out empty. */
  predicate Safe(p: Pattern) {
    match p
    case End => true
    case Lit(_, rest) => Safe(rest)
    case Braces(body, rest) => Safe(body) && Safe(rest) && (HasComma(body) || !CanBeEmpty(body, true))
  }

  // ---- the condition says what it should about the meaning --------------------

  ghost predicate HasBlank(strings: set<string>) {
    exists s :: s in strings && Blank(s)
  }

  lemma BlankConcat(x: string, y: string)
    ensures Blank(x + y) <==> Blank(x) && Blank(y)
  {
    assert forall c <- x :: c in x + y;
    assert forall c <- y :: c in x + y;
  }

  lemma BlankStrip(x: string)
    ensures Blank(Strip(x)) <==> Blank(x)
  {
    if Strip(x) != "" {
      assert Strip(x)[0] in Strip(x);
    }
  }

  lemma MeaningIsInhabited(p: Pattern, inGroup: bool)
    ensures exists s :: s in Meaning(p, inGroup)
  {
    match p
    case End => assert "" in Meaning(p, inGroup);
    case Lit(c, rest) =>
      MeaningIsInhabited(rest, inGroup);
      if inGroup && c == ',' {
        assert "" in Meaning(p, inGroup);
      } else {
        var y :| y in Meaning(rest, inGroup);
        assert [c] + y in Meaning(p, inGroup);
      }
    case Braces(body, rest) =>
      MeaningIsInhabited(body, true);
      MeaningIsInhabited(rest, inGroup);
      var x :| x in Meaning(body, true);
      var y :| y in Meaning(rest, inGroup);
      assert x in Alternatives(body);
      assert Strip(x) + y in Meaning(p, inGroup);
  }

  lemma {:induction false} BlankIsMeant(p: Pattern, inGroup: bool)
    ensures CanBeBlank(p, inGroup) <==> HasBlank(Meaning(p, inGroup))
    decreases p, 0
  {
    match p
    case End => assert Blank("") && "" in Meaning(p, inGroup);
    case Lit(c, rest) =>
      BlankIsMeant(rest, inGroup);
      if inGroup && c == ',' {
        assert Blank("") && "" in Meaning(p, inGroup);
      } else {
        BlankAfterChar(c, Meaning(rest, inGroup));
      }
    case Braces(body, rest) =>
      SomeBlankIsMeant(body);
      BlankIsMeant(rest, inGroup);
      BlankProduct(Alternatives(body), Meaning(rest, inGroup), Meaning(p, inGroup));
  }

  lemma BlankAfterChar(c: char, ys: set<string>)
    ensures HasBlank(set y | y in ys :: [c] + y) <==> IsSpace(c) && HasBlank(ys)
  {
    var all := set y | y in ys :: [c] + y;
    if HasBlank(all) {
      var s :| s in all && Blank(s);
      var y :| y in ys && s == [c] + y;
      BlankConcat([c], y);
      assert c in [c];
    }
    if IsSpace(c) && HasBlank(ys) {
      var y :| y in ys && Blank(y);
      BlankConcat([c], y);
      assert [c] + y in all;
    }
  }

  lemma BlankProduct(xs: set<string>, ys: set<string>, all: set<string>)
    requires all == set x, y | x in xs && y in ys :: Strip(x) + y
    ensures HasBlank(all) <==> HasBlank(xs) && HasBlank(ys)
  {
    if HasBlank(all) {
      var s :| s in all && Blank(s);
      var x, y :| x in xs && y in ys && s == Strip(x) + y;
      BlankConcat(Strip(x), y);
      BlankStrip(x);
    }
    if HasBlank(xs) && HasBlank(ys) {
      var x :| x in xs && Blank(x);
      var y :| y in ys && Blank(y);
      BlankConcat(Strip(x), y);
      BlankStrip(x);
      assert Strip(x) + y in all;
    }
  }

  lemma {:induction false} LaterBlankIsMeant(p: Pattern)
    ensures LaterBlank(p) <==> HasBlank(Later(p))
    decreases p, 0
  {
    match p
    case End =>
    case Lit(c, rest) =>
      SomeBlankIsMeant(rest);
      LaterBlankIsMeant(rest);
    case Braces(_, rest) => LaterBlankIsMeant(rest);
  }

  lemma {:induction false} SomeBlankIsMeant(p: Pattern)
    ensures SomeBlank(p) <==> HasBlank(Alternatives(p))
    decreases p, 1
  {
    BlankIsMeant(p, true);
    LaterBlankIsMeant(p);
  }

  lemma {:induction false} EmptyIsMeant(p: Pattern, inGroup: bool)
    ensures CanBeEmpty(p, inGroup) <==> "" in Meaning(p, inGroup)
  {
    match p
    case End =>
    case Lit(c, rest) => LitMeaning(c, rest, inGroup, "");
    case Braces(body, rest) =>
      SomeBlankIsMeant(body);
      EmptyIsMeant(rest, inGroup);
      if CanBeEmpty(p, inGroup) {
        var x :| x in Alternatives(body) && Blank(x);
        assert Strip(x) + "" in Meaning(p, inGroup);
        assert Strip(x) + "" == "";
      }
      if "" in Meaning(p, inGroup) {
        var x, y :| x in Alternatives(body) && y in Meaning(rest, inGroup) && "" == Strip(x) + y;
        assert |Strip(x)| == 0 && |y| == 0;
        assert y == "";
      }
  }

  lemma {:induction false} MeaningIsBraceFree(p: Pattern, inGroup: bool, s: string)
    requires Proper(p)
    requires s in Meaning(p, inGroup)
    ensures BraceFree(s)
    decreases p, 0
  {
    match p
    case End =>
    case Lit(c, rest) =>
      LitMeaning(c, rest, inGroup, s);
      if !(inGroup && c == ',') {
        MeaningIsBraceFree(rest, inGroup, s[1..]);
        FrontAndTail(s);
      }
    case Braces(body, rest) =>
      var x, y :| x in Alternatives(body) && y in Meaning(rest, inGroup) && s == Strip(x) + y;
      AlternativesAreBraceFree(body, x);
      MeaningIsBraceFree(rest, inGroup, y);
  }

  lemma {:induction false} LaterIsBraceFree(p: Pattern, s: string)
    requires Proper(p)
    requires s in Later(p)
    ensures BraceFree(s)
    decreases p, 0
  {
    match p
    case Lit(c, rest) =>
      if c == ',' { AlternativesAreBraceFree(rest, s); } else { LaterIsBraceFree(rest, s); }
    case Braces(_, rest) => LaterIsBraceFree(rest, s);
  }

  lemma {:induction false} AlternativesAreBraceFree(p: Pattern, s: string)
    requires Proper(p)
    requires s in Alternatives(p)
    ensures BraceFree(s)
    decreases p, 1
  {
    if s in Meaning(p, true) { MeaningIsBraceFree(p, true, s); } else { LaterIsBraceFree(p, s); }
  }

  // ---- the rewriting step keeps the condition ---------------------------------

  lemma PrependKeeps(t: string, p: Pattern)
    requires ',' !in t && BraceFree(t)
    ensures Safe(Prepend(t, p)) == Safe(p)
    ensures HasComma(Prepend(t, p)) == HasComma(p)
    ensures Proper(Prepend(t, p)) == Proper(p)
  {
  }

  lemma FlatIsSafe(p: Pattern)
    requires Flat(p)
    ensures Safe(p) && Reduce(p) == None
    ensures p != End && !HasComma(p) ==> !CanBeEmpty(p, true)
  {
  }

  /** A replacement is again a proper tree, with the same top-level commas. */
  lemma {:induction false} ReductKeeps(p: Pattern, i: nat)
    requires Proper(p) && Reduce(p).Some? && i < |Reduce(p).value|
    ensures Proper(Reduce(p).value[i])
    ensures HasComma(Reduce(p).value[i]) == HasComma(p)
  {
    var q := Reduce(p).value[i];
    match p
    case Lit(c, rest) =>
      assert q == Lit(c, Reduce(rest).value[i]);
      ReductKeeps(rest, i);
    case Braces(body, rest) =>
      if Reduce(body).Some? {
        assert q == Braces(Reduce(body).value[i], rest);
        ReductKeeps(body, i);
      } else if Flat(body) && body != End {
        PartIsPlain(p, i);
        PrependKeeps(Strip(SplitComma(Render(body))[i]), rest);
      } else {
        assert q == Braces(body, Reduce(rest).value[i]);
        ReductKeeps(rest, i);
      }
  }

  lemma {:induction false} PartIsPlain(p: Pattern, i: nat)
    requires Proper(p) && p.Braces? && Reduce(p.body) == None && Flat(p.body) && p.body != End
    requires i < |Reduce(p).value|
    ensures |Reduce(p).value| == |SplitComma(Render(p.body))|
    ensures var text := Strip(SplitComma(Render(p.body))[i]);
            Reduce(p).value[i] == Prepend(text, p.rest) && ',' !in text && BraceFree(text)
  {
    GroupReplacement(p, i);
    RenderShape(p.body);
    PartOfContent(Render(p.body), i);
  }

  /** Replacements of a safe pattern are safe. */
  lemma {:induction false} SafeStaysSafe(p: Pattern, i: nat)
    requires Proper(p) && Safe(p) && Reduce(p).Some? && i < |Reduce(p).value|
    ensures Safe(Reduce(p).value[i])
  {
    var q := Reduce(p).value[i];
    match p
    case Lit(c, rest) =>
      assert q == Lit(c, Reduce(rest).value[i]);
      SafeStaysSafe(rest, i);
    case Braces(body, rest) =>
      if Reduce(body).Some? {
        var b := Reduce(body).value[i];
        assert q == Braces(b, rest);
        SafeStaysSafe(body, i);
        ReductKeeps(body, i);
        EmptyIsMeant(body, true);
        EmptyIsMeant(b, true);
        ReduceKeepsMeaning(body, true, "");
      } else if Flat(body) && body != End {
        PartIsPlain(p, i);
        PrependKeeps(Strip(SplitComma(Render(body))[i]), rest);
      } else {
        assert q == Braces(body, Reduce(rest).value[i]);
        SafeStaysSafe(rest, i);
      }
  }

  /** Some replacement of an unsafe pattern is unsafe. */
  lemma {:induction false} UnsafeStaysUnsafe(p: Pattern) returns (i: nat)
    requires Proper(p) && !Safe(p) && Reduce(p).Some?
    ensures i < |Reduce(p).value| && !Safe(Reduce(p).value[i])
  {
    match p
    case Lit(c, rest) =>
      i := UnsafeStaysUnsafe(rest);
      assert Reduce(p).value[i] == Lit(c, Reduce(rest).value[i]);
    case Braces(body, rest) =>
      if Reduce(body).Some? {
        i := 0;
        if !Safe(body) {
          i := UnsafeStaysUnsafe(body);
        } else if Safe(rest) {
          i := EmptyReduct(body);
        }
        assert Reduce(p).value[i] == Braces(Reduce(body).value[i], rest);
      } else if Flat(body) && body != End {
        i := 0;
        FlatIsSafe(body);
        PartIsPlain(p, i);
        PrependKeeps(Strip(SplitComma(Render(body))[i]), rest);
      } else {
        i := 0;
        if !Safe(rest) {
          i := UnsafeStaysUnsafe(rest);
        }
        assert Reduce(p).value[i] == Braces(body, Reduce(rest).value[i]);
      }
  }

  lemma {:induction false} EmptyReduct(body: Pattern) returns (i: nat)
    requires Proper(body) && Reduce(body).Some? && !HasComma(body) && CanBeEmpty(body, true)
    ensures i < |Reduce(body).value|
    ensures !HasComma(Reduce(body).value[i]) && CanBeEmpty(Reduce(body).value[i], true)
  {
    EmptyIsMeant(body, true);
    ReduceKeepsMeaning(body, true, "");
    i :| 0 <= i < |Reduce(body).value| && "" in Meaning(Reduce(body).value[i], true);
    EmptyIsMeant(Reduce(body).value[i], true);
    ReductKeeps(body, i);
  }

  /** A pattern in which nothing can be replaced holds no group, if it is safe. */
  lemma SafeNormalFormIsFlat(p: Pattern)
    requires Safe(p) && Reduce(p) == None
    ensures Flat(p)
  {
    if p.Braces? && Flat(p.body) && p.body == End {
      assert CanBeEmpty(p.body, true);
    }
  }

  // ---- the loop computes the meaning ------------------------------------------

  lemma InNormalFormsOf(items: seq<string>, bound: nat, s: string)
    requires forall t <- items :: Opens(t) < bound
    ensures s in NormalFormsOf(items, bound) <==> exists i :: 0 <= i < |items| && s in NormalForms(items[i])
  {
    if items != [] {
      InNormalFormsOf(items[1..], bound, s);
      if i :| 1 <= i < |items| && s in NormalForms(items[i]) {
        assert items[1..][i - 1] == items[i];
      }
    }
  }

  /** One step of the recursion of the normal forms, on the tree. */
  lemma {:induction false} NormalFormsByReduct(p: Pattern, s: string)
    requires Proper(p) && Reduce(p).Some?
    ensures s in NormalForms(Render(p)) <==>
            exists i :: 0 <= i < |Reduce(p).value| && s in NormalForms(Render(Reduce(p).value[i]))
    ensures forall i :: 0 <= i < |Reduce(p).value| ==> Opens(Render(Reduce(p).value[i])) < Opens(Render(p))
  {
    StepIsReduce(p);
    var ps, items := Reduce(p).value, Step(Render(p)).value;
    StepShrinks(Render(p));
    InNormalFormsOf(items, Opens(Render(p)), s);
    forall i | 0 <= i < |ps| ensures items[i] == Render(ps[i]) && items[i] in items {}
  }

  lemma {:induction false} SafeComputesMeaning(p: Pattern, s: string)
    requires Proper(p) && Safe(p)
    ensures s in NormalForms(Render(p)) <==> s in Meaning(p, false)
    decreases Opens(Render(p))
  {
    StepIsReduce(p);
    if Reduce(p).Some? {
      var ps := Reduce(p).value;
      NormalFormsByReduct(p, s);
      ReduceKeepsMeaning(p, false, s);
      forall i | 0 <= i < |ps| ensures s in NormalForms(Render(ps[i])) <==> s in Meaning(ps[i], false) {
        ReductKeeps(p, i);
        SafeStaysSafe(p, i);
        SafeComputesMeaning(ps[i], s);
      }
    } else {
      SafeNormalFormIsFlat(p);
      FlatMeaning(p);
      NormalFormsOfSettled(Render(p));
    }
  }

  lemma {:induction false} UnsafeKeepsBrace(p: Pattern) returns (s: string)
    requires Proper(p) && !Safe(p)
    ensures s in NormalForms(Render(p)) && !BraceFree(s)
    decreases Opens(Render(p))
  {
    StepIsReduce(p);
    if Reduce(p).Some? {
      var i := UnsafeStaysUnsafe(p);
      NormalFormsByReduct(p, "");
      ReductKeeps(p, i);
      s := UnsafeKeepsBrace(Reduce(p).value[i]);
      NormalFormsByReduct(p, s);
    } else {
      s := Render(p);
      NormalFormsOfSettled(s);
      if Flat(p) { FlatIsSafe(p); }
      RenderShape(p);
    }
  }

  /** The list that the loop ends with holds exactly the strings that the recursive
      expansion means, if and only if no group with one alternative can come out empty. */
  lemma {:induction false} ExpansionMeansPattern(p: Pattern)
    requires Proper(p)
    ensures (set s | s in NormalForms(Render(p))) == Meaning(p, false) <==> Safe(p)
  {
    if Safe(p) {
      forall s { SafeComputesMeaning(p, s); }
    } else {
      var s := UnsafeKeepsBrace(p);
      if s in Meaning(p, false) { MeaningIsBraceFree(p, false, s); }
    }
  }

  /** The same for texts: the result of the method on any balanced text. */
  lemma BalancedExpansion(value: string) returns (p: Pattern)
    requires Balanced(value, 0)
    ensures Proper(p) && Render(p) == value
    ensures (set s | s in NormalForms(value)) == Meaning(p, false) <==> Safe(p)
  {
    p := BalancedHasPattern(value);
    ExpansionMeansPattern(p);
  }

  /** The recursive expansion of `{{,}}` is the empty text; the loop leaves a brace. */
  lemma {:induction false} NestedEmptyGroupDiffers() returns (p: Pattern, left: string)
    ensures Proper(p) && Render(p) == "{{,}}" && Meaning(p, false) == {""}
    ensures left in NormalForms("{{,}}") && !BraceFree(left)
  {
    var inner := Lit(',', End);
    var body := Braces(inner, End);
    p := Braces(body, End);
    FlatMeaning(inner);
    assert Alternatives(inner) == {""};
    assert Meaning(body, true) == {""} by { assert "" + "" == ""; }
    assert Alternatives(body) == {""};
    assert Meaning(p, false) == {""} by { assert "" + "" == ""; }
    left := UnsafeKeepsBrace(p);
    assert Render(inner) == ",";
    assert Render(body) == "{,}";
    assert Render(p) == "{{,}}";
  }
}
