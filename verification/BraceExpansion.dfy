/** Brace expansion of a registered path, as `locations` does it: the leftmost
    innermost group of every item is replaced by its alternatives until nothing
    changes. The independent meaning is the recursive one, over pattern trees. */
module BraceExpansion {
  import opened Text
  import opened Wrappers

  // ---- one rewriting step ---------------------------------------------------

  /** A text around one group: `pre{content}post`. */
  datatype Group = Group(pre: string, content: string, post: string)

  predicate IsBrace(c: char) {
    c == '{' || c == '}'
  }

  predicate BraceFree(s: string) {
    forall c <- s :: !IsBrace(c)
  }

  /** Length of the longest brace-free prefix. */
  function FirstBrace(s: string): (n: nat)
    ensures n <= |s| && BraceFree(s[..n])
    ensures n < |s| ==> IsBrace(s[n])
  {
    if s == "" || IsBrace(s[0]) then 0 else 1 + FirstBrace(s[1..])
  }

  /** A group opens at the front: a nonempty brace-free content, then '}'. */
  predicate OpensGroup(s: string) {
    s != "" && s[0] == '{' && var n := FirstBrace(s[1..]); 0 < n < |s| - 1 && s[1 + n] == '}'
  }

  /** The leftmost match of a brace pair around a nonempty brace-free content. */
  function FindGroup(s: string): (g: Option<Group>)
    ensures g.Some? ==> s == g.value.pre + "{" + g.value.content + "}" + g.value.post
    ensures g.Some? ==> BraceFree(g.value.content) && g.value.content != ""
  {
    if s == "" then None
    else if OpensGroup(s) then
      var n := FirstBrace(s[1..]);
      var content, post := s[1..][..n], s[n + 2..];
      assert s == "{" + content + "}" + post;
      assert "" + "{" == "{";
      Some(Group("", content, post))
    else match FindGroup(s[1..])
      case None => None
      case Some(g) =>
        assert s == [s[0]] + s[1..];
        Some(g.(pre := [s[0]] + g.pre))
  }

  /** `content.split(",")` */
  function SplitComma(s: string): (parts: seq<string>)
    ensures |parts| > 0
  {
    if s == "" then [""]
    else
      var rest := SplitComma(s[1..]);
      if s[0] == ',' then [""] + rest else [[s[0]] + rest[0]] + rest[1..]
  }

  function Map<A, B>(f: A -> B, xs: seq<A>): (ys: seq<B>)
    ensures |ys| == |xs|
    ensures forall i :: 0 <= i < |xs| ==> ys[i] == f(xs[i])
  {
    if xs == [] then [] else [f(xs[0])] + Map(f, xs[1..])
  }

  function MapOption<A, B>(f: A -> B, xs: Option<seq<A>>): Option<seq<B>> {
    match xs
    case None => None
    case Some(v) => Some(Map(f, v))
  }

  /** What replaces an item that holds a group. */
  function Step(s: string): (items: Option<seq<string>>)
    ensures items.Some? <==> FindGroup(s).Some?
    ensures items.Some? ==> items.value != []
  {
    match FindGroup(s)
    case None => None
    case Some(g) => Some(Map(part => g.pre + Strip(part) + g.post, SplitComma(g.content)))
  }

  function Opens(s: string): nat {
    multiset(s)['{']
  }

  lemma OpensConcat(a: string, b: string)
    ensures Opens(a + b) == Opens(a) + Opens(b)
  {
  }

  lemma OneReplacement(g: Group, part: string)
    requires |part| <= |g.content| && '{' !in part
    ensures Opens(g.pre + Strip(part) + g.post) < Opens(g.pre + "{" + g.content + "}" + g.post)
    ensures |g.pre + Strip(part) + g.post| < |g.pre + "{" + g.content + "}" + g.post|
  {
    StripIsShort(part);
    OpensConcat(g.pre, Strip(part));
    OpensConcat(g.pre + Strip(part), g.post);
    OpensConcat(g.pre, "{");
    OpensConcat(g.pre + "{", g.content);
    OpensConcat(g.pre + "{" + g.content, "}");
    OpensConcat(g.pre + "{" + g.content + "}", g.post);
  }

  /** Every replacement has one '{' less and is shorter. */
  lemma {:induction false} StepShrinks(s: string)
    requires Step(s).Some?
    ensures Opens(s) > 0
    ensures forall t <- Step(s).value :: Opens(t) < Opens(s) && |t| < |s|
  {
    var g := FindGroup(s).value;
    var parts := SplitComma(g.content);
    forall t <- Step(s).value ensures Opens(t) < Opens(s) && |t| < |s| {
      var i :| 0 <= i < |parts| && Step(s).value[i] == t;
      PartOfContent(g.content, i);
      OneReplacement(g, parts[i]);
    }
    PartOfContent(g.content, 0);
    OneReplacement(g, parts[0]);
  }

  lemma PartOfContent(s: string, i: nat)
    requires i < |SplitComma(s)|
    ensures var part := SplitComma(s)[i];
            |part| <= |s| && forall c <- part :: c in s && c != ','
  {
    if s != "" {
      if s[0] != ',' {
        PartOfContent(s[1..], i);
      } else if i > 0 {
        PartOfContent(s[1..], i - 1);
      }
    }
  }

  lemma StripIsShort(s: string)
    ensures |Strip(s)| <= |s|
  {
  }

  // ---- the step, character by character ---------------------------------------

  /** At `i` opens a pair of braces around something without braces. */
  ghost predicate GroupAt(s: string, i: int) {
    exists n :: 0 <= i && i + 1 < n < |s| && s[i] == '{' && s[n] == '}' && forall k :: i < k < n ==> s[k] != '{' && s[k] != '}'
  }

  lemma OpensIsGroup(s: string)
    ensures OpensGroup(s) <==> GroupAt(s, 0)
  {
    if s != "" {
      var n := FirstBrace(s[1..]);
      var content := s[1..][..n];
      forall k | 0 < k < n + 1 ensures !IsBrace(s[k]) {
        assert s[k] == content[k - 1] && content[k - 1] in content;
      }
      if OpensGroup(s) {
        assert s[1 + n] == '}' && 0 + 1 < 1 + n < |s| && s[0] == '{';
      }
      if m :| 1 < m < |s| && s[0] == '{' && s[m] == '}' && forall k :: 0 < k < m ==> s[k] != '{' && s[k] != '}' {
        assert n < |s[1..]| ==> IsBrace(s[n + 1]);
        FirstBraceIs(s[1..], m - 1);
      }
    }
  }

  lemma {:induction false} FirstBraceIs(s: string, n: nat)
    requires n < |s| && IsBrace(s[n]) && forall k :: 0 <= k < n ==> !IsBrace(s[k])
    ensures FirstBrace(s) == n
  {
    if n > 0 {
      FirstBraceIs(s[1..], n - 1);
    }
  }

  lemma GroupAtLater(s: string, i: nat)
    requires s != ""
    ensures GroupAt(s, i + 1) <==> GroupAt(s[1..], i)
  {
    var t := s[1..];
    assert forall k :: 0 <= k < |t| ==> t[k] == s[k + 1];
    if n :| i + 2 < n < |s| && s[i + 1] == '{' && s[n] == '}' && forall k :: i + 1 < k < n ==> s[k] != '{' && s[k] != '}' {
      assert forall k :: i < k < n - 1 ==> t[k] == s[k + 1];
      assert t[n - 1] == '}';
    }
    if n :| i + 1 < n < |t| && t[i] == '{' && t[n] == '}' && forall k :: i < k < n ==> t[k] != '{' && t[k] != '}' {
      assert forall k :: i + 1 < k < n + 1 ==> s[k] == t[k - 1];
      assert s[n + 1] == '}';
    }
  }

  /** The group that is found is the leftmost one, and one is found whenever there is one. */
  lemma {:induction false} GroupIsLeftmost(s: string)
    ensures FindGroup(s) == None ==> forall i :: !GroupAt(s, i)
    ensures FindGroup(s).Some? ==>
              GroupAt(s, |FindGroup(s).value.pre|) && forall i :: i < |FindGroup(s).value.pre| ==> !GroupAt(s, i)
  {
    if s != "" {
      OpensIsGroup(s);
      if !OpensGroup(s) {
        GroupIsLeftmost(s[1..]);
        forall i: nat ensures GroupAt(s, i + 1) <==> GroupAt(s[1..], i) {
          GroupAtLater(s, i);
        }
        forall i | i > 0 && GroupAt(s, i)
          ensures GroupAt(s[1..], i - 1)
        {
          GroupAtLater(s, i - 1);
        }
      }
    }
  }

  function CommaJoin(parts: seq<string>): string
    requires parts != []
  {
    if |parts| == 1 then parts[0] else parts[0] + ("," + CommaJoin(parts[1..]))
  }

  /** A content is split at each of its commas. */
  lemma {:induction false} PartsJoin(s: string)
    ensures CommaJoin(SplitComma(s)) == s
    ensures forall part <- SplitComma(s) :: ',' !in part
  {
    forall part <- SplitComma(s) ensures ',' !in part {
      var i :| 0 <= i < |SplitComma(s)| && SplitComma(s)[i] == part;
      PartOfContent(s, i);
    }
    if s != "" {
      var rest := SplitComma(s[1..]);
      PartsJoin(s[1..]);
      assert s == [s[0]] + s[1..];
      if s[0] == ',' {
        assert ([""] + rest)[1..] == rest;
        assert "" + ("," + CommaJoin(rest)) == s;
      } else {
        assert ([[s[0]] + rest[0]] + rest[1..])[1..] == rest[1..];
        assert |rest| > 1 ==> ([s[0]] + rest[0]) + ("," + CommaJoin(rest[1..])) == [s[0]] + CommaJoin(rest);
      }
    }
  }

  /** One rewriting: the leftmost group gives way to each of its parts in turn, stripped. */
  lemma StepReplaces(s: string) returns (pre: string, parts: seq<string>, post: string)
    requires Step(s).Some?
    ensures parts != [] && s == pre + "{" + CommaJoin(parts) + "}" + post
    ensures GroupAt(s, |pre|) && forall i :: i < |pre| ==> !GroupAt(s, i)
    ensures forall part <- parts :: ',' !in part && BraceFree(part)
    ensures |Step(s).value| == |parts| && forall i :: 0 <= i < |parts| ==> Step(s).value[i] == pre + Strip(parts[i]) + post
  {
    var g := FindGroup(s).value;
    pre, parts, post := g.pre, SplitComma(g.content), g.post;
    GroupIsLeftmost(s);
    PartsJoin(g.content);
    forall part <- parts ensures BraceFree(part) {
      var i :| 0 <= i < |parts| && parts[i] == part;
      PartOfContent(g.content, i);
    }
  }

  // ---- the loop -------------------------------------------------------------

  /** All items that the rewriting of `s` ends in, in order. */
  function NormalForms(s: string): (items: seq<string>)
    ensures items != []
    decreases Opens(s), 1, 0
  {
    match Step(s)
    case None => [s]
    case Some(items) =>
      StepShrinks(s);
      NormalFormsOf(items, Opens(s))
  }

  function NormalFormsOf(items: seq<string>, bound: nat): (r: seq<string>)
    requires forall t <- items :: Opens(t) < bound
    ensures items != [] ==> r != []
    decreases bound, 0, |items|
  {
    if items == [] then [] else NormalForms(items[0]) + NormalFormsOf(items[1..], bound)
  }

  /** One pass over the list, as the body of the while loop makes it. */
  function Pass(items: seq<string>): seq<string> {
    if items == [] then []
    else Step(items[0]).GetOr([items[0]]) + Pass(items[1..])
  }

  lemma NormalFormsOfSettled(s: string)
    requires Step(s) == None
    ensures NormalForms(s) == [s]
  {
  }

  ghost function Flatten(items: seq<string>): seq<string> {
    if items == [] then [] else NormalForms(items[0]) + Flatten(items[1..])
  }

  /** The termination measure: the largest '{' count among items that still hold a group. */
  ghost function Rank(items: seq<string>): nat {
    if items == [] then 0
    else
      var here := if Step(items[0]).Some? then Opens(items[0]) else 0;
      var there := Rank(items[1..]);
      if here > there then here else there
  }

  ghost predicate Settled(items: seq<string>) {
    forall t <- items :: Step(t) == None
  }

  lemma FlattenConcat(a: seq<string>, b: seq<string>)
    ensures Flatten(a + b) == Flatten(a) + Flatten(b)
  {
    if a == [] {
      assert a + b == b;
    } else {
      assert (a + b)[1..] == a[1..] + b;
      FlattenConcat(a[1..], b);
    }
  }

  lemma FlattenIsNormalFormsOf(items: seq<string>, bound: nat)
    requires forall t <- items :: Opens(t) < bound
    ensures Flatten(items) == NormalFormsOf(items, bound)
  {
  }

  /** A pass leads towards the same normal forms. */
  lemma {:induction false} PassKeepsNormalForms(items: seq<string>)
    ensures Flatten(Pass(items)) == Flatten(items)
  {
    if items != [] {
      var head := Step(items[0]).GetOr([items[0]]);
      PassKeepsNormalForms(items[1..]);
      FlattenConcat(head, Pass(items[1..]));
      if Step(items[0]).Some? {
        StepShrinks(items[0]);
        FlattenIsNormalFormsOf(head, Opens(items[0]));
      } else {
        assert head[1..] == [];
      }
    }
  }

  lemma {:induction false} RankConcat(a: seq<string>, b: seq<string>)
    ensures Rank(a + b) == if Rank(a) > Rank(b) then Rank(a) else Rank(b)
  {
    if a == [] {
      assert a + b == b;
    } else {
      assert (a + b)[1..] == a[1..] + b;
      RankConcat(a[1..], b);
    }
  }

  lemma RankBelow(items: seq<string>, bound: nat)
    requires forall t <- items :: Opens(t) < bound
    ensures items != [] ==> Rank(items) < bound
  {
  }

  /** Every pass over an unsettled list lowers the measure. */
  lemma {:induction false} PassLowersRank(items: seq<string>)
    ensures Rank(Pass(items)) <= Rank(items)
    ensures Rank(items) > 0 ==> Rank(Pass(items)) < Rank(items)
  {
    if items != [] {
      var head := Step(items[0]).GetOr([items[0]]);
      PassLowersRank(items[1..]);
      RankConcat(head, Pass(items[1..]));
      if Step(items[0]).Some? {
        StepShrinks(items[0]);
        RankBelow(head, Opens(items[0]));
      } else {
        assert Rank(head) == 0 by { assert head[1..] == []; }
      }
    }
  }

  lemma SettledHasNoRank(items: seq<string>)
    ensures Settled(items) <==> Rank(items) == 0
  {
    if items != [] {
      SettledHasNoRank(items[1..]);
      if Step(items[0]).Some? {
        StepShrinks(items[0]);
      }
    }
  }

  lemma {:induction false} SettledIsFlat(items: seq<string>)
    requires Settled(items)
    ensures Flatten(items) == items && Pass(items) == items
  {
    if items != [] {
      assert Settled(items[1..]);
      SettledIsFlat(items[1..]);
      assert Step(items[0]) == None;
      NormalFormsOfSettled(items[0]);
      assert items == [items[0]] + items[1..];
    }
  }

  lemma PassGrows(items: seq<string>)
    ensures |Pass(items)| >= |items|
  {
  }

  lemma StepChanges(s: string)
    ensures Step(s) != Some([s])
  {
    if Step(s).Some? {
      StepShrinks(s);
      assert Step(s).value[0] in Step(s).value;
    }
  }

  /** The early exit of the loop: a pass that changes nothing found no group. */
  lemma {:induction false} FixpointIsSettled(items: seq<string>)
    requires Pass(items) == items
    ensures Settled(items)
  {
    if items != [] {
      var head, tail := Step(items[0]).GetOr([items[0]]), Pass(items[1..]);
      PassGrows(items[1..]);
      assert |head| == 1;
      assert (head + tail)[1..] == tail && head == [(head + tail)[0]];
      StepChanges(items[0]);
      FixpointIsSettled(items[1..]);
    }
  }

  /** The body of the while loop: one pass over the list. */
  method ExpandOnce(expanded: seq<string>) returns (nextItems: seq<string>)
    ensures nextItems == Pass(expanded)
  {
    nextItems := [];
    for i := 0 to |expanded|
      invariant nextItems + Pass(expanded[i..]) == Pass(expanded)
    {
      PassTurn(nextItems, expanded, i);
      match Step(expanded[i]) {
        case Some(parts) => nextItems := nextItems + parts;
        case None => nextItems := nextItems + [expanded[i]];
      }
    }
  }

  lemma PassTurn(done: seq<string>, items: seq<string>, i: nat)
    requires i < |items|
    ensures done + Pass(items[i..]) == (done + Step(items[i]).GetOr([items[i]])) + Pass(items[i + 1..])
  {
    assert items[i..][1..] == items[i + 1..];
  }

  lemma NoBraceIsSettled(items: seq<string>)
    requires forall item <- items :: '{' !in item
    ensures Settled(items)
  {
    forall t <- items ensures Step(t) == None {
      if Step(t).Some? {
        StepShrinks(t);
      }
    }
  }

  lemma FlattenOne(s: string)
    ensures Flatten([s]) == NormalForms(s)
  {
    assert Flatten([s][1..]) == [];
  }

  /** The loop of `locations`. It ends on every string, and only in normal forms. */
  method ExpandBraces(value: string) returns (expanded: seq<string>)
    ensures expanded == NormalForms(value)
    ensures Settled(expanded)
  {
    expanded := [value];
    FlattenOne(value);
    while exists item <- expanded :: '{' in item
      invariant Flatten(expanded) == NormalForms(value)
      decreases Rank(expanded)
    {
      var nextItems := ExpandOnce(expanded);
      PassKeepsNormalForms(expanded);
      if nextItems == expanded {
        FixpointIsSettled(expanded);
        SettledIsFlat(expanded);
        return;
      }
      UnsettledPassLowersRank(expanded);
      expanded := nextItems;
    }
    NoBraceIsSettled(expanded);
    SettledIsFlat(expanded);
  }

  lemma {:induction false} UnsettledPassLowersRank(items: seq<string>)
    requires Pass(items) != items
    ensures Rank(Pass(items)) < Rank(items)
  {
    PassLowersRank(items);
    SettledHasNoRank(items);
    if Settled(items) {
      SettledIsFlat(items);
    }
  }
}
