/** The budgeted greedy planner of context packs. `plan_pack` keeps running totals;
    the meaning of a selection is the list alone. */
module PackPlanner {
  import opened PackOrder

  const TYPE_FAILURE_PATTERN := "failure_pattern"
  const FAILURE_PATTERN_FLOOR: nat := 2

  /** `type_caps` may leave out a kind; then the item budget is its cap. */
  datatype Budget = Budget(maxTokens: int, maxItems: int, typeCaps: map<string, int>) {
    function Cap(kind: string): int {
      if kind in typeCaps then typeCaps[kind] else maxItems
    }
  }

  function Tokens(items: seq<Artifact>): nat {
    if items == [] then 0 else Tokens(items[..|items| - 1]) + items[|items| - 1].tokens
  }

  function CountKind(items: seq<Artifact>, kind: string): nat {
    if items == [] then 0
    else CountKind(items[..|items| - 1], kind) + if items[|items| - 1].kind == kind then 1 else 0
  }

  function Ids(items: seq<Artifact>): set<string> {
    set a <- items :: a.id
  }

  /** Whether an optional artifact still fits next to the selected ones. */
  predicate Fits(items: seq<Artifact>, a: Artifact, b: Budget) {
    && |items| < b.maxItems
    && Tokens(items) + a.tokens <= b.maxTokens
    && CountKind(items, a.kind) < b.Cap(a.kind)
  }

  predicate Takes(items: seq<Artifact>, a: Artifact, b: Budget) {
    a.id !in Ids(items) && (a.Mandatory() || Fits(items, a, b))
  }

  function Consider(items: seq<Artifact>, a: Artifact, b: Budget): seq<Artifact> {
    if Takes(items, a, b) then items + [a] else items
  }

  function Greedy(items: seq<Artifact>, queue: seq<Artifact>, b: Budget): seq<Artifact>
    decreases |queue|
  {
    if queue == [] then items else Greedy(Consider(items, queue[0], b), queue[1..], b)
  }

  function Filter(f: Artifact -> bool, s: seq<Artifact>): (r: seq<Artifact>)
    ensures forall a :: a in r <==> a in s && f(a)
  {
    if s == [] then [] else (if f(s[0]) then [s[0]] else []) + Filter(f, s[1..])
  }

  function MandatoryOf(s: seq<Artifact>): seq<Artifact> {
    Filter((a: Artifact) => a.Mandatory(), s)
  }

  /** The first failure patterns, which have their turn before other optional artifacts. */
  function Reserved(s: seq<Artifact>): seq<Artifact> {
    var patterns := Filter((a: Artifact) => a.kind == TYPE_FAILURE_PATTERN, s);
    if |patterns| <= FAILURE_PATTERN_FLOOR then patterns else patterns[..FAILURE_PATTERN_FLOOR]
  }

  /** Mandatory artifacts, the reserved floor, then everything in sort order. */
  function Queue(ordered: seq<Artifact>): seq<Artifact> {
    MandatoryOf(ordered) + Reserved(ordered) + ordered
  }

  function Pack(candidates: seq<Artifact>, b: Budget): seq<Artifact> {
    Greedy([], Queue(Sort(candidates)), b)
  }

  lemma TokensAppend(items: seq<Artifact>, a: Artifact)
    ensures Tokens(items + [a]) == Tokens(items) + a.tokens
    ensures forall kind :: CountKind(items + [a], kind) == CountKind(items, kind) + if a.kind == kind then 1 else 0
    ensures Ids(items + [a]) == Ids(items) + {a.id}
  {
    assert (items + [a])[..|items|] == items;
  }

  /** The running totals of `plan_pack` agree with the selected list. */
  ghost predicate TotalsAgree(selected: seq<Artifact>, used: int, perType: map<string, int>, seen: set<string>) {
    && used == Tokens(selected)
    && seen == Ids(selected)
    && (forall kind <- perType :: perType[kind] == CountKind(selected, kind))
    && (forall a <- selected :: a.kind in perType)
  }

  lemma AbsentKindCountsZero(items: seq<Artifact>, kind: string)
    requires forall a <- items :: a.kind != kind
    ensures CountKind(items, kind) == 0
  {
  }

  function CountOf(perType: map<string, int>, kind: string): int {
    if kind in perType then perType[kind] else 0
  }

  lemma TotalsOfKind(selected: seq<Artifact>, used: int, perType: map<string, int>, seen: set<string>, kind: string)
    requires TotalsAgree(selected, used, perType, seen)
    ensures CountOf(perType, kind) == CountKind(selected, kind)
  {
    if kind !in perType { AbsentKindCountsZero(selected, kind); }
  }

  lemma TotalsAppend(selected: seq<Artifact>, used: int, perType: map<string, int>, seen: set<string>, a: Artifact)
    requires TotalsAgree(selected, used, perType, seen)
    ensures TotalsAgree(selected + [a], used + a.tokens, perType[a.kind := CountOf(perType, a.kind) + 1], seen + {a.id})
  {
    TokensAppend(selected, a);
    TotalsOfKind(selected, used, perType, seen, a.kind);
  }

  lemma GreedyTurn(items: seq<Artifact>, queue: seq<Artifact>, i: nat, b: Budget)
    requires i < |queue|
    ensures Greedy(items, queue[i..], b) == Greedy(Consider(items, queue[i], b), queue[i + 1..], b)
  {
    assert queue[i..][1..] == queue[i + 1..];
  }

  /** The tests of the loop, on its running totals, are those of `Takes`. */
  lemma TestsAgree(selected: seq<Artifact>, used: int, perType: map<string, int>, seen: set<string>, a: Artifact, b: Budget)
    requires TotalsAgree(selected, used, perType, seen)
    ensures Takes(selected, a, b) <==>
            && a.id !in seen
            && (a.Mandatory()
                || (|selected| < b.maxItems && used + a.tokens <= b.maxTokens && CountOf(perType, a.kind) < b.Cap(a.kind)))
  {
    TotalsOfKind(selected, used, perType, seen, a.kind);
  }

  method PlanPack(candidates: seq<Artifact>, b: Budget) returns (selected: seq<Artifact>)
    ensures selected == Pack(candidates, b)
  {
    selected := [];
    var used, seen: set<string> := 0, {};
    var perType: map<string, int> := map[];
    var queue := Queue(Sort(candidates));
    for i := 0 to |queue|
      invariant TotalsAgree(selected, used, perType, seen)
      invariant Greedy(selected, queue[i..], b) == Greedy([], queue, b)
    {
      var a := queue[i];
      GreedyTurn(selected, queue, i, b);
      TestsAgree(selected, used, perType, seen, a, b);
      TotalsAppend(selected, used, perType, seen, a);
      if a.id in seen {
        continue;
      }
      if a.Mandatory() {
        seen := seen + {a.id};
        selected := selected + [a];
        used := used + a.tokens;
        perType := perType[a.kind := CountOf(perType, a.kind) + 1];
        continue;
      }
      if |selected| >= b.maxItems || used + a.tokens > b.maxTokens {
        continue;
      }
      if CountOf(perType, a.kind) >= b.Cap(a.kind) {
        continue;
      }
      seen := seen + {a.id};
      selected := selected + [a];
      used := used + a.tokens;
      perType := perType[a.kind := CountOf(perType, a.kind) + 1];
    }
    assert queue[|queue|..] == [];
  }

  // ---- the order of the candidates does not matter ----------------------------------

  /** For candidates with distinct ids every arrangement yields the same pack, in the
      same order. */
  lemma PackForgetsOrder(s: seq<Artifact>, t: seq<Artifact>, b: Budget)
    requires DistinctIds(s) && multiset(s) == multiset(t)
    ensures Pack(s, b) == Pack(t, b)
  {
    SortForgetsOrder(s, t);
  }

  // ---- what the greedy pass keeps -----------------------------------------------------

  /** A selection only grows at its end. */
  lemma {:induction false} GreedyExtends(items: seq<Artifact>, queue: seq<Artifact>, b: Budget)
    ensures items <= Greedy(items, queue, b)
    decreases |queue|
  {
    if queue != [] {
      GreedyExtends(Consider(items, queue[0], b), queue[1..], b);
    }
  }

  lemma {:induction false} GreedyConcat(items: seq<Artifact>, p: seq<Artifact>, q: seq<Artifact>, b: Budget)
    ensures Greedy(items, p + q, b) == Greedy(Greedy(items, p, b), q, b)
    decreases |p|
  {
    if p == [] {
      assert p + q == q;
    } else {
      assert (p + q)[1..] == p[1..] + q;
      GreedyConcat(Consider(items, p[0], b), p[1..], q, b);
    }
  }

  lemma PrefixTotals(p: seq<Artifact>, s: seq<Artifact>)
    requires p <= s
    ensures Tokens(p) <= Tokens(s) && Ids(p) <= Ids(s)
    ensures forall kind :: CountKind(p, kind) <= CountKind(s, kind)
  {
    if |p| < |s| {
      PrefixTotals(p, s[..|s| - 1]);
    } else {
      assert p == s;
    }
  }

  /** An artifact that has had its turn is in the pack, or would not fit it any more. */
  lemma {:induction false} ConsideredOnce(items: seq<Artifact>, queue: seq<Artifact>, b: Budget, a: Artifact)
    requires a in queue
    ensures var pack := Greedy(items, queue, b);
            a.id in Ids(pack) || (!a.Mandatory() && !Fits(pack, a, b))
    decreases |queue|
  {
    var next := Consider(items, queue[0], b);
    if a == queue[0] {
      var pack := Greedy(items, queue, b);
      GreedyExtends(next, queue[1..], b);
      PrefixTotals(next, pack);
      TokensAppend(items, a);
    } else {
      assert a in queue[1..];
      ConsideredOnce(next, queue[1..], b, a);
    }
  }

  lemma SortKeepsElements(s: seq<Artifact>)
    ensures forall a :: a in Sort(s) <==> a in s
  {
    SortIsOrderedPermutation(s);
    assert forall a :: a in s <==> a in multiset(s);
    assert forall a :: a in Sort(s) <==> a in multiset(Sort(s));
  }

  /** Every mandatory id is in the pack whatever the budget, and no artifact that was
      left out would still fit the final pack: the items, the tokens, or the cap of its kind,
      which is the item budget for a kind without one, are used up. */
  lemma PackIsMaximal(candidates: seq<Artifact>, b: Budget)
    ensures forall a <- candidates :: a.id !in Ids(Pack(candidates, b)) ==>
              !a.Mandatory() && !Fits(Pack(candidates, b), a, b) && UsedUp(Pack(candidates, b), a, b)
    ensures forall a <- candidates :: a.Mandatory() ==> a.id in Ids(Pack(candidates, b))
  {
    SortKeepsElements(candidates);
    var queue := Queue(Sort(candidates));
    forall a <- candidates
      ensures a.id in Ids(Pack(candidates, b)) || (!a.Mandatory() && !Fits(Pack(candidates, b), a, b))
    {
      assert a in queue;
      ConsideredOnce([], queue, b, a);
    }
  }

  predicate UsedUp(items: seq<Artifact>, a: Artifact, b: Budget) {
    || |items| >= b.maxItems
    || Tokens(items) + a.tokens > b.maxTokens
    || CountKind(items, a.kind) >= if a.kind in b.typeCaps then b.typeCaps[a.kind] else b.maxItems
  }

  /** The mandatory part of a pack: what the pass holds after the mandatory artifacts. */
  function Core(candidates: seq<Artifact>, b: Budget): seq<Artifact> {
    Greedy([], MandatoryOf(Sort(candidates)), b)
  }

  function Max(x: int, y: int): int {
    if x < y then y else x
  }

  /** Bounds that a selection keeps once mandatory artifacts cannot be added any more. */
  ghost predicate Bounded(items: seq<Artifact>, core: seq<Artifact>, b: Budget) {
    && DistinctIds(items)
    && |items| <= Max(b.maxItems, |core|)
    && Tokens(items) <= Max(b.maxTokens, Tokens(core))
    && (forall a <- items :: !a.Mandatory() ==> CountKind(items, a.kind) <= b.Cap(a.kind))
  }

  lemma {:induction false} GreedyKeepsBounds(items: seq<Artifact>, queue: seq<Artifact>, core: seq<Artifact>, b: Budget)
    requires Bounded(items, core, b)
    requires forall a <- queue :: a.Mandatory() ==> a.id in Ids(items)
    ensures Bounded(Greedy(items, queue, b), core, b)
    decreases |queue|
  {
    if queue != [] {
      var a := queue[0];
      TokensAppend(items, a);
      assert a in queue;
      assert forall x <- queue[1..] :: x in queue;
      GreedyKeepsBounds(Consider(items, a, b), queue[1..], core, b);
    }
  }

  /** Mandatory artifacts alone. */
  lemma {:induction false} GreedyOnMandatory(items: seq<Artifact>, queue: seq<Artifact>, b: Budget)
    requires DistinctIds(items)
    requires forall a <- items + queue :: a.Mandatory()
    ensures DistinctIds(Greedy(items, queue, b))
    ensures forall a <- Greedy(items, queue, b) :: a.Mandatory()
    decreases |queue|
  {
    if queue != [] {
      var next := Consider(items, queue[0], b);
      assert queue[0] in items + queue;
      assert forall a <- items :: a in items + queue;
      assert forall a <- queue[1..] :: a in items + queue;
      TokensAppend(items, queue[0]);
      GreedyOnMandatory(next, queue[1..], b);
    }
  }

  lemma CoreIsMandatory(candidates: seq<Artifact>, b: Budget)
    ensures DistinctIds(Core(candidates, b))
    ensures forall a <- Core(candidates, b) :: a.Mandatory()
    ensures forall a <- candidates :: a.Mandatory() ==> a.id in Ids(Core(candidates, b))
  {
    var mandatory := MandatoryOf(Sort(candidates));
    SortKeepsElements(candidates);
    GreedyOnMandatory([], mandatory, b);
    forall a <- candidates | a.Mandatory() ensures a.id in Ids(Core(candidates, b)) {
      assert a in mandatory;
      ConsideredOnce([], mandatory, b, a);
    }
  }

  /** A pack is its mandatory core followed by optional artifacts. */
  lemma PackFromCore(candidates: seq<Artifact>, b: Budget)
    ensures var ordered := Sort(candidates);
            Pack(candidates, b) == Greedy(Greedy(Core(candidates, b), Reserved(ordered), b), ordered, b)
  {
    var ordered := Sort(candidates);
    GreedyConcat([], MandatoryOf(ordered) + Reserved(ordered), ordered, b);
    GreedyConcat([], MandatoryOf(ordered), Reserved(ordered), b);
  }

  lemma ReservedAreCandidates(s: seq<Artifact>)
    ensures |Reserved(s)| <= FAILURE_PATTERN_FLOOR
    ensures forall a <- Reserved(s) :: a in s && a.kind == TYPE_FAILURE_PATTERN && !a.Mandatory()
  {
    var isPattern := (a: Artifact) => a.kind == TYPE_FAILURE_PATTERN;
    var patterns := Filter(isPattern, s);
    assert Reserved(s) <= patterns;
    forall a <- Reserved(s)
      ensures a in s && a.kind == TYPE_FAILURE_PATTERN && !a.Mandatory()
    {
      assert a in patterns && isPattern(a);
      assert TYPE_FAILURE_PATTERN[0] == 'f' && "issue"[0] == 'i' && "acceptance_criteria"[0] == 'a';
    }
  }

  /** Items and tokens stay within the larger of the budget and the mandatory core, the
      caps of all optional kinds hold, and no id is taken twice. */
  lemma PackIsBounded(candidates: seq<Artifact>, b: Budget)
    ensures Core(candidates, b) <= Pack(candidates, b)
    ensures Bounded(Pack(candidates, b), Core(candidates, b), b)
  {
    var core, ordered := Core(candidates, b), Sort(candidates);
    CoreIsMandatory(candidates, b);
    SortKeepsElements(candidates);
    PackFromCore(candidates, b);
    ReservedAreCandidates(ordered);
    var floor := Greedy(core, Reserved(ordered), b);
    GreedyKeepsBounds(core, Reserved(ordered), core, b);
    GreedyExtends(core, Reserved(ordered), b);
    PrefixTotals(core, floor);
    GreedyKeepsBounds(floor, ordered, core, b);
    GreedyExtends(floor, ordered, b);
  }

  /** While the whole queue fits, every optional artifact of one kind is taken. */
  lemma {:induction false} AllFit(items: seq<Artifact>, queue: seq<Artifact>, kind: string, b: Budget)
    requires forall a <- queue :: a.kind == kind
    requires |items| + |queue| <= b.maxItems
    requires Tokens(items) + Tokens(queue) <= b.maxTokens
    requires CountKind(items, kind) + |queue| <= b.Cap(kind)
    ensures forall a <- queue :: a.id in Ids(Greedy(items, queue, b))
    decreases |queue|
  {
    if queue != [] {
      var a, next := queue[0], Consider(items, queue[0], b);
      TokensOfRest(queue);
      TokensAppend(items, a);
      assert a in queue;
      assert forall x <- queue[1..] :: x in queue;
      AllFit(next, queue[1..], kind, b);
      GreedyExtends(next, queue[1..], b);
      PrefixTotals(next, Greedy(items, queue, b));
      assert queue == [a] + queue[1..];
    }
  }

  lemma TokensOfRest(s: seq<Artifact>)
    requires s != []
    ensures Tokens(s) == s[0].tokens + Tokens(s[1..])
  {
    if |s| > 1 {
      TokensOfRest(s[..|s| - 1]);
      assert s[..|s| - 1][1..] == s[1..][..|s| - 2];
      assert s[1..][|s| - 2] == s[|s| - 1];
    }
  }

  /** The first two failure patterns are in the pack whenever they fit next to the
      mandatory core, however many other candidates compete. */
  lemma {:induction false} FailurePatternFloor(candidates: seq<Artifact>, b: Budget)
    ensures var core, reserved := Core(candidates, b), Reserved(Sort(candidates));
            && |core| + |reserved| <= b.maxItems
            && Tokens(core) + Tokens(reserved) <= b.maxTokens
            && |reserved| <= b.Cap(TYPE_FAILURE_PATTERN)
            ==> forall a <- reserved :: a.id in Ids(Pack(candidates, b))
  {
    var core, ordered := Core(candidates, b), Sort(candidates);
    var reserved := Reserved(ordered);
    if && |core| + |reserved| <= b.maxItems
       && Tokens(core) + Tokens(reserved) <= b.maxTokens
       && |reserved| <= b.Cap(TYPE_FAILURE_PATTERN) {
      CoreIsMandatory(candidates, b);
      ReservedAreCandidates(ordered);
      AbsentKindCountsZero(core, TYPE_FAILURE_PATTERN);
      AllFit(core, reserved, TYPE_FAILURE_PATTERN, b);
      PackFromCore(candidates, b);
      var floor := Greedy(core, reserved, b);
      GreedyExtends(floor, ordered, b);
      PrefixTotals(floor, Pack(candidates, b));
    }
  }

  // ---- the two failure patterns, by the facts -------------------------------------------

  lemma {:induction false} FilterKeepsOrder(f: Artifact -> bool, s: seq<Artifact>)
    requires Ordered(s)
    ensures Ordered(Filter(f, s))
  {
    if s != [] {
      var rest := Filter(f, s[1..]);
      FilterKeepsOrder(f, s[1..]);
      if f(s[0]) {
        assert forall a <- rest :: KeyLeq(s[0], a);
        assert Filter(f, s) == [s[0]] + rest;
      } else {
        assert Filter(f, s) == rest;
      }
    }
  }

  lemma {:induction false} FilterKeepsDistinct(f: Artifact -> bool, s: seq<Artifact>)
    requires DistinctIds(s)
    ensures DistinctIds(Filter(f, s))
  {
    if s != [] {
      var rest := Filter(f, s[1..]);
      FilterKeepsDistinct(f, s[1..]);
      if f(s[0]) {
        assert forall a <- rest :: s[0].id != a.id;
        assert Filter(f, s) == [s[0]] + rest;
      } else {
        assert Filter(f, s) == rest;
      }
    }
  }

  function PatternsOf(s: seq<Artifact>): seq<Artifact> {
    Filter((a: Artifact) => a.kind == TYPE_FAILURE_PATTERN, s)
  }

  lemma PatternsAreOrdered(candidates: seq<Artifact>)
    requires DistinctIds(candidates)
    ensures Ordered(PatternsOf(Sort(candidates))) && DistinctIds(PatternsOf(Sort(candidates)))
    ensures forall a :: a in PatternsOf(Sort(candidates)) <==> a in candidates && a.kind == "failure_pattern"
  {
    SortIsOrderedPermutation(candidates);
    SortKeepsElements(candidates);
    ArrangementIsDistinct(candidates, Sort(candidates));
    FilterKeepsOrder((a: Artifact) => a.kind == TYPE_FAILURE_PATTERN, Sort(candidates));
    FilterKeepsDistinct((a: Artifact) => a.kind == TYPE_FAILURE_PATTERN, Sort(candidates));
  }

  /** In an ordered list without repetitions, what no other element but `g` precedes is among
      the first two. */
  lemma AmongFirstTwo(s: seq<Artifact>, f: Artifact, g: Artifact)
    requires Ordered(s) && DistinctIds(s) && f in s && g in s && f != g
    requires forall x <- s :: x != f && x != g ==> KeyLeq(f, x)
    ensures |s| >= 2 && (f == s[0] || f == s[1])
  {
    var p :| 0 <= p < |s| && s[p] == f;
    var q :| 0 <= q < |s| && s[q] == g;
    if p >= 2 {
      var i := if q == 0 then 1 else 0;
      assert s[i] != g by { assert s[i].id != s[q].id; }
      assert s[i].id != f.id;
      KeyOrder(f, s[i], f);
    }
  }

  lemma TwoAreReserved(candidates: seq<Artifact>, f: Artifact, g: Artifact)
    requires DistinctIds(candidates) && f in candidates && g in candidates && f != g
    requires f.kind == g.kind == "failure_pattern"
    requires forall x <- candidates :: x.kind == "failure_pattern" && x != f && x != g ==> KeyLeq(f, x) && KeyLeq(g, x)
    ensures Reserved(Sort(candidates)) == [f, g] || Reserved(Sort(candidates)) == [g, f]
  {
    PatternsAreOrdered(candidates);
    FirstTwoAre(PatternsOf(Sort(candidates)), f, g);
  }

  lemma FirstTwoAre(s: seq<Artifact>, f: Artifact, g: Artifact)
    requires Ordered(s) && DistinctIds(s) && f in s && g in s && f != g
    requires forall x <- s :: x != f && x != g ==> KeyLeq(f, x) && KeyLeq(g, x)
    ensures |s| >= 2 && (s[..2] == [f, g] || s[..2] == [g, f])
  {
    AmongFirstTwo(s, f, g);
    AmongFirstTwo(s, g, f);
    assert s[..2] == [s[0], s[1]];
  }

  /** Two failure patterns that no other one precedes are packed whenever the two fit next to
      the mandatory core, in items, tokens and cap. */
  lemma FirstTwoPatternsArePacked(candidates: seq<Artifact>, f: Artifact, g: Artifact, b: Budget)
    requires DistinctIds(candidates) && f in candidates && g in candidates && f != g
    requires f.kind == g.kind == "failure_pattern"
    requires forall x <- candidates :: x.kind == "failure_pattern" && x != f && x != g ==> KeyLeq(f, x) && KeyLeq(g, x)
    requires |Core(candidates, b)| + 2 <= b.maxItems
    requires Tokens(Core(candidates, b)) + f.tokens + g.tokens <= b.maxTokens
    requires 2 <= if "failure_pattern" in b.typeCaps then b.typeCaps["failure_pattern"] else b.maxItems
    ensures f.id in Ids(Pack(candidates, b)) && g.id in Ids(Pack(candidates, b))
  {
    TwoAreReserved(candidates, f, g);
    TokensOfTwo(f, g);
    TokensOfTwo(g, f);
    FailurePatternFloor(candidates, b);
    assert f in Reserved(Sort(candidates)) && g in Reserved(Sort(candidates));
  }

  lemma TokensOfTwo(f: Artifact, g: Artifact)
    ensures Tokens([f, g]) == f.tokens + g.tokens && Tokens([f]) == f.tokens
  {
    assert [f, g][..1] == [f] && [f][..0] == [];
    assert Tokens([]) == 0;
  }

  lemma SingleElement(s: seq<Artifact>, f: Artifact)
    requires DistinctIds(s) && f in s && forall x <- s :: x == f
    ensures s == [f]
  {
    AllSameCount(s, f);
    DistinctCount(s, f);
  }

  lemma {:induction false} AllSameCount(s: seq<Artifact>, f: Artifact)
    requires forall x <- s :: x == f
    ensures multiset(s)[f] == |s|
  {
    if s != [] {
      assert s == [s[0]] + s[1..] && s[0] in s;
      assert forall x <- s[1..] :: x in s;
      AllSameCount(s[1..], f);
    }
  }

  /** The same for the only failure pattern. */
  lemma OnlyPatternIsPacked(candidates: seq<Artifact>, f: Artifact, b: Budget)
    requires DistinctIds(candidates) && f in candidates && f.kind == "failure_pattern"
    requires forall x <- candidates :: x.kind == "failure_pattern" ==> x == f
    requires |Core(candidates, b)| + 1 <= b.maxItems
    requires Tokens(Core(candidates, b)) + f.tokens <= b.maxTokens
    requires 1 <= if "failure_pattern" in b.typeCaps then b.typeCaps["failure_pattern"] else b.maxItems
    ensures f.id in Ids(Pack(candidates, b))
  {
    var patterns := PatternsOf(Sort(candidates));
    PatternsAreOrdered(candidates);
    assert forall x <- patterns :: x == f;
    SingleElement(patterns, f);
    TokensOfTwo(f, f);
    FailurePatternFloor(candidates, b);
    assert f in Reserved(Sort(candidates));
  }

  // ---- who is preferred --------------------------------------------------------------------

  lemma {:induction false} GreedyAdds(items: seq<Artifact>, queue: seq<Artifact>, b: Budget)
    ensures items <= Greedy(items, queue, b)
    ensures forall m :: |items| <= m < |Greedy(items, queue, b)| ==> Greedy(items, queue, b)[m] in queue
    decreases |queue|
  {
    if queue != [] {
      var next := Consider(items, queue[0], b);
      GreedyAdds(next, queue[1..], b);
      assert forall x <- queue[1..] :: x in queue;
      assert next == items || next == items + [queue[0]];
    }
  }

  /** The core and the floor. */
  function Floor(candidates: seq<Artifact>, b: Budget): seq<Artifact> {
    Greedy(Core(candidates, b), Reserved(Sort(candidates)), b)
  }

  /** No candidate is left out for one that comes after it in the order: at some moment it did
      not fit next to the first `n` items, which are mandatory, failure patterns or not after
      it, and all that was packed later is not before it. */
  lemma LeftOutHadItsTurn(candidates: seq<Artifact>, a: Artifact, b: Budget) returns (n: nat)
    requires a in candidates && a.id !in Ids(Pack(candidates, b))
    ensures n <= |Pack(candidates, b)| && UsedUp(Pack(candidates, b)[..n], a, b)
    ensures forall m :: 0 <= m < n ==>
              var x := Pack(candidates, b)[m]; x.Mandatory() || x.kind == "failure_pattern" || KeyLeq(x, a)
    ensures forall m :: n <= m < |Pack(candidates, b)| ==> KeyLeq(a, Pack(candidates, b)[m])
  {
    var ordered, pack := Sort(candidates), Pack(candidates, b);
    SortKeepsElements(candidates);
    var p :| 0 <= p < |ordered| && ordered[p] == a;
    var early := Greedy(Floor(candidates, b), ordered[..p], b);
    PackFromTurn(candidates, b, p);
    assert ordered[p..][0] == a;
    NotTaken(early, ordered[p..], b, a);
    GreedyAdds(early, ordered[p..], b);
    n := |early|;
    assert pack[..n] == early;
    forall m | n <= m < |pack| ensures KeyLeq(a, pack[m]) {
      LateItem(candidates, p, pack[m]);
    }
    forall m | 0 <= m < n
      ensures pack[m].Mandatory() || pack[m].kind == "failure_pattern" || KeyLeq(pack[m], a)
    {
      assert pack[m] == early[m];
      EarlyItem(candidates, b, early, p, m);
    }
  }

  /** The pack from the turn of the `p`-th candidate on. */
  lemma PackFromTurn(candidates: seq<Artifact>, b: Budget, p: nat)
    requires p <= |Sort(candidates)|
    ensures var ordered := Sort(candidates);
            Pack(candidates, b) == Greedy(Greedy(Floor(candidates, b), ordered[..p], b), ordered[p..], b)
  {
    var ordered := Sort(candidates);
    PackFromCore(candidates, b);
    assert ordered == ordered[..p] + ordered[p..];
    GreedyConcat(Floor(candidates, b), ordered[..p], ordered[p..], b);
  }

  lemma LateItem(candidates: seq<Artifact>, p: nat, x: Artifact)
    requires p < |Sort(candidates)| && x in Sort(candidates)[p..]
    ensures KeyLeq(Sort(candidates)[p], x)
  {
    SortIsOrderedPermutation(candidates);
    KeyOrder(x, x, x);
  }

  lemma EarlyItem(candidates: seq<Artifact>, b: Budget, early: seq<Artifact>, p: nat, m: nat)
    requires p < |Sort(candidates)| && early == Greedy(Floor(candidates, b), Sort(candidates)[..p], b) && m < |early|
    ensures early[m].Mandatory() || early[m].kind == "failure_pattern" || KeyLeq(early[m], Sort(candidates)[p])
  {
    var core, ordered, floor := Core(candidates, b), Sort(candidates), Floor(candidates, b);
    SortIsOrderedPermutation(candidates);
    CoreIsMandatory(candidates, b);
    ReservedAreCandidates(ordered);
    GreedyAdds(core, Reserved(ordered), b);
    GreedyAdds(floor, ordered[..p], b);
    if m < |core| {
      assert early[m] == floor[m] == core[m];
    } else if m < |floor| {
      assert early[m] == floor[m] && floor[m] in Reserved(ordered);
    } else {
      assert early[m] in ordered[..p];
    }
  }

  lemma NotTaken(items: seq<Artifact>, queue: seq<Artifact>, b: Budget, a: Artifact)
    requires queue != [] && queue[0] == a && a.id !in Ids(Greedy(items, queue, b))
    ensures !a.Mandatory() && UsedUp(items, a, b)
  {
    GreedyExtends(Consider(items, a, b), queue[1..], b);
    PrefixTotals(Consider(items, a, b), Greedy(items, queue, b));
    TokensAppend(items, a);
    PrefixTotals(items, Greedy(items, queue, b));
  }

  lemma {:induction false} GreedyAddsInOrder(items: seq<Artifact>, queue: seq<Artifact>, b: Budget)
    requires Ordered(queue)
    ensures |items| <= |Greedy(items, queue, b)| && Ordered(Greedy(items, queue, b)[|items|..])
    decreases |queue|
  {
    if queue != [] {
      var next, all := Consider(items, queue[0], b), Greedy(items, queue, b);
      GreedyAddsInOrder(next, queue[1..], b);
      GreedyAdds(next, queue[1..], b);
      if next != items {
        assert all[|items|..] == [queue[0]] + all[|next|..];
        forall a <- all[|next|..] ensures KeyLeq(queue[0], a) {
          assert a in queue[1..];
        }
      }
    }
  }

  /** A pack is in the order of the keys in each of its three parts: the mandatory core, up to
      two failure patterns, and the rest. */
  lemma PackIsOrderedInParts(candidates: seq<Artifact>, b: Budget)
    ensures var core, floor, pack := Core(candidates, b), Floor(candidates, b), Pack(candidates, b);
            && core <= floor <= pack && |floor| <= |core| + 2
            && Ordered(core) && Ordered(floor[|core|..]) && Ordered(pack[|floor|..])
            && (forall a <- core :: a.Mandatory()) && (forall a <- floor[|core|..] :: a.kind == "failure_pattern")
  {
    var ordered, core := Sort(candidates), Core(candidates, b);
    SortIsOrderedPermutation(candidates);
    FilterKeepsOrder((a: Artifact) => a.Mandatory(), ordered);
    FilterKeepsOrder((a: Artifact) => a.kind == TYPE_FAILURE_PATTERN, ordered);
    GreedyAddsInOrder([], MandatoryOf(ordered), b);
    assert core[0..] == core;
    CoreIsMandatory(candidates, b);
    ReservedAreCandidates(ordered);
    FloorParts(core, Reserved(ordered), b);
    PackFromCore(candidates, b);
    GreedyAddsInOrder(Floor(candidates, b), ordered, b);
    GreedyExtends(Floor(candidates, b), ordered, b);
  }

  lemma FloorParts(core: seq<Artifact>, reserved: seq<Artifact>, b: Budget)
    requires Ordered(reserved) && |reserved| <= 2 && forall a <- reserved :: a.kind == "failure_pattern"
    ensures var floor := Greedy(core, reserved, b);
            && core <= floor && |floor| <= |core| + 2 && Ordered(floor[|core|..])
            && forall a <- floor[|core|..] :: a.kind == "failure_pattern"
  {
    GreedyAddsInOrder(core, reserved, b);
    GreedyAdds(core, reserved, b);
    GreedyGrowsByQueue(core, reserved, b);
  }

  lemma {:induction false} GreedyGrowsByQueue(items: seq<Artifact>, queue: seq<Artifact>, b: Budget)
    ensures |Greedy(items, queue, b)| <= |items| + |queue|
    decreases |queue|
  {
    if queue != [] {
      GreedyGrowsByQueue(Consider(items, queue[0], b), queue[1..], b);
    }
  }

  /** Nothing but candidates is packed. */
  lemma {:induction false} GreedyTakesFromQueue(items: seq<Artifact>, queue: seq<Artifact>, b: Budget, a: Artifact)
    requires a in Greedy(items, queue, b)
    ensures a in items || a in queue
    decreases |queue|
  {
    if queue != [] {
      GreedyTakesFromQueue(Consider(items, queue[0], b), queue[1..], b, a);
    }
  }

  lemma PackTakesCandidates(candidates: seq<Artifact>, b: Budget)
    ensures forall a <- Pack(candidates, b) :: a in candidates
  {
    SortKeepsElements(candidates);
    ReservedAreCandidates(Sort(candidates));
    forall a <- Pack(candidates, b) ensures a in candidates {
      GreedyTakesFromQueue([], Queue(Sort(candidates)), b, a);
    }
  }
}
