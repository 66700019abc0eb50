/** The order in which the planner considers its candidates. */
module PackOrder {
  import opened Text

  /** What the planner reads of a retrieved artifact. */
  datatype Artifact = Artifact(id: string, kind: string, score: real, tokens: nat) {

    /** Issue text and acceptance criteria are never dropped. */
    predicate Mandatory() {
      kind == "issue" || kind == "acceptance_criteria"
    }

    function TypeRank(): int {
      if "forge:" <= id then 7
      else match kind
           case "issue" => 0
           case "acceptance_criteria" => 1
           case "adr" => 2
           case "spec" => 3
           case "test" => 4
           case "code" => 5
           case "pr_review" => 6
           case "evidence" => 7
           case "procedure" => 8
           case "episode" => 9
           case "failure_pattern" => 10
           case _ => 99
    }
  }

  /** The order of the sort keys: mandatory first, then type rank, higher score, id. */
  predicate KeyLeq(a: Artifact, b: Artifact) {
    var m, n := if a.Mandatory() then 0 else 1, if b.Mandatory() then 0 else 1;
    var r, q := a.TypeRank(), b.TypeRank();
    m < n || (m == n && (r < q || (r == q && (a.score > b.score || (a.score == b.score && TextLeq(a.id, b.id))))))
  }

  /** The key order is total, transitive, and tells apart artifacts of different ids. */
  lemma KeyOrder(a: Artifact, b: Artifact, c: Artifact)
    ensures KeyLeq(a, b) || KeyLeq(b, a)
    ensures KeyLeq(a, b) && KeyLeq(b, a) ==> a.id == b.id
    ensures KeyLeq(a, b) && KeyLeq(b, c) ==> KeyLeq(a, c)
  {
    TextLeqTotal(a.id, b.id);
    if TextLeq(a.id, b.id) && TextLeq(b.id, c.id) {
      TextLeqTransitive(a.id, b.id, c.id);
    }
  }

  /** Types by authority. */
  const AUTHORITY := ["issue", "acceptance_criteria", "adr", "spec", "test", "code", "pr_review", "evidence",
                      "procedure", "episode", "failure_pattern"]

  lemma KindIsPlaced(kind: string)
    ensures forall i, id, score, tokens :: 0 <= i < 11 && kind == AUTHORITY[i] && !("forge:" <= id) ==>
              Artifact(id, kind, score, tokens).TypeRank() == i
    ensures forall id, score, tokens :: kind !in AUTHORITY && !("forge:" <= id) ==>
              Artifact(id, kind, score, tokens).TypeRank() == 99
  {
  }

  /** Remote content ranks as evidence, whatever it calls itself; the known types rank by
      authority, and unknown ones behind all of them. */
  lemma RankIsAuthority(a: Artifact)
    ensures "forge:" <= a.id ==> a.TypeRank() == 7 && AUTHORITY[7] == "evidence"
    ensures !("forge:" <= a.id) ==> forall i :: 0 <= i < |AUTHORITY| && a.kind == AUTHORITY[i] ==> a.TypeRank() == i
    ensures !("forge:" <= a.id) && a.kind !in AUTHORITY ==> a.TypeRank() > |AUTHORITY|
  {
    KindIsPlaced(a.kind);
    assert a == Artifact(a.id, a.kind, a.score, a.tokens);
  }

  ghost predicate Before(a: Artifact, b: Artifact) {
    KeyLeq(a, b) && !KeyLeq(b, a)
  }

  /** Issue and acceptance criteria come first; then the rank decides, then the higher score,
      then the id. */
  lemma KeyOrderMeans(a: Artifact, b: Artifact)
    ensures (a.kind == "issue" || a.kind == "acceptance_criteria") <==> a.Mandatory()
    ensures a.Mandatory() && !b.Mandatory() ==> Before(a, b)
    ensures a.Mandatory() == b.Mandatory() && a.TypeRank() < b.TypeRank() ==> Before(a, b)
    ensures a.Mandatory() == b.Mandatory() && a.TypeRank() == b.TypeRank() && a.score > b.score ==> Before(a, b)
    ensures (a.Mandatory() == b.Mandatory() && a.TypeRank() == b.TypeRank() && a.score == b.score
             && SmallerText(a.id, b.id)) ==> Before(a, b)
  {
    TextLeqMeans(a.id, b.id);
    TextLeqTotal(a.id, b.id);
  }

  // ---- the stable sort -----------------------------------------------------------

  function Insert(x: Artifact, s: seq<Artifact>): seq<Artifact> {
    if s == [] || KeyLeq(x, s[0]) then [x] + s else [s[0]] + Insert(x, s[1..])
  }

  /** `sorted(candidates, key=_sort_key)` */
  function Sort(s: seq<Artifact>): seq<Artifact> {
    if s == [] then [] else Insert(s[0], Sort(s[1..]))
  }

  ghost predicate Ordered(s: seq<Artifact>) {
    forall i, j :: 0 <= i < j < |s| ==> KeyLeq(s[i], s[j])
  }

  lemma InsertKeeps(x: Artifact, s: seq<Artifact>)
    requires Ordered(s)
    ensures Ordered(Insert(x, s)) && multiset(Insert(x, s)) == multiset(s) + multiset{x}
  {
    if s == [] {
    } else if KeyLeq(x, s[0]) {
      forall j | 0 <= j < |s| ensures KeyLeq(x, s[j]) {
        KeyOrder(x, s[0], s[j]);
        KeyOrder(s[0], s[j], x);
      }
    } else {
      KeyOrder(x, s[0], x);
      InsertKeeps(x, s[1..]);
      var rest := Insert(x, s[1..]);
      assert s == [s[0]] + s[1..];
      forall y <- rest ensures KeyLeq(s[0], y) {
        assert y in multiset(rest);
        assert y == x || y in s[1..];
      }
    }
  }

  lemma SortIsOrderedPermutation(s: seq<Artifact>)
    ensures Ordered(Sort(s)) && multiset(Sort(s)) == multiset(s)
  {
    if s != [] {
      SortIsOrderedPermutation(s[1..]);
      InsertKeeps(s[0], Sort(s[1..]));
      assert s == [s[0]] + s[1..];
    }
  }

  ghost predicate DistinctIds(s: seq<Artifact>) {
    forall i, j :: 0 <= i < j < |s| ==> s[i].id != s[j].id
  }

  lemma DistinctIdsOfElements(s: seq<Artifact>, a: Artifact, b: Artifact)
    requires DistinctIds(s) && a in s && b in s && a.id == b.id
    ensures a == b
  {
  }

  lemma DistinctCount(s: seq<Artifact>, a: Artifact)
    requires DistinctIds(s)
    ensures multiset(s)[a] <= 1
  {
    if s != [] {
      DistinctCount(s[1..], a);
      assert s == [s[0]] + s[1..];
      assert a in s[1..] ==> a in multiset(s[1..]) && a.id != s[0].id;
      assert a !in s[1..] ==> a !in multiset(s[1..]);
    }
  }

  lemma TwiceCount(t: seq<Artifact>, i: nat, j: nat)
    requires i < j < |t| && t[i] == t[j]
    ensures multiset(t)[t[i]] >= 2
  {
    assert t == t[..i] + [t[i]] + t[i + 1..j] + [t[j]] + t[j + 1..];
  }

  lemma ArrangementIsDistinct(s: seq<Artifact>, t: seq<Artifact>)
    requires DistinctIds(s) && multiset(s) == multiset(t)
    ensures DistinctIds(t)
  {
    forall i, j | 0 <= i < j < |t| ensures t[i].id != t[j].id {
      assert t[i] in multiset(t) && t[j] in multiset(t);
      if t[i].id == t[j].id {
        DistinctIdsOfElements(s, t[i], t[j]);
        TwiceCount(t, i, j);
        DistinctCount(s, t[i]);
      }
    }
  }

  ghost predicate IdsIdentify(s: multiset<Artifact>) {
    forall a, b :: a in s && b in s && a.id == b.id ==> a == b
  }

  lemma SameFront(s: seq<Artifact>, t: seq<Artifact>)
    requires Ordered(s) && Ordered(t) && multiset(s) == multiset(t)
    requires IdsIdentify(multiset(s)) && s != []
    ensures t != [] && s[0] == t[0]
    ensures multiset(s[1..]) == multiset(t[1..]) <= multiset(s)
  {
    assert s[0] in multiset(t);
    assert t[0] in multiset(s);
    SmallestFirst(s, t[0]);
    SmallestFirst(t, s[0]);
    KeyOrder(s[0], t[0], s[0]);
    assert s == [s[0]] + s[1..] && t == [t[0]] + t[1..];
    assert multiset(s[1..]) == multiset(s) - multiset{s[0]};
    assert multiset(t[1..]) == multiset(t) - multiset{t[0]};
  }

  /** Two ordered arrangements of the same artifacts, told apart by their ids, are equal. */
  lemma {:induction false} OrderedIsUnique(s: seq<Artifact>, t: seq<Artifact>)
    requires Ordered(s) && Ordered(t) && multiset(s) == multiset(t)
    requires IdsIdentify(multiset(s))
    ensures s == t
  {
    assert |multiset(s)| == |s| && |multiset(t)| == |t|;
    if s != [] {
      SameFront(s, t);
      OrderedIsUnique(s[1..], t[1..]);
      assert s == [s[0]] + s[1..] && t == [t[0]] + t[1..];
    }
  }

  lemma SmallestFirst(s: seq<Artifact>, a: Artifact)
    requires Ordered(s) && a in s
    ensures KeyLeq(s[0], a)
  {
    KeyOrder(a, a, a);
  }

  /** Sorting forgets the order in which the candidates came. */
  lemma SortForgetsOrder(s: seq<Artifact>, t: seq<Artifact>)
    requires DistinctIds(s) && multiset(s) == multiset(t)
    ensures Sort(s) == Sort(t)
  {
    SortIsOrderedPermutation(s);
    SortIsOrderedPermutation(t);
    forall a, b | a in multiset(Sort(s)) && b in multiset(Sort(s)) && a.id == b.id ensures a == b {
      DistinctIdsOfElements(s, a, b);
    }
    OrderedIsUnique(Sort(s), Sort(t));
  }
}
