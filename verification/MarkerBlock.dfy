/** The agent_crew block inside AGENTS.md and GEMINI.md: a marker-bracketed region
    is written into a text that otherwise belongs to the user. */
module MarkerBlock {
  import opened Text

  const BEGIN_MARK := "<!-- agent_crew:begin -->"
  const END_MARK := "<!-- agent_crew:end -->"

  /** The two markers, and all that the proofs use about their spelling. */
  datatype Markers = Markers(begin: string, end: string) {

    ghost predicate Sound() {
      && |begin| > 16 && |end| > 16 && begin[16] != end[16]
      && begin[0] == end[0] != '\n'
      && OnlyFirst(begin, begin[0]) && OnlyFirst(end, end[0])
      && OnlyFirst(begin, '\n') && OnlyFirst(end, '\n')
    }

    function Bracketed(block: string): string {
      begin + "\n" + block + "\n" + end
    }

    /** Both markers are present and the first END is not before the first BEGIN. */
    predicate HasBlock(existing: string) {
      var b, e := Find(existing, begin), Find(existing, end);
      b != -1 && e != -1 && b <= e
    }

    function Merge(existing: string, block: string): string {
      var b, e := Find(existing, begin), Find(existing, end);
      if b == -1 || e == -1 || e < b then
        if existing == "" then Bracketed(block) + "\n"
        else Bracketed(block) + "\n\n" + existing
      else
        existing[..b] + Bracketed(block) + existing[e + |end|..]
    }

    /** The text before, inside and after the region that a merge owns. */
    ghost function Before(existing: string): string {
      if HasBlock(existing) then existing[..Find(existing, begin)] else ""
    }

    ghost function Owned(existing: string): string
      requires HasBlock(existing)
    {
      existing[Find(existing, begin)..Find(existing, end) + |end|]
    }

    ghost function After(existing: string): string {
      if HasBlock(existing) then existing[Find(existing, end) + |end|..]
      else if existing == "" then "\n"
      else "\n\n" + existing
    }
  }

  /** Merge with the markers of the repository. */
  function MergeAgentCrewBlock(existing: string, block: string): string {
    Markers(BEGIN_MARK, END_MARK).Merge(existing, block)
  }

  lemma MarkersAreSound()
    ensures Markers(BEGIN_MARK, END_MARK).Sound()
  {
  }

  lemma BeginHasNoEnd(m: Markers)
    requires m.Sound()
    ensures !Contains(m.begin, m.end)
  {
    // An occurrence could only start at the one '<', and there the spellings differ.
    var probe := [CharAt(m.end, 0), CharAt(m.end, 16), CharAt(m.begin, Find(m.begin, m.end))];
  }

  /** The two markers cannot overlap. */
  lemma MarkersApart(m: Markers, existing: string)
    requires m.Sound() && m.HasBlock(existing)
    ensures Find(existing, m.begin) + |m.begin| <= Find(existing, m.end)
  {
    var b, e := Find(existing, m.begin), Find(existing, m.end);
    assert existing[b + 16] == m.begin[16];
    assert existing[e + 16] == m.end[16];
    Apart(existing, m.begin, m.end, b, e);
  }

  /** Text outside the owned region is kept: only the region changes. Without a
      region the whole existing text follows the new block. */
  lemma OutsideIsPreserved(m: Markers, existing: string, block: string)
    ensures m.Merge(existing, block) == m.Before(existing) + m.Bracketed(block) + m.After(existing)
    ensures !m.HasBlock(existing) ==>
              && m.Before(existing) == ""
              && existing == m.After(existing)[if existing == "" then 1 else 2..]
  {
    var b := m.Bracketed(block);
    if !m.HasBlock(existing) {
      var gap := if existing == "" then "\n" else "\n\n";
      assert "" + b + (gap + existing) == b + gap + existing;
      assert (gap + existing)[|gap|..] == existing;
    }
  }

  /** The owned region runs from the first BEGIN to the first END, and the existing
      text is the part before it, the region and the part after it. */
  lemma {:induction false} OwnedRegion(m: Markers, existing: string)
    requires m.Sound() && m.HasBlock(existing)
    ensures existing == m.Before(existing) + m.Owned(existing) + m.After(existing)
    ensures OccursAt(m.Owned(existing), m.begin, 0)
    ensures OccursAt(m.Owned(existing), m.end, |m.Owned(existing)| - |m.end|)
  {
    MarkersApart(m, existing);
    var b, e := RegionBounds(m, existing);
    CutRegion(existing, m.begin, m.end, b, e);
  }

  lemma RegionBounds(m: Markers, existing: string) returns (b: nat, e: nat)
    requires m.HasBlock(existing)
    ensures b == Find(existing, m.begin) && e == Find(existing, m.end)
    ensures OccursAt(existing, m.begin, b) && OccursAt(existing, m.end, e) && b <= e
    ensures m.Before(existing) == existing[..b] && m.After(existing) == existing[e + |m.end|..]
    ensures m.Owned(existing) == existing[b..e + |m.end|]
  {
    b, e := Find(existing, m.begin), Find(existing, m.end);
  }

  lemma CutRegion(s: string, t: string, u: string, b: nat, e: nat)
    requires OccursAt(s, t, b) && OccursAt(s, u, e) && b + |t| <= e
    ensures var owned := s[b..e + |u|];
            && s == s[..b] + owned + s[e + |u|..]
            && OccursAt(owned, t, 0) && OccursAt(owned, u, |owned| - |u|)
  {
    OccursInSlice(s, t, b, b, e + |u|);
    OccursInSlice(s, u, e, b, e + |u|);
    SplitInThree(s, b, e + |u|);
  }

  lemma OccursInSlice(s: string, t: string, i: nat, from: nat, to: nat)
    requires OccursAt(s, t, i) && from <= i && i + |t| <= to <= |s|
    ensures OccursAt(s[from..to], t, i - from)
  {
  }

  lemma SplitInThree(s: string, i: nat, j: nat)
    requires i <= j <= |s|
    ensures s == s[..i] + s[i..j] + s[j..]
  {
  }

  /** A bracketed block between two texts, as the pieces that a search passes. */
  lemma Pieces(m: Markers, pre: string, block: string, post: string)
    ensures pre + m.Bracketed(block) + post ==
            pre + (m.begin + (['\n'] + (block + (['\n'] + (m.end + post)))))
  {
    assert m.Bracketed(block) + post == m.begin + (['\n'] + (block + (['\n'] + (m.end + post))));
  }

  /** Where the first END of a freshly bracketed text stands. */
  lemma EndOfBracketed(m: Markers, pre: string, block: string, post: string)
    requires m.Sound() && !Contains(pre, m.end)
    ensures Find(pre + m.Bracketed(block) + post, m.end) ==
            |pre| + |m.begin| + 1 + (if Contains(block, m.end) then Find(block, m.end) else |block| + 1)
  {
    Pieces(m, pre, block, post);
    var body := block + (['\n'] + (m.end + post));
    EndOfBody(m, block, post);
    FindSkip('\n', body, m.end);
    BeginHasNoEnd(m);
    FindAfter(m.begin, ['\n'] + body, m.end);
    FindAfter(pre, m.begin + (['\n'] + body), m.end);
  }

  lemma EndOfBody(m: Markers, block: string, post: string)
    requires m.Sound()
    ensures var body := block + (['\n'] + (m.end + post));
            && Contains(body, m.end)
            && Find(body, m.end) == if Contains(block, m.end) then Find(block, m.end) else |block| + 1
  {
    var tail := m.end + post;
    FindAtFront(m.end, post);
    FindSkip('\n', tail, m.end);
    if Contains(block, m.end) {
      FindInLeft(block, ['\n'] + tail, m.end);
    } else {
      FindAfter(block, ['\n'] + tail, m.end);
    }
  }

  lemma BeginOfBracketed(m: Markers, pre: string, block: string, post: string)
    requires m.Sound() && !Contains(pre, m.begin)
    ensures Find(pre + m.Bracketed(block) + post, m.begin) == |pre|
  {
    var tail := ['\n'] + (block + (['\n'] + (m.end + post)));
    Pieces(m, pre, block, post);
    FindAtFront(m.begin, tail);
    FindAfter(pre, m.begin + tail, m.begin);
  }

  /** Neither marker is in the text before the owned region. */
  lemma BeforeIsClean(m: Markers, existing: string)
    requires m.Sound()
    ensures !Contains(m.Before(existing), m.begin)
    ensures !Contains(m.Before(existing), m.end)
  {
    var pre := m.Before(existing);
    if m.HasBlock(existing) {
      assert OccursAt(existing, m.begin, Find(pre, m.begin)) || !Contains(pre, m.begin);
      assert OccursAt(existing, m.end, Find(pre, m.end)) || !Contains(pre, m.end);
    }
  }

  /** What an END marker inside a block leaves behind when the block is replaced. */
  ghost function Leftover(m: Markers, block: string): string {
    if Contains(block, m.end) then block[Find(block, m.end) + |m.end|..] + "\n" + m.end else ""
  }

  /** What a second merge does to the region that the first one wrote. */
  lemma {:induction false} SecondMerge(m: Markers, existing: string, first: string, second: string)
    requires m.Sound()
    ensures m.Merge(m.Merge(existing, first), second) ==
            m.Before(existing) + m.Bracketed(second) + (Leftover(m, first) + m.After(existing))
  {
    OutsideIsPreserved(m, existing, first);
    BeforeIsClean(m, existing);
    MergeOfBracketed(m, m.Before(existing), first, m.After(existing), second);
  }

  /** A merge into a text that holds a freshly bracketed block. */
  lemma MergeOfBracketed(m: Markers, pre: string, first: string, post: string, second: string)
    requires m.Sound() && !Contains(pre, m.begin) && !Contains(pre, m.end)
    ensures m.Merge(pre + m.Bracketed(first) + post, second) ==
            pre + m.Bracketed(second) + (Leftover(m, first) + post)
  {
    BeginOfBracketed(m, pre, first, post);
    EndOfBracketed(m, pre, first, post);
    LeftoverOfBracketed(m, first);
    var region, k := m.Bracketed(first), |m.Bracketed(first)| - |Leftover(m, first)|;
    MergeAt(m, pre + region + post, second, |pre|, |pre| + k - |m.end|);
    CutInMiddle(pre, region, post, k);
  }

  /** A merge whose searches are done. */
  lemma MergeAt(m: Markers, existing: string, block: string, b: nat, e: nat)
    requires Find(existing, m.begin) == b && Find(existing, m.end) == e && b <= e
    ensures e + |m.end| <= |existing|
    ensures m.Merge(existing, block) == existing[..b] + m.Bracketed(block) + existing[e + |m.end|..]
  {
  }

  lemma CutInMiddle(x: string, y: string, z: string, k: nat)
    requires k <= |y|
    ensures (x + y + z)[..|x|] == x
    ensures (x + y + z)[|x| + k..] == y[k..] + z
  {
  }

  /** The text from the first END of a bracketed block on. */
  lemma LeftoverOfBracketed(m: Markers, block: string)
    ensures var k := if Contains(block, m.end) then Find(block, m.end) else |block| + 1;
            && |m.Bracketed(block)| - |Leftover(m, block)| == |m.begin| + 1 + k + |m.end|
            && m.Bracketed(block)[|m.begin| + 1 + k + |m.end|..] == Leftover(m, block)
  {
    if Contains(block, m.end) {
      var k := Find(block, m.end) + |m.end|;
      CutInMiddle(m.begin + "\n", block, "\n" + m.end, k);
      assert m.Bracketed(block) == (m.begin + "\n") + block + ("\n" + m.end);
      assert block[k..] + ("\n" + m.end) == Leftover(m, block);
    }
  }

  /** A regeneration replaces the previous one, for every existing text, stray and
      reversed markers included, exactly when the earlier block does not itself
      hold the END marker. */
  lemma LastMergeWins(existing: string, first: string, second: string)
    ensures MergeAgentCrewBlock(MergeAgentCrewBlock(existing, first), second) == MergeAgentCrewBlock(existing, second)
        <==> !Contains(first, END_MARK)
  {
    MarkersAreSound();
    var m := Markers(BEGIN_MARK, END_MARK);
    SecondMerge(m, existing, first, second);
    OutsideIsPreserved(m, existing, second);
    assert Leftover(m, first) + m.After(existing) == m.After(existing) <==> !Contains(first, END_MARK);
  }

  /** Hence writing the same block twice is writing it once. */
  lemma MergeIsIdempotent(existing: string, block: string)
    requires !Contains(block, END_MARK)
    ensures MergeAgentCrewBlock(MergeAgentCrewBlock(existing, block), block) == MergeAgentCrewBlock(existing, block)
  {
    LastMergeWins(existing, block, block);
  }

  // ---- what is written, character by character --------------------------------------------

  /** A first write: the block between its markers, an empty line, and the text as it was. */
  lemma FirstWrite(existing: string, block: string)
    requires !Contains(existing, "<!-- agent_crew:begin -->") || !Contains(existing, "<!-- agent_crew:end -->")
    ensures existing != "" ==>
              MergeAgentCrewBlock(existing, block) ==
              "<!-- agent_crew:begin -->\n" + block + "\n<!-- agent_crew:end -->" + "\n\n" + existing
    ensures existing == "" ==>
              MergeAgentCrewBlock(existing, block) == "<!-- agent_crew:begin -->\n" + block + "\n<!-- agent_crew:end -->" + "\n"
  {
    MarkedText(block);
  }

  lemma BracketText(begin: string, end: string, block: string)
    ensures Markers(begin, end).Bracketed(block) == (begin + "\n") + block + ("\n" + end)
  {
  }

  lemma RewriteBracketed(m: Markers, pre: string, earlier: string, post: string, block: string)
    requires m.Sound() && !Contains(pre, m.begin) && !Contains(pre, m.end) && !Contains(earlier, m.end)
    ensures m.Merge(pre + m.Bracketed(earlier) + post, block) == pre + m.Bracketed(block) + post
  {
    MergeOfBracketed(m, pre, earlier, post, block);
    assert Leftover(m, earlier) + post == post;
  }

  /** A rewrite: what stands between the first BEGIN and the first END is replaced, and the
      text on both sides stays as it is, further markers after the END included. */
  lemma RewriteIsLocal(pre: string, earlier: string, post: string, block: string)
    requires !Contains(pre, BEGIN_MARK) && !Contains(pre, END_MARK) && !Contains(earlier, END_MARK)
    ensures MergeAgentCrewBlock(pre + Markers(BEGIN_MARK, END_MARK).Bracketed(earlier) + post, block) ==
            pre + Markers(BEGIN_MARK, END_MARK).Bracketed(block) + post
    ensures Markers(BEGIN_MARK, END_MARK).Bracketed(block) ==
            "<!-- agent_crew:begin -->\n" + block + "\n<!-- agent_crew:end -->"
  {
    MarkersAreSound();
    RewriteBracketed(Markers(BEGIN_MARK, END_MARK), pre, earlier, post, block);
    MarkedText(block);
  }

  lemma MarkedText(block: string)
    ensures Markers(BEGIN_MARK, END_MARK).Bracketed(block) ==
            "<!-- agent_crew:begin -->\n" + block + "\n<!-- agent_crew:end -->"
  {
    BracketText(BEGIN_MARK, END_MARK, block);
    assert BEGIN_MARK + "\n" == "<!-- agent_crew:begin -->\n" && "\n" + END_MARK == "\n<!-- agent_crew:end -->";
  }

  /** Markers in the wrong order are not a block. */
  lemma ReversedMarkersAreText(existing: string, block: string)
    requires Contains(existing, BEGIN_MARK) && Contains(existing, END_MARK)
    requires Find(existing, END_MARK) < Find(existing, BEGIN_MARK)
    ensures MergeAgentCrewBlock(existing, block) ==
            "<!-- agent_crew:begin -->\n" + block + "\n<!-- agent_crew:end -->" + "\n\n" + existing
  {
    MarkedText(block);
  }
}
