/** Why the lines of a transcript are torn-safe: a JSON object text cannot end with a
    shorter object text (sections 4 and 7 of RFC 8259). A small lexer follows braces,
    strings and escapes; every object text leads it to `Closed`. */
module JsonObjectLines {
  import opened TranscriptTail

  const QUOTE: byte := 34
  const BACKSLASH: byte := 92
  const OPEN: byte := 123
  const CLOSE: byte := 125

  /** Before the object; outside a string at a depth; inside one; after a backslash in one;
      after the closing brace. */
  datatype Lexer = Before | Outside(depth: nat) | Inside(depth: nat) | Escaped(depth: nat) | Closed | Stuck

  predicate JsonSpace(b: byte) {
    b == 32 || b == 9 || b == 10 || b == 13
  }

  function Next(l: Lexer, b: byte): Lexer {
    match l
    case Before => if JsonSpace(b) then Before else if b == OPEN then Outside(1) else Stuck
    case Outside(d) =>
      if b == QUOTE then Inside(d)
      else if b == BACKSLASH then Stuck
      else if b == OPEN then Outside(d + 1)
      else if b == CLOSE then if d <= 1 then Closed else Outside(d - 1)
      else Outside(d)
    case Inside(d) => if b == QUOTE then Outside(d) else if b == BACKSLASH then Escaped(d) else Inside(d)
    case Escaped(d) => Inside(d)
    case Closed => if JsonSpace(b) then Closed else Stuck
    case Stuck => Stuck
  }

  function Run(l: Lexer, text: seq<byte>): Lexer
    decreases text
  {
    if text == [] then l else Run(Next(l, text[0]), text[1..])
  }

  /** What the grammar of an object text implies. */
  predicate ObjectShaped(text: seq<byte>) {
    Run(Before, text) == Closed
  }

  lemma RunConcat(l: Lexer, a: seq<byte>, b: seq<byte>)
    ensures Run(l, a + b) == Run(Run(l, a), b)
    decreases a
  {
    if a == [] {
      assert a + b == b;
    } else {
      assert (a + b)[1..] == a[1..] + b;
      RunConcat(Next(l, a[0]), a[1..], b);
    }
  }

  /** How a lexer that started earlier, inside the object, relates to one that started
      later: deeper by at least one, or at the opposite side of every quote. */
  ghost predicate Behind(early: Lexer, late: Lexer) {
    match late
    case Before => !early.Before?
    case Outside(e) => e >= 1 && (early.Stuck? || (early.Outside? && early.depth > e) || early.Inside?)
    case Inside(e) => e >= 1 && (early.Stuck? || early.Closed? || (early.Inside? && early.depth > e) || early.Outside?)
    case Escaped(e) => e >= 1 && (early.Stuck? || (early.Escaped? && early.depth > e))
    case Closed => early.Stuck? || (early.Outside? && early.depth >= 1) || early.Inside?
    case Stuck => true
  }

  ghost predicate Sane(l: Lexer) {
    (l.Outside? || l.Inside? || l.Escaped?) ==> l.depth >= 1
  }

  lemma {:induction false} NeverBothClosed(early: Lexer, late: Lexer, text: seq<byte>)
    requires Behind(early, late) && Sane(early)
    ensures Run(early, text) != Closed || Run(late, text) != Closed
    decreases text
  {
    if text != [] {
      StuckStays(text[1..]);
      if Next(early, text[0]) != Stuck && Next(late, text[0]) != Stuck {
        NeverBothClosed(Next(early, text[0]), Next(late, text[0]), text[1..]);
      }
    }
  }

  lemma StuckStays(text: seq<byte>)
    ensures Run(Stuck, text) == Stuck
  {
  }

  lemma LeavesBefore(text: seq<byte>)
    ensures Run(Before, text) == Before <==> forall b <- text :: JsonSpace(b)
    ensures Sane(Run(Before, text))
  {
    if text != [] {
      SaneStays(Next(Before, text[0]), text[1..]);
      assert text == [text[0]] + text[1..];
    }
  }

  lemma SaneStays(l: Lexer, text: seq<byte>)
    requires Sane(l)
    ensures Sane(Run(l, text))
    ensures !l.Before? ==> !Run(l, text).Before?
    decreases text
  {
    if text != [] {
      SaneStays(Next(l, text[0]), text[1..]);
    }
  }

  /** A proper tail of an object text is an object text only when just white space is missing. */
  lemma NoObjectTail(text: seq<byte>, k: nat)
    requires k <= |text|
    requires ObjectShaped(text) && ObjectShaped(text[k..])
    ensures forall b <- text[..k] :: JsonSpace(b)
  {
    assert text == text[..k] + text[k..];
    RunConcat(Before, text[..k], text[k..]);
    LeavesBefore(text[..k]);
    if Run(Before, text[..k]) != Before {
      NeverBothClosed(Run(Before, text[..k]), Before, text[k..]);
    }
  }

  /** The last byte that is not white space closes an object. */
  predicate EndsWithBrace(text: seq<byte>) {
    text != [] && (text[|text| - 1] == CLOSE || (JsonSpace(text[|text| - 1]) && EndsWithBrace(text[..|text| - 1])))
  }

  lemma {:induction false} ObjectEndsWithBrace(text: seq<byte>)
    requires ObjectShaped(text)
    ensures EndsWithBrace(text)
  {
    if text != [] {
      var n := |text| - 1;
      assert text == text[..n] + [text[n]];
      RunConcat(Before, text[..n], [text[n]]);
      assert Run(Run(Before, text[..n]), [text[n]]) == Next(Run(Before, text[..n]), text[n]);
      if text[n] != CLOSE {
        ObjectEndsWithBrace(text[..n]);
      }
    }
  }

  lemma {:induction false} TailEndsWithBrace(text: seq<byte>, k: nat)
    requires EndsWithBrace(text) && k <= |text|
    ensures BlankLine(text[k..]) || EndsWithBrace(text[k..])
  {
    var n := |text| - 1;
    if k <= n && text[n] != CLOSE {
      TailEndsWithBrace(text[..n], k);
      assert text[k..][..n - k] == text[..n][k..];
      assert text[k..] == text[..n][k..] + [text[n]];
    }
  }

  /** No line of UTF-8 text that is JSON holds these; they are what makes a parser of bytes
      take its input for UTF-16 or UTF-32. */
  predicate PlainBytes(text: seq<byte>) {
    forall b <- text :: b != 0 && b != 254 && b != 255
  }

  const BYTE_ORDER_MARK: seq<byte> := [239, 187, 191]

  /** An object text, or one after a byte order mark. */
  predicate MarkedObject(text: seq<byte>) {
    BYTE_ORDER_MARK <= text && ObjectShaped(text[|BYTE_ORDER_MARK|..])
  }

  /** A JSON parser of bytes as far as it matters here: a text that ends with a brace and is
      accepted is an object text, perhaps after a byte order mark, and white space in front of
      an object text is ignored. */
  ghost predicate JsonParser<M>(parse: seq<byte> -> LineRead<M>) {
    && (forall s :: PlainBytes(s) && EndsWithBrace(s) && parse(s) != Skip ==> ObjectShaped(s) || MarkedObject(s))
    && (forall s, b :: PlainBytes(s) && ObjectShaped(s) && JsonSpace(b) ==> parse([b] + s) == parse(s))
  }

  /** The hypothesis holds of a parser that takes byte order marks and object texts alike. */
  lemma MarksAreAllowed(parse: seq<byte> -> LineRead<int>)
    requires forall s :: parse(s) == if ObjectShaped(s) || MarkedObject(s) then Message(0) else Skip
    ensures JsonParser(parse)
    ensures parse(BYTE_ORDER_MARK + [OPEN, CLOSE]) == Message(0)
  {
    forall s, b | ObjectShaped(s) && JsonSpace(b) ensures parse([b] + s) == parse(s) {
      assert ([b] + s)[1..] == s;
      assert ObjectShaped([b] + s);
    }
    var text := BYTE_ORDER_MARK + [OPEN, CLOSE];
    assert text[3..] == [OPEN, CLOSE] && [OPEN, CLOSE][1..] == [CLOSE] && [CLOSE][1..] == [];
    assert Run(Closed, []) == Closed;
    assert Run(Outside(1), [CLOSE]) == Closed;
    assert ObjectShaped([OPEN, CLOSE]);
  }

  /** White space before an object text makes an object text. */
  lemma SpaceBefore(b: byte, s: seq<byte>)
    requires JsonSpace(b) && ObjectShaped(s)
    ensures ObjectShaped([b] + s)
  {
    assert ([b] + s)[1..] == s;
  }

  lemma {:induction false} SpacesDoNotMatter<M>(a: seq<byte>, s: seq<byte>, parse: seq<byte> -> LineRead<M>)
    requires JsonParser(parse) && forall b <- a :: JsonSpace(b)
    requires PlainBytes(s) && ObjectShaped(s)
    ensures parse(a + s) == parse(s) && ObjectShaped(a + s)
  {
    if a == [] {
      assert a + s == s;
    } else {
      SpacesDoNotMatter(a[1..], s, parse);
      assert a + s == [a[0]] + (a[1..] + s);
      assert forall b <- a[1..] :: b in a;
      assert PlainBytes(a[1..] + s);
      SpaceBefore(a[0], a[1..] + s);
    }
  }

  /** A piece of an object line that a parser accepts lacks just white space: a byte order
      mark can only stand inside the line. */
  lemma AcceptedPiece<M>(line: seq<byte>, j: nat, parse: seq<byte> -> LineRead<M>)
    requires JsonParser(parse) && ObjectShaped(line) && PlainBytes(line)
    requires j <= |line| && ReadLine(line[j..], parse) != Skip
    ensures ObjectShaped(line[j..]) && forall b <- line[..j] :: JsonSpace(b)
  {
    ObjectEndsWithBrace(line);
    TailEndsWithBrace(line, j);
    assert forall b <- line[j..] :: b in line;
    NoMarkInside(line, j);
    NoObjectTail(line, j);
  }

  lemma NoMarkInside(line: seq<byte>, j: nat)
    requires ObjectShaped(line) && j <= |line|
    ensures !MarkedObject(line[j..])
  {
    if MarkedObject(line[j..]) {
      assert line[j..][0] == 239;
      assert line[..j + 3][j] == 239 && line[..j + 3][j] in line[..j + 3];
      assert line[j..][3..] == line[j + 3..];
      NoObjectTail(line, j + 3);
    }
  }

  /** A line that holds a JSON object is torn-safe for every JSON parser. */
  lemma ObjectLineIsTornSafe<M>(line: seq<byte>, parse: seq<byte> -> LineRead<M>)
    requires JsonParser(parse) && ObjectShaped(line) && PlainBytes(line)
    ensures TornSafe(line, parse)
  {
    forall i, j | 0 <= i <= j <= |line| && ReadLine(line[j..], parse) != Skip
      ensures ReadLine(line[i..], parse) == ReadLine(line[j..], parse)
    {
      LongerPiece(line, i, j, parse);
    }
  }

  lemma LongerPiece<M>(line: seq<byte>, i: nat, j: nat, parse: seq<byte> -> LineRead<M>)
    requires JsonParser(parse) && ObjectShaped(line) && PlainBytes(line)
    requires i <= j <= |line| && ReadLine(line[j..], parse) != Skip
    ensures ReadLine(line[i..], parse) == ReadLine(line[j..], parse)
  {
    AcceptedPiece(line, j, parse);
    assert forall b <- line[i..j] :: b in line[..j];
    assert forall b <- line[j..] :: b in line;
    SpacesDoNotMatter(line[i..j], line[j..], parse);
    assert line[i..] == line[i..j] + line[j..];
    BlankTail(line, i, j);
  }

  lemma BlankTail(line: seq<byte>, i: nat, j: nat)
    requires i <= j <= |line|
    ensures BlankLine(line[i..]) ==> BlankLine(line[j..])
  {
    assert forall b <- line[j..] :: b in line[i..];
  }

  /** A transcript whose lines are objects, or pieces that no parser accepts, is read
      as if it were read at once. */
  lemma {:induction false} ObjectTranscript<M>(file: seq<byte>, parse: seq<byte> -> LineRead<M>)
    requires JsonParser(parse)
    requires forall line <- SplitLines(file) ::
               (ObjectShaped(line) && PlainBytes(line)) || forall k :: 0 <= k <= |line| ==> ReadLine(line[k..], parse) == Skip
    ensures AllTornSafe(file, parse)
    ensures CLAUDE_TAIL_CHUNK == 1048576 && CLAUDE_TAIL_CHUNKS == 16
    ensures |file| <= CLAUDE_TAIL_CHUNK * CLAUDE_TAIL_CHUNKS ==>
              TailScan(file, parse, |file|, CLAUDE_TAIL_CHUNK, CLAUDE_TAIL_CHUNKS) ==
              Newest(SplitLines(file), parse).ToOption()
  {
    forall line <- SplitLines(file) ensures TornSafe(line, parse) {
      if ObjectShaped(line) && PlainBytes(line) {
        ObjectLineIsTornSafe(line, parse);
      }
    }
    TailAgreesWithWindow(file, parse, CLAUDE_TAIL_CHUNK, CLAUDE_TAIL_CHUNKS);
  }
}
