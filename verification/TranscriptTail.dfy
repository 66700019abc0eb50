/** The backwards, chunk-growing search for the newest usage message of a transcript.
    The JSON parser is a parameter: what it makes of a line is a `LineRead`. */
module TranscriptTail {
  import opened Wrappers

  newtype byte = b: int | 0 <= b < 256

  const NEWLINE: byte := 10
  const CLAUDE_TAIL_CHUNK: nat := 1048576
  const CLAUDE_TAIL_CHUNKS: nat := 16

  /** A line is passed over, yields a message, or ends the search: a line that parses
      to something other than an object raises, and the caller gets no message. */
  datatype LineRead<+M> = Skip | Message(message: M) | Abort {
    function ToOption(): Option<M> {
      if Message? then Some(message) else None
    }
  }

  /** `bytes.strip()` leaves nothing. */
  predicate BlankLine(line: seq<byte>) {
    forall b <- line :: 9 <= b <= 13 || b == 32
  }

  /** What the loop body does with one line. */
  function ReadLine<M>(line: seq<byte>, parse: seq<byte> -> LineRead<M>): LineRead<M> {
    if BlankLine(line) then Skip else parse(line)
  }

  /** `buffer.split(b"\n")` */
  function SplitLines(s: seq<byte>): (lines: seq<seq<byte>>)
    ensures lines != []
  {
    if s == [] then [[]]
    else
      var rest := SplitLines(s[1..]);
      if s[0] == NEWLINE then [[]] + rest else [[s[0]] + rest[0]] + rest[1..]
  }

  /** The verdict of the newest line that is not skipped. */
  function Newest<M>(lines: seq<seq<byte>>, parse: seq<byte> -> LineRead<M>): LineRead<M> {
    if lines == [] then Skip
    else
      var last := ReadLine(lines[|lines| - 1], parse);
      if last != Skip then last else Newest(lines[..|lines| - 1], parse)
  }

  /** `Newest` is the last line that is not skipped, and Skip only when all are. */
  lemma {:induction false} NewestIsLast<M>(lines: seq<seq<byte>>, parse: seq<byte> -> LineRead<M>)
    ensures Newest(lines, parse) == Skip <==> forall i :: 0 <= i < |lines| ==> ReadLine(lines[i], parse) == Skip
    ensures Newest(lines, parse) != Skip ==>
              exists i :: 0 <= i < |lines| && ReadLine(lines[i], parse) == Newest(lines, parse)
                          && forall j :: i < j < |lines| ==> ReadLine(lines[j], parse) == Skip
  {
    if lines != [] && ReadLine(lines[|lines| - 1], parse) == Skip {
      NewestIsLast(lines[..|lines| - 1], parse);
    }
  }

  /** The chunks read so far start at `end`; at most `chunks` more are read. */
  function TailScan<M>(file: seq<byte>, parse: seq<byte> -> LineRead<M>, end: nat, chunk: nat, chunks: nat): Option<M>
    requires end <= |file|
    decreases chunks
  {
    if chunks == 0 then None
    else
      var start := if end < chunk then 0 else end - chunk;
      var found := Newest(SplitLines(file[start..]), parse);
      if found != Skip then found.ToOption()
      else if start == 0 then None
      else TailScan(file, parse, start, chunk, chunks - 1)
  }

  /** `last_message` */
  method LastMessage<M>(file: seq<byte>, parse: seq<byte> -> LineRead<M>, chunk: nat, chunks: nat)
    returns (message: Option<M>)
    ensures message == TailScan(file, parse, |file|, chunk, chunks)
  {
    var end, buffer := |file|, [];
    for n := 0 to chunks
      invariant 0 <= end <= |file| && buffer == file[end..]
      invariant TailScan(file, parse, end, chunk, chunks - n) == TailScan(file, parse, |file|, chunk, chunks)
    {
      var start := if end < chunk then 0 else end - chunk;
      assert file[start..] == file[start..end] + file[end..];
      buffer := file[start..end] + buffer;
      end := start;
      var lines := SplitLines(buffer);
      var i := |lines|;
      assert lines[..i] == lines;
      while i > 0
        invariant 0 <= i <= |lines|
        invariant Newest(lines[..i], parse) == Newest(lines, parse)
      {
        i := i - 1;
        assert lines[..i + 1][..i] == lines[..i];
        match ReadLine(lines[i], parse) {
          case Skip =>
          case Message(m) => return Some(m);
          case Abort => return None;
        }
      }
      if start == 0 {
        return None;
      }
    }
    return None;
  }

  // ---- agreement with a reading of the whole file -----------------------------

  /** A torn piece of the line is skipped, or reads as every longer piece does. */
  ghost predicate TornSafe<M>(line: seq<byte>, parse: seq<byte> -> LineRead<M>) {
    forall i, j :: 0 <= i <= j <= |line| && ReadLine(line[j..], parse) != Skip ==>
                     ReadLine(line[i..], parse) == ReadLine(line[j..], parse)
  }

  ghost predicate AllTornSafe<M>(file: seq<byte>, parse: seq<byte> -> LineRead<M>) {
    forall line <- SplitLines(file) :: TornSafe(line, parse)
  }

  /** Cutting a text after `k` bytes cuts one line in two and leaves the later ones whole. */
  lemma {:induction false} CutLines(s: seq<byte>, k: nat)
    returns (older: seq<seq<byte>>, torn: seq<byte>, cut: nat, newer: seq<seq<byte>>)
    requires k <= |s|
    ensures cut <= |torn|
    ensures SplitLines(s) == older + ([torn] + newer)
    ensures SplitLines(s[k..]) == [torn[cut..]] + newer
  {
    var whole := SplitLines(s);
    if k == 0 {
      assert s[0..] == s;
      older, torn, cut, newer := [], whole[0], 0, whole[1..];
      assert torn[0..] == torn;
    } else {
      assert s[1..][k - 1..] == s[k..];
      older, torn, cut, newer := CutLines(s[1..], k - 1);
      var rest := SplitLines(s[1..]);
      if s[0] == NEWLINE {
        assert [[]] + (older + ([torn] + newer)) == ([[]] + older) + ([torn] + newer);
        older := [[]] + older;
      } else if older == [] {
        assert rest[0] == torn && rest[1..] == newer;
        assert ([s[0]] + torn)[cut + 1..] == torn[cut..];
        torn, cut := [s[0]] + torn, cut + 1;
      } else {
        assert rest[0] == older[0] && rest[1..] == older[1..] + ([torn] + newer);
        older := [[s[0]] + older[0]] + older[1..];
      }
    }
  }

  lemma TornPieces<M>(line: seq<byte>, parse: seq<byte> -> LineRead<M>, k: nat)
    requires TornSafe(line, parse) && k <= |line|
    ensures TornSafe(line[k..], parse)
  {
    forall i, j | 0 <= i <= j <= |line| - k && ReadLine(line[k..][j..], parse) != Skip
      ensures ReadLine(line[k..][i..], parse) == ReadLine(line[k..][j..], parse)
    {
      assert line[k..][j..] == line[k + j..];
      assert line[k..][i..] == line[k + i..];
    }
  }

  /** The lines of a suffix of the file are torn-safe too. */
  lemma SuffixTornSafe<M>(file: seq<byte>, parse: seq<byte> -> LineRead<M>, k: nat)
    requires AllTornSafe(file, parse) && k <= |file|
    ensures AllTornSafe(file[k..], parse)
  {
    var older, torn, cut, newer := CutLines(file, k);
    assert torn in [torn] + newer;
    assert forall line <- newer :: line in [torn] + newer;
    TornPieces(torn, parse, cut);
  }

  lemma {:induction false} NewestConcat<M>(a: seq<seq<byte>>, b: seq<seq<byte>>, parse: seq<byte> -> LineRead<M>)
    ensures Newest(a + b, parse) == if Newest(b, parse) != Skip then Newest(b, parse) else Newest(a, parse)
  {
    if b == [] {
      assert a + b == a;
    } else {
      assert (a + b)[..|a + b| - 1] == a + b[..|b| - 1];
      NewestConcat(a, b[..|b| - 1], parse);
    }
  }

  lemma NewestOne<M>(line: seq<byte>, parse: seq<byte> -> LineRead<M>)
    ensures Newest([line], parse) == ReadLine(line, parse)
  {
    assert Newest([line][..0], parse) == Skip;
  }

  /** Replacing the first line by a longer one, and adding lines before it, keeps the verdict. */
  lemma NewestWithLongerFront<M>(older: seq<seq<byte>>, torn: seq<byte>, piece: seq<byte>, newer: seq<seq<byte>>,
                                 parse: seq<byte> -> LineRead<M>)
    requires ReadLine(piece, parse) != Skip ==> ReadLine(torn, parse) == ReadLine(piece, parse)
    requires Newest([piece] + newer, parse) != Skip
    ensures Newest(older + ([torn] + newer), parse) == Newest([piece] + newer, parse)
  {
    NewestConcat([piece], newer, parse);
    NewestConcat([torn], newer, parse);
    NewestConcat(older, [torn] + newer, parse);
    NewestOne(piece, parse);
    NewestOne(torn, parse);
  }

  lemma TornPieceReads<M>(torn: seq<byte>, parse: seq<byte> -> LineRead<M>, k: nat)
    requires TornSafe(torn, parse) && k <= |torn|
    requires ReadLine(torn[k..], parse) != Skip
    ensures ReadLine(torn, parse) == ReadLine(torn[k..], parse)
  {
    assert torn[0..] == torn;
  }

  /** What a short window finds is what the longer one finds. */
  lemma {:induction false} LongerWindow<M>(s: seq<byte>, parse: seq<byte> -> LineRead<M>, k: nat)
    requires AllTornSafe(s, parse) && k <= |s|
    requires Newest(SplitLines(s[k..]), parse) != Skip
    ensures Newest(SplitLines(s), parse) == Newest(SplitLines(s[k..]), parse)
  {
    var older, torn, cut, newer := CutLines(s, k);
    assert torn in [torn] + newer;
    if ReadLine(torn[cut..], parse) != Skip {
      TornPieceReads(torn, parse, cut);
    }
    NewestWithLongerFront(older, torn, torn[cut..], newer, parse);
  }

  /** The start of the last `reach` bytes. */
  function WindowStart(size: nat, reach: nat): nat {
    if size < reach then 0 else size - reach
  }

  lemma WindowAgrees<M>(file: seq<byte>, parse: seq<byte> -> LineRead<M>, from: nat, start: nat)
    requires AllTornSafe(file, parse) && from <= start <= |file|
    requires Newest(SplitLines(file[start..]), parse) != Skip
    ensures Newest(SplitLines(file[from..]), parse) == Newest(SplitLines(file[start..]), parse)
  {
    assert file[from..][start - from..] == file[start..];
    SuffixTornSafe(file, parse, from);
    LongerWindow(file[from..], parse, start - from);
  }

  lemma OneChunkLess(chunk: nat, chunks: nat)
    requires chunks > 0
    ensures chunk * chunks == chunk + chunk * (chunks - 1)
    ensures chunk * (chunks - 1) >= 0
  {
  }

  lemma {:induction false} TailScanIsWindow<M>(file: seq<byte>, parse: seq<byte> -> LineRead<M>,
                                               end: nat, chunk: nat, chunks: nat, reach: nat)
    requires AllTornSafe(file, parse) && end <= |file|
    requires Newest(SplitLines(file[end..]), parse) == Skip
    requires reach == chunk * chunks
    ensures TailScan(file, parse, end, chunk, chunks) ==
            Newest(SplitLines(file[WindowStart(end, reach)..]), parse).ToOption()
    decreases chunks
  {
    var from, start := WindowStart(end, reach), WindowStart(end, chunk);
    if chunks == 0 {
      assert from == end;
      return;
    }
    OneChunkLess(chunk, chunks);
    assert from == WindowStart(start, reach - chunk) <= start;
    var found := Newest(SplitLines(file[start..]), parse);
    if found != Skip {
      WindowAgrees(file, parse, from, start);
    } else if start == 0 {
      assert from == start;
    } else {
      TailScanIsWindow(file, parse, start, chunk, chunks - 1, reach - chunk);
    }
  }

  /** The reader returns the newest message of the last chunk*chunks bytes, read as if
      they were read at once; of the whole file when it fits. */
  lemma TailAgreesWithWindow<M>(file: seq<byte>, parse: seq<byte> -> LineRead<M>, chunk: nat, chunks: nat)
    requires AllTornSafe(file, parse)
    ensures TailScan(file, parse, |file|, chunk, chunks) ==
            Newest(SplitLines(file[WindowStart(|file|, chunk * chunks)..]), parse).ToOption()
    ensures |file| <= chunk * chunks ==>
              TailScan(file, parse, |file|, chunk, chunks) == Newest(SplitLines(file), parse).ToOption()
  {
    assert file[|file|..] == [];
    NewestOne([], parse);
    TailScanIsWindow(file, parse, |file|, chunk, chunks, chunk * chunks);
    assert file[0..] == file;
  }

  /** For a file that fits, the chunk size does not matter. */
  lemma ChunkSizeDoesNotMatter<M>(file: seq<byte>, parse: seq<byte> -> LineRead<M>, c1: nat, n1: nat, c2: nat, n2: nat)
    requires AllTornSafe(file, parse)
    requires |file| <= c1 * n1 && |file| <= c2 * n2
    ensures TailScan(file, parse, |file|, c1, n1) == TailScan(file, parse, |file|, c2, n2)
  {
    TailAgreesWithWindow(file, parse, c1, n1);
    TailAgreesWithWindow(file, parse, c2, n2);
  }

  // ---- lines, byte by byte ------------------------------------------------------

  /** The lines with a line feed between any two of them. */
  function JoinLines(lines: seq<seq<byte>>): seq<byte>
    requires lines != []
  {
    if |lines| == 1 then lines[0] else lines[0] + ([10] + JoinLines(lines[1..]))
  }

  predicate NoLineFeed(line: seq<byte>) {
    forall b <- line :: b != 10
  }

  /** Splitting is at line feeds, at each of them, and loses nothing. */
  lemma {:induction false} SplitIsAtLineFeeds(s: seq<byte>)
    ensures JoinLines(SplitLines(s)) == s
    ensures forall line <- SplitLines(s) :: NoLineFeed(line)
  {
    if s != [] {
      var rest := SplitLines(s[1..]);
      SplitIsAtLineFeeds(s[1..]);
      assert s == [s[0]] + s[1..];
      if s[0] == NEWLINE {
        assert ([[]] + rest)[1..] == rest;
        assert [] + ([10] + JoinLines(rest)) == s;
      } else {
        var lines := [[s[0]] + rest[0]] + rest[1..];
        assert lines[1..] == rest[1..] && rest[0] in rest;
        assert |rest| > 1 ==> ([s[0]] + rest[0]) + ([10] + JoinLines(rest[1..])) == [s[0]] + JoinLines(rest);
      }
    }
  }

  lemma {:induction false} SplitFirst(line: seq<byte>, rest: seq<byte>)
    requires NoLineFeed(line)
    ensures SplitLines(line + ([10] + rest)) == [line] + SplitLines(rest)
    ensures SplitLines(line) == [line]
  {
    if line == [] {
      assert line + ([10] + rest) == [10] + rest;
      assert ([10] + rest)[1..] == rest;
    } else {
      assert forall b <- line[1..] :: b in line;
      SplitFirst(line[1..], rest);
      assert (line + ([10] + rest))[1..] == line[1..] + ([10] + rest);
      assert [line[0]] + line[1..] == line;
      assert line[0] in line;
    }
  }

  /** Joined lines are split into those lines. */
  lemma {:induction false} SplitOfJoined(lines: seq<seq<byte>>)
    requires lines != [] && forall line <- lines :: NoLineFeed(line)
    ensures SplitLines(JoinLines(lines)) == lines
  {
    assert lines[0] in lines;
    if |lines| == 1 {
      SplitFirst(lines[0], []);
    } else {
      SplitOfJoined(lines[1..]);
      SplitFirst(lines[0], JoinLines(lines[1..]));
      assert lines == [lines[0]] + lines[1..];
    }
  }

  /** Nothing but white space, or what the parser skips. */
  predicate PassedOver<M>(line: seq<byte>, parse: seq<byte> -> LineRead<M>) {
    (forall b <- line :: b in {9, 10, 11, 12, 13, 32}) || parse(line) == Skip
  }

  lemma PassedIsSkipped<M>(line: seq<byte>, parse: seq<byte> -> LineRead<M>)
    ensures PassedOver(line, parse) <==> ReadLine(line, parse) == Skip
    ensures !PassedOver(line, parse) ==> ReadLine(line, parse) == parse(line)
  {
    assert BlankLine(line) <==> forall b <- line :: b in {9, 10, 11, 12, 13, 32};
  }

  lemma {:induction false} NewestAt<M>(lines: seq<seq<byte>>, parse: seq<byte> -> LineRead<M>, i: nat)
    requires i < |lines| && !PassedOver(lines[i], parse)
    requires forall j :: i < j < |lines| ==> PassedOver(lines[j], parse)
    ensures Newest(lines, parse) == parse(lines[i])
  {
    var n := |lines| - 1;
    PassedIsSkipped(lines[n], parse);
    if i < n {
      NewestAt(lines[..n], parse, i);
    }
  }

  lemma {:induction false} NewestOfPassed<M>(lines: seq<seq<byte>>, parse: seq<byte> -> LineRead<M>)
    requires forall line <- lines :: PassedOver(line, parse)
    ensures Newest(lines, parse) == Skip
  {
    if lines != [] {
      PassedIsSkipped(lines[|lines| - 1], parse);
      NewestOfPassed(lines[..|lines| - 1], parse);
    }
  }

  /** For a file that fits, made of lines with line feeds between them: the reader returns the
      message of the last line that is not passed over, and nothing when that line parses to
      something else than an object. */
  lemma LastLineIsRead<M>(lines: seq<seq<byte>>, parse: seq<byte> -> LineRead<M>, i: nat, chunk: nat, chunks: nat)
    requires i < |lines| && forall line <- lines :: NoLineFeed(line) && TornSafe(line, parse)
    requires |JoinLines(lines)| <= chunk * chunks
    requires !PassedOver(lines[i], parse) && forall j :: i < j < |lines| ==> PassedOver(lines[j], parse)
    ensures var file := JoinLines(lines);
            TailScan(file, parse, |file|, chunk, chunks) ==
            if parse(lines[i]).Message? then Some(parse(lines[i]).message) else None
  {
    SplitOfJoined(lines);
    NewestAt(lines, parse, i);
    PassedIsSkipped(lines[i], parse);
    TailAgreesWithWindow(JoinLines(lines), parse, chunk, chunks);
  }

  /** And nothing when all lines are passed over. */
  lemma NoLineIsRead<M>(lines: seq<seq<byte>>, parse: seq<byte> -> LineRead<M>, chunk: nat, chunks: nat)
    requires lines != [] && forall line <- lines :: NoLineFeed(line) && TornSafe(line, parse) && PassedOver(line, parse)
    requires |JoinLines(lines)| <= chunk * chunks
    ensures TailScan(JoinLines(lines), parse, |JoinLines(lines)|, chunk, chunks) == None
  {
    SplitOfJoined(lines);
    NewestOfPassed(lines, parse);
    TailAgreesWithWindow(JoinLines(lines), parse, chunk, chunks);
  }

  /** Without torn-safety it can matter: a reader that takes the piece `A` of the line
      `BA` for a message returns it with chunks of one byte and not with one of two. */
  lemma TornPieceCanBeTaken(parse: seq<byte> -> LineRead<int>)
    requires parse([65]) == Message(1) && parse([66, 65]) == Skip
    ensures TailScan([66, 65], parse, 2, 1, 2) == Some(1)
    ensures TailScan([66, 65], parse, 2, 2, 1) == None
  {
    var file: seq<byte>, piece: seq<byte> := [66, 65], [65];
    assert file[1..] == piece;
    assert file[0..] == file;
    assert piece[1..] == [];
    assert piece[0] in piece && file[0] in file;
    assert SplitLines(piece[1..]) == [[]];
    assert [65] + [] == piece;
    assert SplitLines(piece) == [piece];
    assert SplitLines(file) == [[66] + piece];
    assert [66] + piece == file;
    NewestOne(piece, parse);
    NewestOne(file, parse);
  }
}
