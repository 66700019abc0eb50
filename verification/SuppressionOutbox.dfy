/** The log of result cascades held back by a pause: appended to, listed with the last
    record of each task, and rewritten when records have been replayed. */
module SuppressionOutbox {
  import opened Wrappers

  datatype Entry = Entry(id: string, payload: string, replayed: bool)

  /** A line of the file: a record; something that is not JSON, which is passed over; or JSON
      that is not an object, at which every operation raises. */
  datatype Line = Junk | NotObject | Record(entry: Entry)

  // ---- what the file means --------------------------------------------------------------

  function Entries(log: seq<Line>): seq<Entry> {
    if log == [] then []
    else (if log[0].Record? then [log[0].entry] else []) + Entries(log[1..])
  }

  function Pending(es: seq<Entry>): (r: seq<Entry>)
    ensures forall e <- r :: e in es && !e.replayed
  {
    if es == [] then []
    else (if es[0].replayed then [] else [es[0]]) + Pending(es[1..])
  }

  predicate HasId(es: seq<Entry>, id: string) {
    exists e <- es :: e.id == id
  }

  /** The last record of each id, in the order of the file. */
  function KeepLast(es: seq<Entry>): (r: seq<Entry>)
    ensures forall e <- r :: e in es
    ensures forall id :: HasId(r, id) <==> HasId(es, id)
    ensures DistinctIds(r)
  {
    if es == [] then []
    else
      var rest := KeepLast(es[1..]);
      assert forall id :: HasId(es, id) <==> id == es[0].id || HasId(es[1..], id);
      if HasId(es[1..], es[0].id) then rest
      else
        assert forall e <- rest :: HasId(rest, e.id);
        assert forall id :: HasId([es[0]] + rest, id) <==> id == es[0].id || HasId(rest, id);
        [es[0]] + rest
  }

  predicate DistinctIds(es: seq<Entry>) {
    forall i, j :: 0 <= i < j < |es| ==> es[i].id != es[j].id
  }

  function Chosen(log: seq<Line>, onlyPending: bool): seq<Entry> {
    if onlyPending then Pending(Entries(log)) else Entries(log)
  }

  function Listing(log: seq<Line>, onlyPending: bool): seq<Entry> {
    KeepLast(Chosen(log, onlyPending))
  }

  predicate Readable(log: seq<Line>) {
    NotObject !in log
  }

  /** What a reader gets from the file; None when it raises. */
  function Reading(log: seq<Line>, onlyPending: bool): Option<seq<Entry>> {
    if Readable(log) then Some(Listing(log, onlyPending)) else None
  }

  /** One line in a rewrite: all but records are dropped, a named record is flagged. */
  function Flagged(line: Line, ids: set<string>): seq<Line> {
    match line
    case Junk => []
    case NotObject => []
    case Record(e) => [Record(if e.id in ids then e.(replayed := true) else e)]
  }

  /** The file after a rewrite: lines that are not JSON are dropped. */
  function Marked(log: seq<Line>, ids: set<string>): seq<Line> {
    if log == [] then []
    else Flagged(log[0], ids) + Marked(log[1..], ids)
  }

  function Recorded(log: seq<Line>, id: string, payload: string): seq<Line> {
    if !Readable(log) || HasId(Listing(log, true), id) then log else log + [Record(Entry(id, payload, false))]
  }

  // ---- the operations ---------------------------------------------------------------------

  function Reversed(es: seq<Entry>): seq<Entry> {
    if es == [] then [] else Reversed(es[1..]) + [es[0]]
  }

  lemma {:induction false} ReversedConcat(a: seq<Entry>, b: seq<Entry>)
    ensures Reversed(a + b) == Reversed(b) + Reversed(a)
  {
    if a == [] {
      assert a + b == b;
    } else {
      assert (a + b)[1..] == a[1..] + b;
      ReversedConcat(a[1..], b);
    }
  }

  lemma ReversedAdd(a: seq<Entry>, e: Entry)
    ensures Reversed(a + [e]) == [e] + Reversed(a)
  {
    ReversedConcat(a, [e]);
    assert [e][1..] == [];
  }

  lemma {:induction false} EntriesConcat(a: seq<Line>, b: seq<Line>)
    ensures Entries(a + b) == Entries(a) + Entries(b)
  {
    if a == [] {
      assert a + b == b;
    } else {
      assert (a + b)[1..] == a[1..] + b && (a + b)[0] == a[0];
      EntriesConcat(a[1..], b);
      var first := if a[0].Record? then [a[0].entry] else [];
      assert (first + Entries(a[1..])) + Entries(b) == first + (Entries(a[1..]) + Entries(b));
    }
  }

  lemma {:induction false} PendingConcat(a: seq<Entry>, b: seq<Entry>)
    ensures Pending(a + b) == Pending(a) + Pending(b)
  {
    if a == [] {
      assert a + b == b;
    } else {
      assert (a + b)[1..] == a[1..] + b;
      PendingConcat(a[1..], b);
    }
  }

  lemma AddLine(log: seq<Line>, line: Line)
    ensures Entries(log + [line]) == Entries(log) + (if line.Record? then [line.entry] else [])
    ensures Pending(Entries(log + [line])) ==
            Pending(Entries(log)) + (if line.Record? && !line.entry.replayed then [line.entry] else [])
  {
    EntriesConcat(log, [line]);
    PendingConcat(Entries(log), Entries([line]));
    SingleLine(line);
  }

  lemma AddChosen(log: seq<Line>, line: Line, onlyPending: bool)
    ensures Chosen(log + [line], onlyPending) ==
            if line.Record? && !(onlyPending && line.entry.replayed) then Chosen(log, onlyPending) + [line.entry]
            else Chosen(log, onlyPending)
  {
    AddLine(log, line);
  }

  lemma PutLine(line: Line, log: seq<Line>)
    ensures Pending(Entries([line] + log)) ==
            (if line.Record? && !line.entry.replayed then [line.entry] else []) + Pending(Entries(log))
  {
    EntriesConcat([line], log);
    PendingConcat(Entries([line]), Entries(log));
    SingleLine(line);
  }

  lemma KeepLastStep(e: Entry, rest: seq<Entry>)
    ensures KeepLast([e] + rest) == if HasId(rest, e.id) then KeepLast(rest) else [e] + KeepLast(rest)
    ensures forall id :: HasId([e] + rest, id) <==> id == e.id || HasId(rest, id)
  {
    assert ([e] + rest)[1..] == rest;
  }

  lemma {:induction false} MarkedAdd(log: seq<Line>, line: Line, ids: set<string>)
    ensures Marked(log + [line], ids) == Marked(log, ids) + Flagged(line, ids)
  {
    if log == [] {
      assert log + [line] == [line] && [line][1..] == [];
      assert Marked([], ids) == [];
      assert Flagged(line, ids) + [] == [] + Flagged(line, ids);
    } else {
      assert (log + [line])[1..] == log[1..] + [line];
      MarkedAdd(log[1..], line, ids);
      assert (Flagged(log[0], ids) + Marked(log[1..], ids)) + Flagged(line, ids)
          == Flagged(log[0], ids) + (Marked(log[1..], ids) + Flagged(line, ids));
    }
  }

  lemma {:induction false} ReversedTwice(es: seq<Entry>)
    ensures Reversed(Reversed(es)) == es
  {
    if es != [] {
      ReversedTwice(es[1..]);
      ReversedAdd(Reversed(es[1..]), es[0]);
    }
  }

  /** The outbox of one project. */
  class Outbox {
    var log: seq<Line>

    constructor ()
      ensures log == []
    {
      log := [];
    }

    /** `list_suppressed` */
    method ListSuppressed(onlyPending: bool) returns (listed: Option<seq<Entry>>)
      ensures listed == Reading(log, onlyPending)
    {
      var out := [];
      for i := 0 to |log|
        invariant out == Chosen(log[..i], onlyPending)
        invariant Readable(log[..i])
      {
        if log[i].NotObject? {
          return None;
        }
        assert log[..i + 1] == log[..i] + [log[i]];
        AddChosen(log[..i], log[i], onlyPending);
        if log[i].Record? && !(onlyPending && log[i].entry.replayed) {
          out := out + [log[i].entry];
        }
      }
      assert log[..|log|] == log;
      var newest := NewestOfEach(out);
      listed := Some(newest);
    }

    /** `record_suppressed` */
    method RecordSuppressed(id: string, payload: string) returns (raised: bool)
      modifies this
      ensures raised <==> !Readable(old(log))
      ensures log == Recorded(old(log), id, payload)
    {
      raised := false;
      var reading := ListSuppressed(true);
      if reading == None {
        return true;
      }
      var pending := reading.value;
      for i := 0 to |pending|
        invariant forall k :: 0 <= k < i ==> pending[k].id != id
      {
        if pending[i].id == id {
          return;
        }
      }
      assert pending[..|pending|] == pending;
      log := log + [Record(Entry(id, payload, false))];
    }

    /** `mark_replayed`, which reads the whole file before it writes. */
    method MarkReplayed(taskIds: seq<string>) returns (raised: bool)
      modifies this
      ensures raised <==> !Readable(old(log))
      ensures log == if Readable(old(log)) then Marked(old(log), set id <- taskIds) else old(log)
    {
      var ids := set id <- taskIds;
      var lines := [];
      for i := 0 to |log|
        invariant log == old(log)
        invariant lines == Marked(log[..i], ids)
        invariant Readable(log[..i])
      {
        if log[i].NotObject? {
          return true;
        }
        assert log[..i + 1] == log[..i] + [log[i]];
        MarkedAdd(log[..i], log[i], ids);
        if log[i].Record? {
          var e := log[i].entry;
          if e.id in ids {
            e := e.(replayed := true);
          }
          lines := lines + [Record(e)];
        }
      }
      assert log[..|log|] == log;
      log := lines;
      raised := false;
    }
  }

  /** The last record of each task, gathered from the end. */
  method NewestOfEach(out: seq<Entry>) returns (newest: seq<Entry>)
    ensures newest == KeepLast(out)
  {
    ReversedTwice(KeepLast(out));
    var seen, dedup := {}, [];
    for i := |out| downto 0
      invariant forall id :: id in seen <==> HasId(out[i..], id)
      invariant Reversed(dedup) == KeepLast(out[i..])
    {
      assert out[i..] == [out[i]] + out[i + 1..];
      KeepLastStep(out[i], out[i + 1..]);
      ReversedAdd(dedup, out[i]);
      if out[i].id !in seen {
        seen := seen + {out[i].id};
        dedup := dedup + [out[i]];
      }
    }
    assert out[0..] == out;
    newest := Reverse(dedup);
  }

  method Reverse(es: seq<Entry>) returns (r: seq<Entry>)
    ensures r == Reversed(es)
  {
    r := [];
    for i := 0 to |es|
      invariant r == Reversed(es[..i])
    {
      assert es[..i + 1] == es[..i] + [es[i]];
      ReversedAdd(es[..i], es[i]);
      r := [es[i]] + r;
    }
    assert es[..|es|] == es;
  }

  lemma SingleLine(line: Line)
    ensures Entries([line]) == if line.Record? then [line.entry] else []
    ensures Pending(Entries([line])) == if line.Record? && !line.entry.replayed then [line.entry] else []
  {
    assert [line][1..] == [];
    if line.Record? {
      assert [line.entry][1..] == [];
    }
  }

  // ---- one operation, on any file -----------------------------------------------------------

  /** What is listed is the last record of its id, and each such record is listed. */
  lemma {:induction false} ListedIsLast(es: seq<Entry>, i: nat)
    requires i < |es|
    ensures !HasId(es[i + 1..], es[i].id) ==> es[i] in KeepLast(es)
  {
    if i > 0 {
      assert es[1..][i - 1 + 1..] == es[i + 1..];
      ListedIsLast(es[1..], i - 1);
    }
  }

  function Without(es: seq<Entry>, ids: set<string>): (r: seq<Entry>)
    ensures forall id :: HasId(r, id) <==> HasId(es, id) && id !in ids
  {
    if es == [] then []
    else
      var rest := Without(es[1..], ids);
      assert forall id :: HasId(es, id) <==> id == es[0].id || HasId(es[1..], id);
      if es[0].id in ids then rest
      else
        assert forall id :: HasId([es[0]] + rest, id) <==> id == es[0].id || HasId(rest, id);
        [es[0]] + rest
  }

  lemma {:induction false} KeepLastWithout(es: seq<Entry>, ids: set<string>)
    ensures KeepLast(Without(es, ids)) == Without(KeepLast(es), ids)
  {
    if es != [] {
      KeepLastWithout(es[1..], ids);
      var rest := Without(es[1..], ids);
      assert ([es[0]] + rest)[1..] == rest;
      assert ([es[0]] + KeepLast(es[1..]))[1..] == KeepLast(es[1..]);
    }
  }

  lemma {:induction false} PendingAfterMark(log: seq<Line>, ids: set<string>)
    ensures Pending(Entries(Marked(log, ids))) == Without(Pending(Entries(log)), ids)
  {
    if log != [] {
      PendingAfterMark(log[1..], ids);
      MarkFirst(log[0], log[1..], ids, Marked(log[1..], ids));
      assert log == [log[0]] + log[1..];
    }
  }

  lemma {:induction false} MarkFirst(line: Line, log: seq<Line>, ids: set<string>, rest: seq<Line>)
    requires Pending(Entries(rest)) == Without(Pending(Entries(log)), ids)
    ensures Pending(Entries(Flagged(line, ids) + rest)) == Without(Pending(Entries([line] + log)), ids)
  {
    PutLine(line, log);
    if line.Record? {
      var e := line.entry;
      var flagged := Record(if e.id in ids then e.(replayed := true) else e);
      assert Flagged(line, ids) == [flagged];
      PutLine(flagged, rest);
      if !e.replayed {
        WithoutStep(e, Pending(Entries(log)), ids);
        assert Pending(Entries([line] + log)) == [e] + Pending(Entries(log));
      } else {
        NothingBefore(Pending(Entries(log)));
      }
      NothingBefore(Pending(Entries(rest)));
    } else {
      assert Flagged(line, ids) + rest == rest;
      NothingBefore(Pending(Entries(log)));
    }
  }

  lemma NothingBefore(es: seq<Entry>)
    ensures [] + es == es
  {
  }

  lemma WithoutStep(e: Entry, rest: seq<Entry>, ids: set<string>)
    ensures Without([e] + rest, ids) == if e.id in ids then Without(rest, ids) else [e] + Without(rest, ids)
  {
    assert ([e] + rest)[1..] == rest;
  }

  /** A rewritten file holds the records of the old one, in order and nothing else; exactly
      those of the named ids are flagged, and no flag is taken back. */
  lemma {:induction false} MarkRewrites(log: seq<Line>, ids: set<string>)
    ensures |Marked(log, ids)| == |Entries(log)|
    ensures forall i :: 0 <= i < |Entries(log)| ==>
              var e := Entries(log)[i];
              Marked(log, ids)[i] == Record(Entry(e.id, e.payload, e.replayed || e.id in ids))
  {
    if log != [] {
      MarkRewrites(log[1..], ids);
    }
  }

  /** A mark takes exactly the named ids off the pending list, whatever the file holds, and
      keeps the order of the others. */
  lemma MarkTakesNamedIds(log: seq<Line>, ids: set<string>)
    ensures Listing(Marked(log, ids), true) == Without(Listing(log, true), ids)
  {
    PendingAfterMark(log, ids);
    KeepLastWithout(Pending(Entries(log)), ids);
  }

  lemma {:induction false} KeepLastAppend(es: seq<Entry>, e: Entry)
    requires !HasId(es, e.id)
    ensures KeepLast(es + [e]) == KeepLast(es) + [e]
  {
    if es == [] {
      assert es + [e] == [e] && [e][1..] == [];
    } else {
      var first, rest := es[0], es[1..];
      assert es == [first] + rest && es + [e] == [first] + (rest + [e]);
      assert forall x <- rest :: x in es;
      KeepLastAppend(rest, e);
      KeepLastAppendStep(first, rest, e);
    }
  }

  lemma KeepLastAppendStep(first: Entry, rest: seq<Entry>, e: Entry)
    requires first.id != e.id && KeepLast(rest + [e]) == KeepLast(rest) + [e]
    ensures KeepLast([first] + (rest + [e])) == KeepLast([first] + rest) + [e]
  {
    KeepLastStep(first, rest);
    KeepLastStep(first, rest + [e]);
    WaitingAfterAppend(rest, e, first.id);
    assert ([first] + KeepLast(rest)) + [e] == [first] + (KeepLast(rest) + [e]);
  }

  /** A record goes to the end of the pending list, unless its id is waiting already; then
      the waiting record stays. Nothing changes when the file cannot be read. */
  lemma RecordGoesLast(log: seq<Line>, id: string, payload: string)
    ensures Listing(Recorded(log, id, payload), true) ==
            if !Readable(log) || HasId(Listing(log, true), id) then Listing(log, true)
            else Listing(log, true) + [Entry(id, payload, false)]
  {
    var e := Entry(id, payload, false);
    EntriesConcat(log, [Record(e)]);
    SingleLine(Record(e));
    PendingConcat(Entries(log), [e]);
    if !HasId(Listing(log, true), id) {
      KeepLastAppend(Pending(Entries(log)), e);
    }
  }

  // ---- whole runs -------------------------------------------------------------------------

  datatype Step = DoRecord(id: string, payload: string) | DoMark(ids: set<string>)

  function LogStep(log: seq<Line>, step: Step): seq<Line> {
    match step
    case DoRecord(id, payload) => Recorded(log, id, payload)
    case DoMark(ids) => if Readable(log) then Marked(log, ids) else log
  }

  function LogAfter(log: seq<Line>, steps: seq<Step>): seq<Line>
    decreases |steps|
  {
    if steps == [] then log else LogAfter(LogStep(log, steps[0]), steps[1..])
  }

  /** The reference: a queue of waiting records, one to an id. */
  function QueueStep(queue: seq<Entry>, step: Step): seq<Entry> {
    match step
    case DoRecord(id, payload) => if HasId(queue, id) then queue else queue + [Entry(id, payload, false)]
    case DoMark(ids) => Without(queue, ids)
  }

  function QueueAfter(queue: seq<Entry>, steps: seq<Step>): seq<Entry>
    decreases |steps|
  {
    if steps == [] then queue else QueueAfter(QueueStep(queue, steps[0]), steps[1..])
  }

  lemma {:induction false} MarkedIsReadable(log: seq<Line>, ids: set<string>)
    ensures Readable(Marked(log, ids))
  {
    if log != [] {
      MarkedIsReadable(log[1..], ids);
    }
  }

  lemma StepKeepsReadable(log: seq<Line>, step: Step)
    ensures Readable(LogStep(log, step)) <==> Readable(log)
    ensures !Readable(log) ==> LogStep(log, step) == log
  {
    if step.DoMark? {
      MarkedIsReadable(log, step.ids);
    }
  }

  /** One line of JSON that is not an object stops the outbox for good: no operation changes
      the file any more, and no reader gets a list. */
  lemma {:induction false} UnreadableIsStuck(log: seq<Line>, steps: seq<Step>, onlyPending: bool)
    requires !Readable(log)
    ensures LogAfter(log, steps) == log && Reading(LogAfter(log, steps), onlyPending) == None
    decreases |steps|
  {
    if steps != [] {
      StepKeepsReadable(log, steps[0]);
      UnreadableIsStuck(log, steps[1..], onlyPending);
    }
  }

  /** The log with its replayed flags, rewrites and duplicates behaves as the queue, from
      any file and over any run: exactly as long as the file can be read, which no operation
      changes. */
  lemma {:induction false} LogRefinesQueue(log: seq<Line>, steps: seq<Step>)
    ensures Reading(LogAfter(log, steps), true) ==
            if Readable(log) then Some(QueueAfter(Listing(log, true), steps)) else None
    decreases |steps|
  {
    if !Readable(log) {
      UnreadableIsStuck(log, steps, true);
    } else if steps != [] {
      LogRefinesQueue(LogStep(log, steps[0]), steps[1..]);
      StepKeepsReadable(log, steps[0]);
      match steps[0]
      case DoRecord(id, payload) => RecordGoesLast(log, id, payload);
      case DoMark(ids) => MarkTakesNamedIds(log, ids);
    }
  }

  lemma {:induction false} WithoutKeepsDistinct(es: seq<Entry>, ids: set<string>)
    requires DistinctIds(es)
    ensures DistinctIds(Without(es, ids))
  {
    if es != [] {
      WithoutKeepsDistinct(es[1..], ids);
      var rest := Without(es[1..], ids);
      assert forall e <- es[1..] :: e.id != es[0].id;
      assert !HasId(rest, es[0].id);
      assert forall e <- rest :: e.id != es[0].id;
    }
  }

  predicate OnePendingEach(log: seq<Line>) {
    DistinctIds(Pending(Entries(log)))
  }

  lemma DistinctAdd(es: seq<Entry>, e: Entry)
    requires DistinctIds(es) && !HasId(es, e.id)
    ensures DistinctIds(es + [e])
  {
    assert forall i :: 0 <= i < |es| ==> es[i] in es;
  }

  lemma {:induction false} StepKeepsOnePending(log: seq<Line>, step: Step)
    requires OnePendingEach(log)
    ensures OnePendingEach(LogStep(log, step))
  {
    var pending := Pending(Entries(log));
    match step
    case DoRecord(id, payload) =>
      AddLine(log, Record(Entry(id, payload, false)));
      if !HasId(pending, id) {
        DistinctAdd(pending, Entry(id, payload, false));
      }
    case DoMark(ids) =>
      PendingAfterMark(log, ids);
      WithoutKeepsDistinct(pending, ids);
  }

  /** A log with at most one pending record to an id keeps it so: the last-wins rule of the
      listing has nothing to choose between. */
  lemma {:induction false} RunKeepsOnePending(log: seq<Line>, steps: seq<Step>)
    requires OnePendingEach(log)
    ensures OnePendingEach(LogAfter(log, steps))
    ensures Listing(LogAfter(log, steps), true) == Pending(Entries(LogAfter(log, steps)))
    decreases |steps|
  {
    if steps == [] {
      DistinctKeepsAll(Pending(Entries(log)));
    } else {
      StepKeepsOnePending(log, steps[0]);
      RunKeepsOnePending(LogStep(log, steps[0]), steps[1..]);
    }
  }

  lemma {:induction false} DistinctKeepsAll(es: seq<Entry>)
    requires DistinctIds(es)
    ensures KeepLast(es) == es
  {
    if es != [] {
      DistinctKeepsAll(es[1..]);
      assert es == [es[0]] + es[1..];
      KeepLastStep(es[0], es[1..]);
      assert forall e <- es[1..] :: e.id != es[0].id;
    }
  }

  // ---- each accepted record is taken off once ---------------------------------------------

  predicate Waiting(log: seq<Line>, id: string) {
    HasId(Listing(log, true), id)
  }

  /** Records of `id` that the run appended. */
  function Appended(log: seq<Line>, steps: seq<Step>, id: string): nat
    decreases |steps|
  {
    if steps == [] then 0
    else
      (if steps[0].DoRecord? && steps[0].id == id && LogStep(log, steps[0]) != log then 1 else 0)
      + Appended(LogStep(log, steps[0]), steps[1..], id)
  }

  /** Marks of the run that found `id` waiting and did not raise. */
  function TakenOff(log: seq<Line>, steps: seq<Step>, id: string): nat
    decreases |steps|
  {
    if steps == [] then 0
    else
      (if steps[0].DoMark? && id in steps[0].ids && Readable(log) && Waiting(log, id) then 1 else 0)
      + TakenOff(LogStep(log, steps[0]), steps[1..], id)
  }

  function AsCount(b: bool): nat {
    if b then 1 else 0
  }

  /** Nothing is lost and nothing is replayed twice: over any run, the records of an id that
      waited or were appended are those that a mark took off and the one still waiting. */
  lemma {:induction false} RecordsAreConserved(log: seq<Line>, steps: seq<Step>, id: string)
    ensures AsCount(Waiting(log, id)) + Appended(log, steps, id) ==
            TakenOff(log, steps, id) + AsCount(Waiting(LogAfter(log, steps), id))
    decreases |steps|
  {
    if steps != [] {
      var next := LogStep(log, steps[0]);
      RecordsAreConserved(next, steps[1..], id);
      match steps[0]
      case DoRecord(other, payload) =>
        RecordGoesLast(log, other, payload);
        WaitingAfterAppend(Listing(log, true), Entry(other, payload, false), id);
        assert |log + [Record(Entry(other, payload, false))]| == |log| + 1;
      case DoMark(ids) =>
        MarkTakesNamedIds(log, ids);
    }
  }

  lemma WaitingAfterAppend(es: seq<Entry>, e: Entry, id: string)
    ensures HasId(es + [e], id) <==> HasId(es, id) || e.id == id
  {
    assert (es + [e])[|es|] == e;
    assert forall x <- es :: x in es + [e];
  }
}
