/** Appending audit records to a file that can fail at any point (src/audit/jsonl-file.ts). */
module JsonlAudit {
  import opened Prelude
  import opened Text

  const NEWLINE := '\n'

  /** What one `fh.write` does: throw and append nothing, or append and report up to `n` of the bytes offered. */
  datatype WriteOutcome = WriteThrows | Writes(n: nat)

  /** What `fh.truncate` does; a throwing one may have taken effect or not. */
  datatype TruncateOutcome = Truncates | TruncateThrows(applied: bool)

  /** What the operating system does during one event. `isFile` is None when the first stat throws.
      Writes beyond the listed ones throw. */
  datatype Os = Os(
    noFollow: bool,
    opens: bool,
    isFile: Option<bool>,
    writes: seq<WriteOutcome>,
    secondStat: bool,
    truncate: TruncateOutcome,
    thirdStat: bool,
    closes: bool)

  /** The file's bytes, one character each, and whether the sink has given up. */
  datatype Sink = Sink(content: string, disabled: bool)

  /** An event to record: its JSON text, None when serializing throws. */
  datatype Event = Event(json: Option<string>, os: Os)

  // -------------------------------------------------------------- what one event does

  /** How many of the `len` bytes are appended before a write throws or appends nothing. */
  function Appended(writes: seq<WriteOutcome>, len: nat): (n: nat)
    ensures n <= len
  {
    if len == 0 || writes == [] || writes[0].WriteThrows? || writes[0].n == 0 then 0
    else
      var n := Min(writes[0].n, len);
      n + Appended(writes[1..], len - n)
  }

  predicate Opened(os: Os) {
    os.noFollow && os.opens && os.isFile == Some(true)
  }

  predicate RollsBack(os: Os) {
    os.secondStat && os.truncate.Truncates? && os.thirdStat
  }

  /** Whether the truncation happened, verified or not. */
  predicate Cut(os: Os) {
    os.secondStat && (os.truncate.Truncates? || os.truncate.applied)
  }

  function Line(json: string): string {
    json + [NEWLINE]
  }

  function Append(s: Sink, event: Event): Sink {
    if s.disabled || event.json.None? || !Opened(event.os) then s
    else
      var line := Line(event.json.value);
      var n := Appended(event.os.writes, |line|);
      if n == |line| then Sink(s.content + line, false)
      else if n == 0 || RollsBack(event.os) then s
      else Sink(if Cut(event.os) then s.content else s.content + line[..n], true)
  }

  datatype Written = Complete | Nothing | Partial(bytesWritten: nat)

  class AuditFile {
    var content: string

    constructor (content: string)
      ensures this.content == content
    {
      this.content := content;
    }

    /** `fh.write(line, offset, line.length - offset)`; None models a throw. */
    method Write(line: string, offset: nat, outcome: WriteOutcome) returns (bytesWritten: Option<nat>)
      requires offset <= |line|
      modifies this
      ensures bytesWritten == if outcome.WriteThrows? then None else Some(Min(outcome.n, |line| - offset))
      ensures content == old(content) + line[offset..offset + if outcome.WriteThrows? then 0 else bytesWritten.value]
    {
      if outcome.WriteThrows? { return None; }
      var n: nat := Min(outcome.n, |line| - offset);
      content := content + line[offset..offset + n];
      return Some(n);
    }

    /** `fh.truncate(size)`. */
    method Truncate(size: nat, outcome: TruncateOutcome) returns (ok: bool)
      requires size <= |content|
      modifies this
      ensures ok == outcome.Truncates?
      ensures content == if ok || outcome.applied then old(content)[..size] else old(content)
    {
      if outcome.Truncates? || outcome.applied { content := content[..size]; }
      return outcome.Truncates?;
    }
  }

  method WriteCompleteLine(file: AuditFile, line: string, writes: seq<WriteOutcome>) returns (written: Written)
    requires line != ""
    modifies file
    ensures var n := Appended(writes, |line|);
      && file.content == old(file.content) + line[..n]
      && written == if n == |line| then Complete else if n == 0 then Nothing else Partial(n)
  {
    var offset, k := 0, 0;
    while offset < |line|
      invariant k <= |writes| && offset <= |line|
      invariant Appended(writes, |line|) == offset + Appended(writes[k..], |line| - offset)
      invariant file.content == old(file.content) + line[..offset]
      decreases |line| - offset
    {
      var bytesWritten: Option<nat> := None;
      if k < |writes| {
        bytesWritten := file.Write(line, offset, writes[k]);
        assert writes[k..][1..] == writes[k + 1..];
      }
      if bytesWritten.None? || bytesWritten.value == 0 {
        return if offset > 0 then Partial(offset) else Nothing;
      }
      assert line[..offset] + line[offset..offset + bytesWritten.value] == line[..offset + bytesWritten.value];
      offset, k := offset + bytesWritten.value, k + 1;
    }
    return Complete;
  }

  method RollbackPartialLine(file: AuditFile, initialSize: nat, bytesWritten: nat, os: Os) returns (ok: bool)
    requires |file.content| == initialSize + bytesWritten
    modifies file
    ensures ok == RollsBack(os)
    ensures file.content == if Cut(os) then old(file.content)[..initialSize] else old(file.content)
  {
    if !os.secondStat { return false; }
    var afterWrite := |file.content|;
    if afterWrite != initialSize + bytesWritten { return false; }
    var truncated := file.Truncate(initialSize, os.truncate);
    if !truncated || !os.thirdStat { return false; }
    return |file.content| == initialSize;
  }

  class JsonlFileAudit {
    const file: AuditFile
    var appendDisabled: bool

    function Contents(): Sink
      reads this, file
    {
      Sink(file.content, appendDisabled)
    }

    constructor (file: AuditFile)
      ensures this.file == file && !appendDisabled
    {
      this.file := file;
      appendDisabled := false;
    }

    method AppendEvent(event: Event)
      modifies this, file
      ensures Contents() == Append(old(Contents()), event)
    {
      if appendDisabled { return; }
      if event.json.None? { return; }
      var line := event.json.value + [NEWLINE];
      var os := event.os;
      if !os.noFollow { return; }
      if !os.opens { return; }
      if os.isFile.None? { return; }
      var size := |file.content|;
      if !os.isFile.value { return; }
      var written := WriteCompleteLine(file, line, os.writes);
      if written.Partial? {
        assert (old(file.content) + line[..written.bytesWritten])[..size] == old(file.content);
        var rolledBack := RollbackPartialLine(file, size, written.bytesWritten, os);
        if !rolledBack { DisableAppends(); }
      }
    }

    method DisableAppends()
      modifies this
      ensures appendDisabled
    {
      if appendDisabled { return; }
      appendDisabled := true;
    }
  }

  // --------------------------------------------------------------------- all events

  function After(initial: string, events: seq<Event>): Sink {
    if events == [] then Sink(initial, false) else Append(After(initial, events[..|events| - 1]), events[|events| - 1])
  }

  /** The record reaches the file in full. */
  predicate Lands(event: Event) {
    && event.json.Some? && Opened(event.os)
    && Appended(event.os.writes, |Line(event.json.value)|) == |Line(event.json.value)|
  }

  /** The event writes a part of its record and cannot take it back. */
  predicate Breaks(event: Event) {
    && event.json.Some? && Opened(event.os) && !Lands(event)
    && Appended(event.os.writes, |Line(event.json.value)|) > 0 && !RollsBack(event.os)
  }

  /** The events up to and including the first that breaks, if one does. */
  function UntilBroken(events: seq<Event>): (prefix: seq<Event>) {
    if events == [] then []
    else if Breaks(events[0]) then [events[0]]
    else [events[0]] + UntilBroken(events[1..])
  }

  /** The records of the events that land, in order. */
  function Records(events: seq<Event>): (records: seq<string>) {
    if events == [] then []
    else Records(events[..|events| - 1]) + if Lands(events[|events| - 1]) then [events[|events| - 1].json.value] else []
  }

  function Lines(records: seq<string>): string {
    if records == [] then "" else Lines(records[..|records| - 1]) + Line(records[|records| - 1])
  }

  /** What a broken event left in the file. */
  function Fragment(event: Event): string
    requires Breaks(event)
  {
    if Cut(event.os) then "" else event.json.value[..Appended(event.os.writes, |Line(event.json.value)|)]
  }

  lemma {:induction false} UntilBrokenAppend(events: seq<Event>, event: Event)
    ensures UntilBroken(events + [event]) ==
      if UntilBroken(events) == events && (events == [] || !Breaks(events[|events| - 1])) then events + [event] else UntilBroken(events)
  {
    if events == [] {
      assert events + [event] == [event];
      assert [event][1..] == [];
    } else {
      assert (events + [event])[1..] == events[1..] + [event];
      UntilBrokenAppend(events[1..], event);
      assert events == [events[0]] + events[1..];
    }
  }

  ghost predicate Accounts(sink: Sink, initial: string, kept: seq<Event>) {
    if sink.disabled then
      kept != [] && Breaks(kept[|kept| - 1]) && sink.content == initial + Lines(Records(kept)) + Fragment(kept[|kept| - 1])
    else
      (kept == [] || !Breaks(kept[|kept| - 1])) && sink.content == initial + Lines(Records(kept))
  }

  /** One event, by what the system does: nothing is written unless the file opens without following a link and is a regular
      one; a full line lands; a part of a line is taken back where both stats and the truncation succeed, and otherwise
      disables the sink, with the part still there unless the truncation had taken effect. */
  lemma AppendByOutcome(s: Sink, event: Event)
    ensures var os, after := event.os, Append(s, event);
      if s.disabled || event.json.None? || !os.noFollow || !os.opens || os.isFile != Some(true) then after == s
      else
        var line := event.json.value + "\n";
        var n := Appended(os.writes, |line|);
        if n == |line| then after == Sink(s.content + line, false)
        else if n == 0 || (os.secondStat && os.truncate.Truncates? && os.thirdStat) then after == s
        else after.disabled && after.content == s.content + if os.secondStat && (os.truncate.Truncates? || os.truncate.applied) then "" else line[..n]
  {
  }

  lemma AppendAccounts(sink: Sink, initial: string, kept: seq<Event>, event: Event)
    requires Accounts(sink, initial, kept)
    ensures Accounts(Append(sink, event), initial, if sink.disabled then kept else kept + [event])
  {
    if !sink.disabled {
      assert (kept + [event])[..|kept|] == kept;
      var records := Records(kept);
      if Lands(event) {
        var json := event.json.value;
        assert (records + [json])[..|records|] == records;
        assert sink.content + Line(json) == initial + (Lines(records) + Line(json));
      } else {
        assert Records(kept + [event]) == records;
        if Breaks(event) {
          assert Line(event.json.value)[..|event.json.value|] == event.json.value;
          assert sink.content + "" == sink.content;
        }
      }
    }
  }

  /** The file is its initial content, then complete lines of the events that landed, in order; once an event
      broke the sink is disabled and the file keeps that event's fragment and nothing after it. */
  lemma {:induction false} FileHoldsRecords(initial: string, events: seq<Event>)
    ensures Accounts(After(initial, events), initial, UntilBroken(events))
    ensures After(initial, events).disabled <==> exists i :: 0 <= i < |events| && Breaks(events[i])
    ensures !After(initial, events).disabled ==> UntilBroken(events) == events
  {
    if events != [] {
      hide Accounts;
      var before, event := events[..|events| - 1], events[|events| - 1];
      assert events == before + [event];
      FileHoldsRecords(initial, before);
      UntilBrokenAppend(before, event);
      AppendAccounts(After(initial, before), initial, UntilBroken(before), event);
      if After(initial, before).disabled {
        var i :| 0 <= i < |before| && Breaks(before[i]);
        assert Breaks(events[i]);
      }
    }
  }

  /** Once disabled the file never changes again. */
  lemma DisabledIsFinal(initial: string, events: seq<Event>, event: Event)
    requires After(initial, events).disabled
    ensures After(initial, events + [event]) == After(initial, events)
  {
    assert (events + [event])[..|events|] == events;
  }

  // -------------------------------------------------------- reading the file back

  /** JSON text holds no line break. */
  predicate OneLine(event: Event) {
    event.json.Some? ==> NEWLINE !in event.json.value
  }

  lemma {:induction false} SplitLines(records: seq<string>, rest: string)
    requires forall i :: 0 <= i < |records| ==> NEWLINE !in records[i]
    ensures Split(Lines(records) + rest, NEWLINE) == records + Split(rest, NEWLINE)
  {
    if records == [] {
      assert Lines(records) + rest == rest;
    } else {
      var init, last := records[..|records| - 1], records[|records| - 1];
      SplitAfterFirst(last, rest, NEWLINE);
      SplitLines(init, Line(last) + rest);
      LineInFront(Lines(init), last, rest);
      hide Split, Lines;
      assert records + Split(rest, NEWLINE) == init + ([last] + Split(rest, NEWLINE));
    }
  }

  lemma LineInFront(a: string, last: string, rest: string)
    ensures a + Line(last) + rest == a + (Line(last) + rest)
    ensures Line(last) + rest == last + [NEWLINE] + rest
  {
  }

  lemma {:induction false} RecordsAreOneLine(events: seq<Event>, i: nat)
    requires (forall k :: 0 <= k < |events| ==> OneLine(events[k])) && i < |Records(events)|
    ensures NEWLINE !in Records(events)[i]
  {
    if i < |Records(events[..|events| - 1])| {
      RecordsAreOneLine(events[..|events| - 1], i);
    }
  }

  lemma {:induction false} KeptAreEvents(events: seq<Event>, i: nat)
    requires i < |UntilBroken(events)|
    ensures |UntilBroken(events)| <= |events| && UntilBroken(events)[i] == events[i]
  {
    if !Breaks(events[0]) && i > 0 {
      KeptAreEvents(events[1..], i - 1);
    } else if !Breaks(events[0]) && |UntilBroken(events)| > 1 {
      KeptAreEvents(events[1..], 0);
    }
  }

  /** What the sink left behind the last complete line it wrote. */
  function Leftover(events: seq<Event>): string {
    var kept := UntilBroken(events);
    if kept != [] && Breaks(kept[|kept| - 1]) then Fragment(kept[|kept| - 1]) else ""
  }

  /** Whatever the file held before, splitting it at its line ends gives the old pieces and then the records back,
      each on its own line: no record is joined to another or to a fragment the sink left, which can only stand
      behind the last of them. Only the last old piece is joined, to what comes first. */
  lemma NoRecordJoinsAFragment(initial: string, events: seq<Event>)
    requires forall i :: 0 <= i < |events| ==> OneLine(events[i])
    ensures Split(After(initial, events).content, NEWLINE) ==
      Glue(Split(initial, NEWLINE), Records(UntilBroken(events)) + [Leftover(events)])
  {
    hide Split, After, Records, UntilBroken, Leftover, Lines;
    var records, rest := Records(UntilBroken(events)), Leftover(events);
    ContentParts(initial, events);
    FragmentIsOneLine(events);
    KeptAreOneLine(events);
    SplitBehind(initial, Lines(records) + rest, NEWLINE);
    SplitLines(records, rest);
    SplitOfPlain(rest, NEWLINE);
    assert initial + (Lines(records) + rest) == initial + Lines(records) + rest;
  }

  /** The first record of a sink stands alone on its line if and only if the file was empty or ended in a line end. */
  lemma FirstRecordStandsAlone(initial: string, events: seq<Event>)
    requires forall i :: 0 <= i < |events| ==> OneLine(events[i])
    requires Records(UntilBroken(events)) != []
    ensures var pieces, at := Split(After(initial, events).content, NEWLINE), |Split(initial, NEWLINE)| - 1;
      && at < |pieces|
      && (pieces[at] == Records(UntilBroken(events))[0] <==> initial == "" || initial[|initial| - 1] == NEWLINE)
  {
    hide Split, After, Records, UntilBroken, Leftover;
    NoRecordJoinsAFragment(initial, events);
    LastPieceIsEmpty(initial, NEWLINE);
    var was, record := Split(initial, NEWLINE), Records(UntilBroken(events))[0];
    var tail := was[|was| - 1];
    if tail == "" { assert tail + record == record; } else { assert |tail + record| > |record|; }
  }

  lemma ContentParts(initial: string, events: seq<Event>)
    ensures After(initial, events).content == initial + Lines(Records(UntilBroken(events))) + Leftover(events)
  {
    FileHoldsRecords(initial, events);
    hide After, UntilBroken, Records, Lines, Breaks, Fragment;
    assert initial + Lines(Records(UntilBroken(events))) + "" == initial + Lines(Records(UntilBroken(events)));
  }

  lemma KeptAreOneLine(events: seq<Event>)
    requires forall i :: 0 <= i < |events| ==> OneLine(events[i])
    ensures forall i :: 0 <= i < |Records(UntilBroken(events))| ==> NEWLINE !in Records(UntilBroken(events))[i]
  {
    var kept := UntilBroken(events);
    forall k | 0 <= k < |kept| ensures OneLine(kept[k]) { KeptAreEvents(events, k); }
    forall i | 0 <= i < |Records(kept)| ensures NEWLINE !in Records(kept)[i] { RecordsAreOneLine(kept, i); }
  }

  lemma FragmentIsOneLine(events: seq<Event>)
    requires forall i :: 0 <= i < |events| ==> OneLine(events[i])
    ensures NEWLINE !in Leftover(events)
  {
    var kept := UntilBroken(events);
    if kept != [] {
      KeptAreEvents(events, |kept| - 1);
      assert OneLine(events[|kept| - 1]);
    }
  }
}
