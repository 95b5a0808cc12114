/** Bodies as a server may write them, in each framing's own format, frame as what was written. */
module WrittenBodies {
  import opened Sequences
  import opened Framing
  import opened Resumption
  import opened EventLines

  // ----- Lines and their endings -----

  /** A line ends at LF, at CR, or at both. */
  predicate IsEnding(ending: Bytes) {
    ending == [10] || ending == [13] || ending == [13, 10]
  }

  /** An ending for each line, or for each but the last; LF right behind CR would be one ending with it. */
  predicate EndingsFit(lines: seq<Bytes>, endings: seq<Bytes>) {
    && |endings| <= |lines| <= |endings| + 1
    && (forall i :: 0 <= i < |endings| ==> IsEnding(endings[i]))
    && forall i :: 1 <= i < |endings| && lines[i] == [] && endings[i] == [10] ==> endings[i - 1] != [13]
  }

  /** The lines, each with its ending behind it. */
  function TextOf(lines: seq<Bytes>, endings: seq<Bytes>): Bytes {
    if lines == [] then []
    else if endings == [] then lines[0] + TextOf(lines[1..], [])
    else lines[0] + endings[0] + TextOf(lines[1..], endings[1..])
  }

  predicate HoldNoTerminator(lines: seq<Bytes>) {
    forall i :: 0 <= i < |lines| ==> NoTerminator(lines[i])
  }

  lemma NoLines()
    ensures Lines([]) == [[]]
  {
  }

  lemma {:induction false} OneLine(line: Bytes)
    requires NoTerminator(line)
    ensures Lines(line) == [line]
  {
    PlainIsNormalized(line);
    SplitNone(line, LF);
  }

  lemma {:induction false} PlainIsNormalized(line: Bytes)
    requires NoTerminator(line)
    ensures NormalizeNewlines(line) == line
  {
    if line != [] {
      PlainIsNormalized(line[1..]);
      assert [line[0]] + line[1..] == line;
    }
  }

  /** What follows a line ended by CR does not open with LF. */
  lemma CrStandsAlone(lines: seq<Bytes>, endings: seq<Bytes>)
    requires EndingsFit(lines, endings) && HoldNoTerminator(lines) && endings != [] && endings[0] == [CR]
    ensures var rest := TextOf(lines[1..], endings[1..]); rest != [] ==> rest[0] != LF
  {
    if |lines| > 1 {
      assert NoTerminator(lines[1]);
      assert lines[1..][0] == lines[1];
      if |endings| > 1 {
        assert endings[1..][0] == endings[1];
        assert IsEnding(endings[1]);
      }
      assert lines[1..][1..] == lines[2..];
      assert endings[1..] == [] ==> TextOf(lines[2..], []) == [];
    }
  }

  /** A text of lines has those lines, whichever ending each of them has. */
  lemma {:induction false} TextReads(lines: seq<Bytes>, endings: seq<Bytes>)
    requires EndingsFit(lines, endings) && HoldNoTerminator(lines)
    ensures Lines(TextOf(lines, endings)) == lines + if |endings| == |lines| then [[]] else []
  {
    hide Lines;
    if lines == [] {
      NoLines();
    } else {
      assert NoTerminator(lines[0]);
      var tail := lines[1..];
      if endings == [] {
        assert tail == [] && TextOf(tail, []) == [];
        assert lines[0] + [] == lines[0];
        OneLine(lines[0]);
      } else {
        assert forall i :: 0 <= i < |tail| ==> tail[i] == lines[i + 1];
        var more := endings[1..];
        assert forall i :: 0 <= i < |more| ==> more[i] == endings[i + 1];
        TextReads(tail, more);
        if endings[0] == [CR] {
          CrStandsAlone(lines, endings);
        }
        assert IsEnding(endings[0]);
        LinesStep(lines[0], endings[0], TextOf(tail, more));
      }
    }
  }

  // ----- Events -----

  /** Every event's lines, with a blank line after each event. */
  function AllLines(events: seq<seq<EventLine>>): seq<Bytes> {
    if events == [] then [] else LineTexts(events[0]) + [[]] + AllLines(events[1..])
  }

  predicate AreEvents(events: seq<seq<EventLine>>) {
    forall i :: 0 <= i < |events| ==> AreEventLines(events[i])
  }

  function FramesOf(events: seq<seq<EventLine>>, mode: FramingMode): seq<FramePoll> {
    if events == [] then [] else Handed(events[0], mode) + FramesOf(events[1..], mode)
  }

  lemma {:induction false} LineTextsAreLines(lines: seq<EventLine>)
    requires AreEventLines(lines)
    ensures forall text :: text in LineTexts(lines) ==> text != [] && NoTerminator(text)
  {
    if lines != [] {
      assert IsEventLine(lines[0]);
      assert LineText(lines[0]) != [] && NoTerminator(LineText(lines[0]));
      hide LineText, IsEventLine;
      LineTextsAreLines(lines[1..]);
    }
  }

  lemma {:induction false} AllLinesHoldNoTerminator(events: seq<seq<EventLine>>)
    requires AreEvents(events)
    ensures forall text :: text in AllLines(events) ==> NoTerminator(text)
  {
    if events != [] {
      LineTextsAreLines(events[0]);
      hide LineTexts, AreEventLines;
      AllLinesHoldNoTerminator(events[1..]);
    }
  }

  /** The groups of lines of events and of what follows the last of them. */
  lemma {:induction false} AllLinesGroup(events: seq<seq<EventLine>>, tail: seq<Bytes>, mode: FramingMode)
    requires IsSse(mode) && AreEvents(events)
    ensures var groups, behind := SplitOn(AllLines(events) + tail, []), SplitOn(tail, []);
            && EventFrames(groups, mode) == FramesOf(events, mode) + EventFrames(behind, mode)
            && EventFrames(AllButLast(groups), mode) == FramesOf(events, mode) + EventFrames(AllButLast(behind), mode)
  {
    hide AreEventLines, LineTexts, FrameOf, FinishSseFields, ReadLines;
    if events == [] {
      assert AllLines(events) + tail == tail;
    } else {
      var first, rest := LineTexts(events[0]), AllLines(events[1..]) + tail;
      LineTextsAreLines(events[0]);
      assert [] !in first;
      assert AllLines(events) + tail == first + [[]] + rest;
      SplitFirst(first, [], rest);
      AllLinesGroup(events[1..], tail, mode);
      EventReads(events[0], mode);
      var groups := SplitOn(rest, []);
      hide SplitOn;
      GroupsCons(first, groups, mode);
      hide EventFrames, AllButLast, AllLines;
      var one, more := Handed(events[0], mode), FramesOf(events[1..], mode);
      var behind := SplitOn(tail, []);
      FramesTogether(one, more, EventFrames(behind, mode));
      FramesTogether(one, more, EventFrames(AllButLast(behind), mode));
    }
  }

  lemma GroupsCons(first: seq<Bytes>, groups: seq<seq<Bytes>>, mode: FramingMode)
    requires groups != []
    ensures var one := Emits(FinishSseFields(ReadLines(NO_FIELDS, first), mode));
            && EventFrames([first] + groups, mode) == one + EventFrames(groups, mode)
            && EventFrames(AllButLast([first] + groups), mode) == one + EventFrames(AllButLast(groups), mode)
  {
    hide FinishSseFields, ReadLines;
    assert ([first] + groups)[1..] == groups;
    assert AllButLast([first] + groups) == [first] + AllButLast(groups);
    assert ([first] + AllButLast(groups))[1..] == AllButLast(groups);
  }

  lemma FramesTogether(a: seq<FramePoll>, b: seq<FramePoll>, c: seq<FramePoll>)
    ensures a + (b + c) == a + b + c
  {
  }

  /** A text with the lines of events, and others behind them, frames as the events and what the others make. */
  lemma LinesFrame(mode: FramingMode, marked: bool, text: Bytes, events: seq<seq<EventLine>>, behind: seq<Bytes>, ended: bool)
    requires IsSse(mode) && AreEvents(events) && SseLines(text, ended) == AllLines(events) + behind
    requires marked || !(Mark(true) <= text)
    ensures var groups := SplitOn(behind, []);
            BodyFrames(mode, Mark(marked) + text, ended)
            == UpToDone(FramesOf(events, mode) + EventFrames(if ended then groups else AllButLast(groups), mode))
  {
    hide SseLines, AllLines, EventFrames, FramesOf, UpToDone, StripBom, Mark, AreEvents, SplitOn, AllButLast;
    MarkedBodyStrips(marked, text);
    AllLinesGroup(events, behind, mode);
  }

  /** Lines of one more event, without a blank line behind them or with the end of the text. */
  lemma TailGroups(tail: seq<EventLine>, mode: FramingMode)
    requires IsSse(mode) && AreEventLines(tail)
    ensures EventFrames(SplitOn(LineTexts(tail), []), mode) == Handed(tail, mode)
    ensures EventFrames(SplitOn(LineTexts(tail) + [[]], []), mode) == Handed(tail, mode)
    ensures EventFrames(AllButLast(SplitOn(LineTexts(tail), [])), mode) == []
  {
    var lines := LineTexts(tail);
    LineTextsAreLines(tail);
    EventReads(tail, mode);
    hide LineTexts, AreEventLines, FrameOf, ReadLines;
    var none: seq<Bytes> := [];
    SplitNone(lines, []);
    SplitFirst(lines, [], none);
    assert lines + [[]] + none == lines + [[]];
    assert SplitOn(none, []) == [none];
    NoGroups(mode);
    var empty: seq<seq<Bytes>> := [];
    assert [lines][1..] == empty && ([lines] + [none])[1..] == [none];
    assert AllButLast([lines]) == empty;
    assert Handed(tail, mode) + [] == Handed(tail, mode);
  }

  lemma NoGroups(mode: FramingMode)
    ensures EventFrames([], mode) == [] && EventFrames([[]], mode) == []
  {
    var none: seq<seq<Bytes>> := [];
    assert EventFrames(none, mode) == [];
    assert [[]][1..] == none;
  }

  /** The UTF-8 byte order mark (section 3 of RFC 3629). */
  function Mark(marked: bool): Bytes {
    if marked then [239, 187, 191] else []
  }

  /** One byte order mark ahead of a body is no part of it. */
  lemma MarkedBodyStrips(marked: bool, body: Bytes)
    requires marked || !(Mark(true) <= body)
    ensures StripBom(Mark(marked) + body) == body
  {
    assert Mark(false) + body == body;
    assert (Mark(true) + body)[3..] == body && (Mark(true) + body)[..3] == Mark(true);
  }

  /** The lines of a body: those of the events, and those of one that no blank line ends. */
  function BodyLines(events: seq<seq<EventLine>>, tail: seq<EventLine>): seq<Bytes> {
    AllLines(events) + LineTexts(tail)
  }

  lemma BodyLinesAreLines(events: seq<seq<EventLine>>, tail: seq<EventLine>)
    requires AreEvents(events) && AreEventLines(tail)
    ensures HoldNoTerminator(BodyLines(events, tail))
  {
    hide AreEvents, AreEventLines, AllLines, LineTexts, NoTerminator;
    AllLinesHoldNoTerminator(events);
    LineTextsAreLines(tail);
  }

  /**
   * A body of events, whatever lines they hold and whichever way each line ends, frames as those
   * events, the last of them dispatched by the body's end; a byte order mark ahead of it is stripped.
   */
  lemma WrittenEventsFrame(mode: FramingMode, marked: bool, events: seq<seq<EventLine>>, tail: seq<EventLine>, endings: seq<Bytes>)
    requires IsSse(mode) && AreEvents(events) && AreEventLines(tail) && EndingsFit(BodyLines(events, tail), endings)
    requires marked || !(Mark(true) <= TextOf(BodyLines(events, tail), endings))
    ensures BodyFrames(mode, Mark(marked) + TextOf(BodyLines(events, tail), endings), true)
         == UpToDone(FramesOf(events, mode) + Handed(tail, mode))
  {
    hide *;
    BodyLinesAreLines(events, tail);
    EndedLines(events, tail, endings);
    TailGroups(tail, mode);
    LinesFrame(mode, marked, TextOf(BodyLines(events, tail), endings), events, LineTexts(tail) + Blank(events, tail, endings), true);
    assert LineTexts(tail) + [] == LineTexts(tail);
  }

  /** The empty line behind a last line that is ended. */
  function Blank(events: seq<seq<EventLine>>, tail: seq<EventLine>, endings: seq<Bytes>): (blank: seq<Bytes>)
    ensures blank == [[]] || blank == []
  {
    if |endings| == |BodyLines(events, tail)| then [[]] else []
  }

  lemma EndedLines(events: seq<seq<EventLine>>, tail: seq<EventLine>, endings: seq<Bytes>)
    requires EndingsFit(BodyLines(events, tail), endings) && HoldNoTerminator(BodyLines(events, tail))
    ensures SseLines(TextOf(BodyLines(events, tail), endings), true) == AllLines(events) + (LineTexts(tail) + Blank(events, tail, endings))
  {
    TextReads(BodyLines(events, tail), endings);
    hide Lines, AllLines, LineTexts, TextOf, EndingsFit, HoldNoTerminator;
  }

  /** While the body goes on, the events that a blank line ends are framed, and nothing behind them. */
  lemma WrittenEventsArrive(mode: FramingMode, marked: bool, events: seq<seq<EventLine>>, tail: seq<EventLine>, endings: seq<Bytes>)
    requires IsSse(mode) && AreEvents(events) && AreEventLines(tail) && EndingsFit(BodyLines(events, tail), endings)
    requires marked || !(Mark(true) <= TextOf(BodyLines(events, tail), endings))
    requires |endings| == |BodyLines(events, tail)|
    requires endings != [] ==> endings[|endings| - 1] != [13]
    ensures BodyFrames(mode, Mark(marked) + TextOf(BodyLines(events, tail), endings), false) == UpToDone(FramesOf(events, mode))
  {
    hide *;
    BodyLinesAreLines(events, tail);
    LinesArrive(BodyLines(events, tail), endings);
    BodyLinesAre(events, tail);
    TailGroups(tail, mode);
    LinesFrame(mode, marked, TextOf(BodyLines(events, tail), endings), events, LineTexts(tail), false);
    assert FramesOf(events, mode) + [] == FramesOf(events, mode);
  }

  lemma BodyLinesAre(events: seq<seq<EventLine>>, tail: seq<EventLine>)
    ensures BodyLines(events, tail) == AllLines(events) + LineTexts(tail)
  {
  }

  /** The lines that have arrived complete. */
  lemma LinesArrive(lines: seq<Bytes>, endings: seq<Bytes>)
    requires EndingsFit(lines, endings) && HoldNoTerminator(lines) && |endings| == |lines|
    requires endings != [] ==> endings[|endings| - 1] != [13]
    ensures SseLines(TextOf(lines, endings), false) == lines
  {
    TextReads(lines, endings);
    TextEnds(lines, endings);
    hide Lines;
    assert DropHeldCr(TextOf(lines, endings)) == TextOf(lines, endings);
    assert AllButLast(lines + [[]]) == lines;
  }

  lemma {:induction false} TextEnds(lines: seq<Bytes>, endings: seq<Bytes>)
    requires |endings| == |lines| && forall i :: 0 <= i < |endings| ==> IsEnding(endings[i])
    requires endings != [] ==> endings[|endings| - 1] != [13]
    ensures var text := TextOf(lines, endings); text != [] ==> text[|text| - 1] == 10
  {
    if lines != [] {
      TextEnds(lines[1..], endings[1..]);
      if |lines| > 1 {
        assert endings[1..][|endings| - 2] == endings[|endings| - 1];
        TextIsLong(lines[1..], endings[1..]);
      }
    }
  }

  lemma TextIsLong(lines: seq<Bytes>, endings: seq<Bytes>)
    requires |endings| == |lines| > 0 && IsEnding(endings[0])
    ensures TextOf(lines, endings) != []
  {
  }

  // ----- Lines and records -----

  /** The texts that are not empty, each an item. */
  function ItemsOf(texts: seq<Bytes>): seq<FramePoll> {
    if texts == [] then []
    else (if texts[0] == [] then [] else [Item(Raw(texts[0]), NO_METADATA)]) + ItemsOf(texts[1..])
  }

  /** LF ends a line, with one CR before it or none; a CR that a text ends in is its own only before such a CR. */
  predicate JsonLinesFit(texts: seq<Bytes>, endings: seq<Bytes>) {
    && |endings| <= |texts| <= |endings| + 1
    && (forall i :: 0 <= i < |texts| ==> 10 !in texts[i])
    && (forall i :: 0 <= i < |endings| ==> endings[i] == [10] || endings[i] == [13, 10])
    && forall i :: 0 <= i < |texts| && (i < |endings| ==> endings[i] == [10]) && texts[i] != [] ==>
         texts[i][|texts[i]| - 1] != 13
  }

  /** The parts between line feeds. */
  lemma {:induction false} JsonLinesSplit(texts: seq<Bytes>, endings: seq<Bytes>)
    requires JsonLinesFit(texts, endings)
    ensures var lines := SplitOn(TextOf(texts, endings), LF);
            && LineItems(lines) == ItemsOf(texts)
            && (|endings| == |texts| ==> LineItems(AllButLast(lines)) == ItemsOf(texts))
  {
    if texts == [] {
      var none: seq<Bytes> := [];
      assert SplitOn([], LF) == [[]] && [[]][1..] == none && AllButLast([[]]) == none;
    } else if endings == [] {
      assert texts[1..] == [] && TextOf(texts[1..], []) == [] && texts[0] + [] == texts[0];
      SplitNone(texts[0], LF);
      OneItem(texts[0]);
    } else {
      var rest, more := texts[1..], endings[1..];
      assert forall i :: 0 <= i < |rest| ==> rest[i] == texts[i + 1];
      assert forall i :: 0 <= i < |more| ==> more[i] == endings[i + 1];
      JsonLinesSplit(rest, more);
      JsonLineSplits(texts[0], endings[0], TextOf(rest, more));
      hide SplitOn, TextOf, JsonLinesFit, LineItems, ItemsOf;
      ItemsCons(if endings[0] == [10] then texts[0] else texts[0] + [13], SplitOn(TextOf(rest, more), LF));
      ItemsOfCons(texts);
    }
  }

  lemma ItemsOfCons(texts: seq<Bytes>)
    requires texts != []
    ensures ItemsOf(texts) == FrameItem(texts[0]) + ItemsOf(texts[1..])
  {
  }

  lemma JsonLineSplits(text: Bytes, ending: Bytes, rest: Bytes)
    requires 10 !in text && (ending == [13, 10] || (ending == [10] && (text != [] ==> text[|text| - 1] != 13)))
    ensures var line := if ending == [10] then text else text + [13];
            && SplitOn(text + ending + rest, LF) == [line] + SplitOn(rest, LF)
            && TrimCr(line) == text
  {
    var line := if ending == [10] then text else text + [13];
    assert line[..|text|] == text;
    assert text + ending + rest == line + [LF] + rest;
    SplitFirst(line, LF, rest);
  }

  lemma OneItem(text: Bytes)
    requires TrimCr(text) == text
    ensures LineItems([text]) == ItemsOf([text]) == FrameItem(text)
  {
    var none: seq<Bytes> := [];
    assert [text][1..] == none && LineItems(none) == ItemsOf(none) == [];
  }

  lemma ItemsCons(line: Bytes, parts: seq<Bytes>)
    requires parts != []
    ensures LineItems([line] + parts) == FrameItem(TrimCr(line)) + LineItems(parts)
    ensures LineItems(AllButLast([line] + parts)) == FrameItem(TrimCr(line)) + LineItems(AllButLast(parts))
  {
    assert ([line] + parts)[1..] == parts;
    assert AllButLast([line] + parts) == [line] + AllButLast(parts);
    assert ([line] + AllButLast(parts))[1..] == AllButLast(parts);
  }

  /** JSON texts, one a line, come back as they are, blank lines aside; while the body goes on, those that LF ends. */
  lemma WrittenLinesFrame(texts: seq<Bytes>, endings: seq<Bytes>)
    requires JsonLinesFit(texts, endings)
    ensures BodyFrames(Ndjson, TextOf(texts, endings), true) == ItemsOf(texts)
    ensures |endings| == |texts| ==> BodyFrames(Ndjson, TextOf(texts, endings), false) == ItemsOf(texts)
  {
    hide TextOf, LineItems, ItemsOf, JsonLinesFit;
    JsonLinesSplit(texts, endings);
  }

  /** A record: a JSON text, with white space around it. */
  datatype Record = Record(lead: Bytes, text: Bytes, trail: Bytes)

  /** Tab, LF, form feed, CR and space. */
  predicate IsBlank(s: Bytes) {
    forall i :: 0 <= i < |s| ==> s[i] in [9, 10, 12, 13, 32]
  }

  predicate IsRecord(record: Record) {
    && IsBlank(record.lead) && IsBlank(record.trail) && 30 !in record.text
    && (record.text != [] ==> !IsBlank(record.text[..1]) && !IsBlank(record.text[|record.text| - 1..]))
  }

  predicate AreRecords(records: seq<Record>) {
    forall i :: 0 <= i < |records| ==> IsRecord(records[i])
  }

  function RecordText(record: Record): Bytes {
    record.lead + record.text + record.trail
  }

  /** Each record behind a separator, 0x1E (section 2 of RFC 7464). */
  function RecordsText(records: seq<Record>): Bytes {
    if records == [] then [] else [30] + RecordText(records[0]) + RecordsText(records[1..])
  }

  function TextsOf(records: seq<Record>): seq<Bytes> {
    if records == [] then [] else [records[0].text] + TextsOf(records[1..])
  }

  lemma {:induction false} BlankTrims(lead: Bytes, rest: Bytes)
    requires IsBlank(lead)
    ensures TrimStart(lead + rest) == TrimStart(rest)
  {
    if lead == [] {
      assert lead + rest == rest;
    } else {
      BlankTrims(lead[1..], rest);
      assert (lead + rest)[1..] == lead[1..] + rest;
      assert lead[0] in [9, 10, 12, 13, 32];
    }
  }

  lemma {:induction false} BlankTrimsEnd(rest: Bytes, trail: Bytes)
    requires IsBlank(trail)
    ensures TrimEnd(rest + trail) == TrimEnd(rest)
  {
    if trail == [] {
      assert rest + trail == rest;
    } else {
      var shorter := trail[..|trail| - 1];
      BlankTrimsEnd(rest, shorter);
      var whole := rest + trail;
      assert whole[..|whole| - 1] == rest + shorter;
      assert trail[|trail| - 1] in [9, 10, 12, 13, 32];
      assert whole[|whole| - 1] == trail[|trail| - 1];
    }
  }

  lemma RecordTrims(record: Record)
    requires IsRecord(record)
    ensures TrimAscii(RecordText(record)) == record.text
    ensures 30 !in RecordText(record)
  {
    var lead, text, trail := record.lead, record.text, record.trail;
    assert lead + text + trail == lead + (text + trail);
    BlankTrims(lead, text + trail);
    if text == [] {
      assert text + trail == trail && trail + [] == trail;
      BlankTrims(trail, []);
      assert TrimStart(trail) == [] && TrimEnd([]) == [];
    } else {
      assert text[..1][0] == text[0] && text[|text| - 1..][0] == text[|text| - 1];
      var rest := text + trail;
      assert rest[0] == text[0] && !IsAsciiWhitespace(text[0]);
      BlankTrimsEnd(text, trail);
      assert TrimEnd(text) == text;
    }
  }

  lemma {:induction false} RecordsSplit(records: seq<Record>)
    requires AreRecords(records)
    ensures SplitOn(RecordsText(records), RECORD_SEPARATOR) == [[]] + RecordTexts(records)
  {
    if records != [] {
      var text, rest := RecordText(records[0]), RecordsText(records[1..]);
      RecordTrims(records[0]);
      hide IsRecord, RecordText;
      RecordsSplit(records[1..]);
      var more := RecordTexts(records[1..]);
      SplitBefore(text, rest, more);
      assert RecordsText(records) == [RECORD_SEPARATOR] + (text + rest);
      assert ([RECORD_SEPARATOR] + (text + rest))[1..] == text + rest;
    }
  }

  function RecordTexts(records: seq<Record>): seq<Bytes> {
    if records == [] then [] else [RecordText(records[0])] + RecordTexts(records[1..])
  }

  lemma {:induction false} RecordsRead(records: seq<Record>)
    requires AreRecords(records)
    ensures RecordItems(RecordTexts(records)) == ItemsOf(TextsOf(records))
    ensures |RecordTexts(records)| == |TextsOf(records)| == |records|
    ensures AllButLast(RecordTexts(records)) == if records == [] then [] else RecordTexts(records[..|records| - 1])
  {
    if records != [] {
      RecordTrims(records[0]);
      RecordsRead(records[1..]);
      hide IsRecord, RecordText, TrimAscii;
      var more, texts := RecordTexts(records[1..]), TextsOf(records[1..]);
      assert ([RecordText(records[0])] + more)[1..] == more;
      assert ([records[0].text] + texts)[1..] == texts;
      if |records| > 1 {
        var front := records[..|records| - 1];
        assert front[1..] == records[1..][..|records| - 2] && front[0] == records[0];
        assert AllButLast([RecordText(records[0])] + more) == [RecordText(records[0])] + AllButLast(more);
      }
    }
  }

  /** What holds no separator joins the first part of what follows it, which is empty. */
  lemma {:induction false} SplitBefore(front: Bytes, rest: Bytes, more: seq<Bytes>)
    requires RECORD_SEPARATOR !in front && SplitOn(rest, RECORD_SEPARATOR) == [[]] + more
    ensures SplitOn(front + rest, RECORD_SEPARATOR) == [front] + more
  {
    if front == [] {
      assert front + rest == rest;
    } else {
      SplitBefore(front[1..], rest, more);
      assert (front + rest)[1..] == front[1..] + rest;
      assert [front[0]] + front[1..] == front;
    }
  }

  /**
   * JSON texts written as records come back as they are, white space, empty records and what precedes
   * the first separator aside; while the body goes on, those that another separator ends.
   */
  lemma WrittenRecordsFrame(junk: Bytes, records: seq<Record>)
    requires AreRecords(records) && 30 !in junk
    ensures BodyFrames(JsonSequence, junk + RecordsText(records), true) == ItemsOf(TextsOf(records))
    ensures records != [] ==>
              BodyFrames(JsonSequence, junk + RecordsText(records), false) == ItemsOf(TextsOf(records[..|records| - 1]))
    ensures records == [] ==> BodyFrames(JsonSequence, junk + RecordsText(records), false) == []
  {
    hide *;
    var body := junk + RecordsText(records);
    SequenceFrames(body, true);
    SequenceFrames(body, false);
    RecordsBehind(junk, records);
    RecordsRead(records);
    if records == [] {
      NoRecords();
    } else {
      FrontAreRecords(records);
      RecordsRead(records[..|records| - 1]);
    }
  }

  lemma SequenceFrames(body: Bytes, ended: bool)
    ensures var parts := SplitOn(body, RECORD_SEPARATOR)[1..];
            BodyFrames(JsonSequence, body, ended) == RecordItems(if ended then parts else AllButLast(parts))
  {
  }

  lemma NoRecords()
    ensures RecordItems([]) == []
  {
  }

  lemma FrontAreRecords(records: seq<Record>)
    requires AreRecords(records) && records != []
    ensures AreRecords(records[..|records| - 1])
  {
  }

  lemma RecordsBehind(junk: Bytes, records: seq<Record>)
    requires AreRecords(records) && 30 !in junk
    ensures SplitOn(junk + RecordsText(records), RECORD_SEPARATOR)[1..] == RecordTexts(records)
  {
    RecordsSplit(records);
    SplitBefore(junk, RecordsText(records), RecordTexts(records));
    hide RecordsText, RecordTexts, SplitOn, AreRecords;
    assert ([junk] + RecordTexts(records))[1..] == RecordTexts(records);
  }
}
