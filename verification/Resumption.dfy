/**
 * Framing resumed from the middle of a body: what a half-read buffer still has to frame, and the
 * steps by which lines and records leave it.
 */
module Resumption {
  import opened Sequences
  import opened Framing

  /** What a frame buffer holds: its bytes, where the unread lines start, and the fields read. */
  datatype Pending = Pending(bytes: Bytes, lineStart: nat, event: SseFields)

  predicate IsTerminator(b: Byte) {
    b == LF || b == CR
  }

  predicate NoTerminator(s: Bytes) {
    LF !in s && CR !in s
  }

  /** The frames of `groups` of lines, the first of which continues `fields`. */
  function ResumedEvents(fields: SseFields, groups: seq<seq<Bytes>>, mode: FramingMode): seq<FramePoll> {
    if groups == [] then []
    else Emits(FinishSseFields(ReadLines(fields, groups[0]), mode)) + EventFrames(groups[1..], mode)
  }

  /** The frames of an event stream of which `fields` has been read and `text` has not. */
  function ResumedSse(fields: SseFields, text: Bytes, mode: FramingMode, ended: bool): seq<FramePoll> {
    var groups := SplitOn(SseLines(text, ended), []);
    UpToDone(ResumedEvents(fields, if ended then groups else AllButLast(groups), mode))
  }

  /** The frames still to come out of a buffer that `rest` is appended to. */
  function FramesLeft(mode: FramingMode, p: Pending, rest: Bytes, ended: bool): seq<FramePoll>
    requires p.lineStart <= |p.bytes|
  {
    match mode
    case Ndjson => NdjsonFrames(p.bytes + rest, ended)
    case JsonSequence => JsonSequenceFrames(p.bytes + rest, ended)
    case _ => ResumedSse(p.event, p.bytes[p.lineStart..] + rest, mode, ended)
  }

  /** The item that a buffer leaves unfinished that `rest` is appended to. */
  function StillInProgress(mode: FramingMode, p: Pending, rest: Bytes): Bytes
    requires p.lineStart <= |p.bytes|
  {
    match mode
    case Ndjson => Behind(p.bytes + rest, LF)
    case JsonSequence => RecordInProgress(p.bytes + rest)
    case _ => EventInProgress(p.bytes[..p.lineStart], p.bytes[p.lineStart..] + rest)
  }

  /** Taking `poll` out of `p` leaves `q`, when `rest` is all that arrives later. */
  predicate FramesBefore(mode: FramingMode, p: Pending, poll: FramePoll, q: Pending, rest: Bytes, ended: bool)
    requires p.lineStart <= |p.bytes| && q.lineStart <= |q.bytes|
  {
    && FramesLeft(mode, p, rest, ended)
       == (if poll.Done? then [poll] else Emits(poll) + FramesLeft(mode, q, rest, ended))
    && (!ended ==> StillInProgress(mode, p, rest) == StillInProgress(mode, q, rest))
  }

  /**
   * Taking `poll` out of `p` leaves `q`, whatever arrives later: nothing is lost, repeated,
   * reordered or made up.
   */
  ghost predicate Frames(mode: FramingMode, p: Pending, poll: FramePoll, q: Pending, atEof: bool)
    requires p.lineStart <= |p.bytes| && q.lineStart <= |q.bytes|
  {
    forall rest, ended | atEof ==> rest == [] && ended :: FramesBefore(mode, p, poll, q, rest, ended)
  }

  lemma FreshSse(text: Bytes, mode: FramingMode, ended: bool)
    ensures ResumedSse(NO_FIELDS, text, mode, ended) == SseFrames(text, mode, ended)
  {
  }

  // ----- Line endings -----

  /** `ending` ends a line when `rest` is what follows it. */
  predicate EndsLine(ending: Bytes, rest: Bytes) {
    ending == [LF] || ending == [CR, LF] || (ending == [CR] && (rest == [] || rest[0] != LF))
  }

  lemma {:induction false} NormalizeLine(line: Bytes, ending: Bytes, rest: Bytes)
    requires NoTerminator(line) && EndsLine(ending, rest)
    ensures NormalizeNewlines(line + ending + rest) == line + [LF] + NormalizeNewlines(rest)
  {
    if line == [] {
      var text := ending + rest;
      assert line + ending + rest == text;
      assert ending == [LF] ==> text[1..] == rest;
      assert ending == [CR, LF] ==> text[2..] == rest;
      assert ending == [CR] ==> text[1..] == rest && (rest != [] ==> text[1] == rest[0]);
    } else {
      assert (line + ending + rest)[1..] == line[1..] + ending + rest;
      NormalizeLine(line[1..], ending, rest);
      assert [line[0]] + (line[1..] + [LF] + NormalizeNewlines(rest)) == line + [LF] + NormalizeNewlines(rest);
    }
  }

  lemma {:induction false} NormalizeNothing(line: Bytes)
    requires NoTerminator(line)
    ensures NormalizeNewlines(line) == line
  {
    if line != [] {
      NormalizeNothing(line[1..]);
      assert [line[0]] + line[1..] == line;
    }
  }

  lemma LinesStep(line: Bytes, ending: Bytes, rest: Bytes)
    requires NoTerminator(line) && EndsLine(ending, rest)
    ensures Lines(line + ending + rest) == [line] + Lines(rest)
  {
    NormalizeLine(line, ending, rest);
    SplitFirst(line, LF, NormalizeNewlines(rest));
  }

  lemma SseLinesStep(line: Bytes, ending: Bytes, rest: Bytes, ended: bool)
    requires NoTerminator(line) && EndsLine(ending, rest) && (ending == [CR] ==> rest != [])
    ensures SseLines(line + ending + rest, ended) == [line] + SseLines(rest, ended)
  {
    if ended {
      LinesStep(line, ending, rest);
    } else {
      var kept := DropHeldCr(rest);
      var text := line + ending + rest;
      assert rest != [] ==> text[|text| - 1] == rest[|rest| - 1];
      assert rest != [] ==> text[..|text| - 1] == line + ending + rest[..|rest| - 1];
      assert DropHeldCr(text) == line + ending + kept;
      LinesStep(line, ending, kept);
      assert AllButLast([line] + Lines(kept)) == [line] + AllButLast(Lines(kept));
    }
  }

  /** A non-blank line goes into the fields of the event in progress. */
  lemma LineStep(fields: SseFields, line: Bytes, ending: Bytes, rest: Bytes, mode: FramingMode, ended: bool)
    requires NoTerminator(line) && EndsLine(ending, rest) && (ending == [CR] ==> rest != []) && line != []
    ensures ResumedSse(fields, line + ending + rest, mode, ended)
         == ResumedSse(AppendSseField(line, fields), rest, mode, ended)
  {
    SseLinesStep(line, ending, rest, ended);
    var lines := SseLines(rest, ended);
    var groups := SplitOn(lines, []);
    assert ([line] + lines)[1..] == lines;
    var longer := [[line] + groups[0]] + groups[1..];
    assert SplitOn([line] + lines, []) == longer;
    assert ([line] + groups[0])[1..] == groups[0];
    assert longer[1..] == groups[1..];
    if !ended && |groups| > 1 {
      assert AllButLast(longer)[1..] == AllButLast(groups)[1..];
    }
  }

  /** A blank line dispatches the event in progress. */
  lemma BlankStep(fields: SseFields, ending: Bytes, rest: Bytes, mode: FramingMode, ended: bool)
    requires EndsLine(ending, rest) && (ending == [CR] ==> rest != [])
    ensures var poll := FinishSseFields(fields, mode);
            ResumedSse(fields, ending + rest, mode, ended)
            == if poll.Done? then [poll] else Emits(poll) + ResumedSse(NO_FIELDS, rest, mode, ended)
  {
    hide FinishSseFields;
    hide ResumedEvents;
    hide UpToDone;
    hide SseLines;
    hide SplitOn;
    SseLinesStep([], ending, rest, ended);
    assert [] + ending + rest == ending + rest;
    var lines := SseLines(rest, ended);
    BlankGroup(lines);
    var groups := SplitOn(lines, []);
    BlankEvents(fields, if ended then groups else AllButLast(groups), mode);
    assert AllButLast([[]] + groups) == [[]] + AllButLast(groups);
  }

  lemma BlankGroup(lines: seq<Bytes>)
    ensures SplitOn([[]] + lines, []) == [[]] + SplitOn(lines, [])
  {
    assert ([[]] + lines)[1..] == lines;
  }

  lemma BlankEvents(fields: SseFields, groups: seq<seq<Bytes>>, mode: FramingMode)
    ensures var poll := FinishSseFields(fields, mode);
            UpToDone(ResumedEvents(fields, [[]] + groups, mode))
            == if poll.Done? then [poll] else Emits(poll) + UpToDone(ResumedEvents(NO_FIELDS, groups, mode))
  {
    hide FinishSseFields;
    assert ([[]] + groups)[1..] == groups;
    var poll, after := FinishSseFields(fields, mode), EventFrames(groups, mode);
    assert ReadLines(fields, []) == fields;
    assert ResumedEvents(fields, [[]] + groups, mode) == Emits(poll) + after;
    assert ResumedEvents(NO_FIELDS, groups, mode) == after;
    assert [] + after == after && [] + UpToDone(after) == UpToDone(after);
    assert ([poll] + after)[1..] == after;
  }

  lemma LastLine(fields: SseFields, line: Bytes, lines: seq<Bytes>, mode: FramingMode)
    requires lines == [line] || lines == [line, []]
    ensures var groups := SplitOn(lines, []);
            ResumedEvents(fields, groups, mode) == Emits(FinishSseFields(AppendSseField(line, fields), mode))
  {
    var none: seq<Bytes> := [];
    var blank: seq<Bytes> := [[]];
    assert SplitOn(none, []) == [[]];
    assert blank[1..] == none;
    assert SplitOn(blank, []) == [[], []];
    assert lines[1..] == none || lines[1..] == blank;
    var tail := SplitOn(lines[1..], []);
    var empty: seq<seq<Bytes>> := [];
    assert EventFrames(empty, mode) == [];
    assert [none][1..] == empty;
    assert EventFrames([none], mode) == [];
    assert [none, none][1..] == [none];
    assert EventFrames([none, none], mode) == [];
    assert AppendSseField([], fields) == fields;
    if line == [] {
      assert SplitOn(lines, []) == [[]] + tail;
      assert ([[]] + tail)[1..] == tail;
    } else {
      assert SplitOn(lines, []) == [[line] + tail[0]] + tail[1..];
      assert [line] + tail[0] == [line];
      assert [line][1..] == none;
      assert ReadLines(fields, [line]) == AppendSseField(line, fields);
      assert ([[line]] + tail[1..])[1..] == tail[1..];
      assert tail[1..] == empty || tail[1..] == [none];
    }
  }

  /** The tail of an ended body is one more line, and dispatches its event. */
  lemma TailStep(fields: SseFields, text: Bytes, mode: FramingMode)
    requires NoTerminator(TrimCr(text))
    ensures ResumedSse(fields, text, mode, true)
         == Emits(FinishSseFields(AppendSseField(TrimCr(text), fields), mode))
  {
    var line := TrimCr(text);
    if line == text {
      NormalizeNothing(text);
      SplitNone(text, LF);
      assert Lines(text) == [line];
    } else {
      assert text == line + [CR] + [];
      LinesStep(line, [CR], []);
      assert Lines([]) == [[]];
      assert Lines(text) == [line, []];
    }
    LastLine(fields, line, Lines(text), mode);
    var poll := FinishSseFields(AppendSseField(line, fields), mode);
    assert [poll][1..] == [];
    assert UpToDone(Emits(poll)) == Emits(poll);
  }

  /** Lines whose ending has not arrived frame nothing. */
  lemma QuietSse(fields: SseFields, text: Bytes, mode: FramingMode)
    requires NoTerminator(TrimCr(text))
    ensures ResumedSse(fields, text, mode, false) == []
  {
    NormalizeNothing(TrimCr(text));
    SplitNone(TrimCr(text), LF);
    var none: seq<Bytes> := [];
    assert SseLines(text, false) == none;
    assert SplitOn(none, []) == [[]];
  }

  // ----- Newline-delimited JSON and JSON text sequences -----

  lemma NdjsonStep(line: Bytes, rest: Bytes, ended: bool)
    requires LF !in line
    ensures NdjsonFrames(line + [LF] + rest, ended) == FrameItem(TrimCr(line)) + NdjsonFrames(rest, ended)
  {
    SplitFirst(line, LF, rest);
    var lines := SplitOn(rest, LF);
    assert ([line] + lines)[1..] == lines;
    assert AllButLast([line] + lines) == [line] + AllButLast(lines);
    assert ([line] + AllButLast(lines))[1..] == AllButLast(lines);
  }

  lemma NdjsonTail(text: Bytes, ended: bool)
    requires LF !in text
    ensures NdjsonFrames(text, ended) == if ended then FrameItem(TrimCr(text)) else []
  {
    SplitNone(text, LF);
    assert [text][1..] == [];
    assert LineItems([]) == [];
    assert FrameItem(TrimCr(text)) + [] == FrameItem(TrimCr(text));
  }

  lemma JunkStep(junk: Bytes, text: Bytes, ended: bool)
    requires RECORD_SEPARATOR !in junk && text != [] && text[0] == RECORD_SEPARATOR
    ensures JsonSequenceFrames(junk + text, ended) == JsonSequenceFrames(text, ended)
  {
    SplitFirst(junk, RECORD_SEPARATOR, text[1..]);
    SplitFirst([], RECORD_SEPARATOR, text[1..]);
    assert junk + text == junk + [RECORD_SEPARATOR] + text[1..];
    assert text == [] + [RECORD_SEPARATOR] + text[1..];
    var records := SplitOn(text[1..], RECORD_SEPARATOR);
    assert ([junk] + records)[1..] == records == ([[]] + records)[1..];
  }

  lemma RecordStep(record: Bytes, text: Bytes, ended: bool)
    requires RECORD_SEPARATOR !in record && text != [] && text[0] == RECORD_SEPARATOR
    ensures JsonSequenceFrames([RECORD_SEPARATOR] + record + text, ended)
         == FrameItem(TrimAscii(record)) + JsonSequenceFrames(text, ended)
  {
    var rest := record + text;
    SplitFirst([], RECORD_SEPARATOR, rest);
    assert [] + [RECORD_SEPARATOR] + rest == [RECORD_SEPARATOR] + record + text;
    SplitFirst(record, RECORD_SEPARATOR, text[1..]);
    assert rest == record + [RECORD_SEPARATOR] + text[1..];
    var records := SplitOn(text[1..], RECORD_SEPARATOR);
    SplitFirst([], RECORD_SEPARATOR, text[1..]);
    assert text == [] + [RECORD_SEPARATOR] + text[1..];
    assert ([[]] + ([record] + records))[1..] == [record] + records;
    assert ([[]] + records)[1..] == records;
    assert ([record] + records)[1..] == records;
    assert AllButLast([record] + records) == [record] + AllButLast(records);
    assert ([record] + AllButLast(records))[1..] == AllButLast(records);
  }

  lemma RecordTail(record: Bytes, ended: bool)
    requires RECORD_SEPARATOR !in record
    ensures JsonSequenceFrames([RECORD_SEPARATOR] + record, ended)
         == if ended then FrameItem(TrimAscii(record)) else []
  {
    SplitFirst([], RECORD_SEPARATOR, record);
    assert [] + [RECORD_SEPARATOR] + record == [RECORD_SEPARATOR] + record;
    SplitNone(record, RECORD_SEPARATOR);
    assert ([[]] + [record])[1..] == [record];
    assert [record][1..] == [];
    assert RecordItems([]) == [];
    assert FrameItem(TrimAscii(record)) + [] == FrameItem(TrimAscii(record));
  }

  lemma JunkTail(junk: Bytes, ended: bool)
    requires RECORD_SEPARATOR !in junk
    ensures JsonSequenceFrames(junk, ended) == []
  {
    SplitNone(junk, RECORD_SEPARATOR);
    assert [junk][1..] == [];
  }

  // ----- The item in progress -----

  lemma {:induction false} BehindDelimiter<T>(a: seq<T>, d: T, b: seq<T>)
    ensures Behind(a + [d] + b, d) == Behind(b, d)
  {
    var s := a + [d] + b;
    if a == [] {
      assert s[1..] == b;
      if d !in b {
        BehindNothing(b, d);
      }
    } else {
      assert s[1..] == a[1..] + [d] + b;
      assert d in s[1..];
      BehindDelimiter(a[1..], d, b);
    }
  }

  lemma BehindNothing<T>(s: seq<T>, d: T)
    requires d !in s
    ensures Behind(s, d) == s
  {
  }

  lemma RecordBehind(junk: Bytes, rest: Bytes)
    ensures RecordInProgress(junk + [RECORD_SEPARATOR] + rest) == RecordInProgress([RECORD_SEPARATOR] + rest)
  {
    BehindDelimiter(junk, RECORD_SEPARATOR, rest);
    BehindDelimiter([], RECORD_SEPARATOR, rest);
    assert [] + [RECORD_SEPARATOR] + rest == [RECORD_SEPARATOR] + rest;
  }

  lemma {:induction false} FirstLineIs(line: Bytes, ending: Bytes, rest: Bytes)
    requires NoTerminator(line) && EndsLine(ending, rest) && (ending == [CR] ==> rest != [])
    ensures FirstLine(line + ending + rest) == Some((|line|, |line| + |ending|))
  {
    var text := line + ending + rest;
    if line == [] {
      assert text == ending + rest;
    } else {
      assert text[1..] == line[1..] + ending + rest;
      FirstLineIs(line[1..], ending, rest);
    }
  }

  lemma {:induction false} NoFirstLine(text: Bytes)
    requires NoTerminator(TrimCr(text))
    ensures FirstLine(text) == None
  {
    if text != [] {
      assert |text| > 1 ==> text[0] == TrimCr(text)[0] && TrimCr(text[1..]) == TrimCr(text)[1..];
      if |text| > 1 {
        NoFirstLine(text[1..]);
      }
    }
  }

  /** A line goes over to the event in progress, and a blank one ends it. */
  lemma LineInProgress(read: Bytes, line: Bytes, ending: Bytes, rest: Bytes)
    requires NoTerminator(line) && EndsLine(ending, rest) && (ending == [CR] ==> rest != [])
    ensures EventInProgress(read, line + ending + rest)
         == if line == [] then EventInProgress([], rest) else EventInProgress(read + (line + ending), rest)
  {
    FirstLineIs(line, ending, rest);
    var text := line + ending + rest;
    assert text[..|line| + |ending|] == line + ending && text[|line| + |ending|..] == rest;
  }

  // ----- The same steps, on what a buffer holds -----

  const NOTHING := Pending([], 0, NO_FIELDS)

  lemma FramesNothing(mode: FramingMode, p: Pending, atEof: bool)
    requires p.lineStart <= |p.bytes|
    ensures Frames(mode, p, NeedMore, p, atEof)
  {
    forall rest, ended
      ensures FramesBefore(mode, p, NeedMore, p, rest, ended)
    {
      assert FramesLeft(mode, p, rest, ended) == Emits(NeedMore) + FramesLeft(mode, p, rest, ended);
    }
  }

  lemma FramesAfterNothing(mode: FramingMode, p: Pending, q: Pending, poll: FramePoll, r: Pending, atEof: bool)
    requires p.lineStart <= |p.bytes| && q.lineStart <= |q.bytes| && r.lineStart <= |r.bytes|
    requires Frames(mode, p, NeedMore, q, atEof) && Frames(mode, q, poll, r, atEof)
    ensures Frames(mode, p, poll, r, atEof)
  {
    hide FramesLeft;
    forall rest, ended | atEof ==> rest == [] && ended
      ensures FramesBefore(mode, p, poll, r, rest, ended)
    {
      assert FramesBefore(mode, p, NeedMore, q, rest, ended);
      assert FramesBefore(mode, q, poll, r, rest, ended);
    }
  }

  /** `bytes[lineStart..end]` is a line whose ending is `bytes[end..next]`, known to be complete. */
  predicate LineAt(bytes: Bytes, lineStart: nat, end: nat, next: nat)
    requires lineStart <= end < next <= |bytes|
  {
    && NoTerminator(bytes[lineStart..end])
    && EndsLine(bytes[end..next], bytes[next..])
    && (bytes[end..next] == [CR] ==> next < |bytes|)
  }

  lemma LineCut(bytes: Bytes, lineStart: nat, end: nat, next: nat, rest: Bytes)
    requires lineStart <= end <= next <= |bytes|
    ensures var line, ending := bytes[lineStart..end], bytes[end..next];
            && bytes[lineStart..] + rest == line + ending + (bytes[next..] + rest)
            && bytes[..lineStart] + (line + ending) == bytes[..next]
  {
  }

  lemma LineTaken(mode: FramingMode, p: Pending, end: nat, next: nat, atEof: bool)
    requires IsSse(mode) && p.lineStart < end < next <= |p.bytes| && LineAt(p.bytes, p.lineStart, end, next)
    ensures Frames(mode, p, NeedMore, p.(lineStart := next, event := AppendSseField(p.bytes[p.lineStart..end], p.event)), atEof)
  {
    hide EventInProgress, ResumedSse, AppendSseField;
    var line, ending := p.bytes[p.lineStart..end], p.bytes[end..next];
    var q := p.(lineStart := next, event := AppendSseField(line, p.event));
    forall rest, ended
      ensures FramesBefore(mode, p, NeedMore, q, rest, ended)
    {
      var after := p.bytes[next..] + rest;
      LineCut(p.bytes, p.lineStart, end, next, rest);
      LineStep(p.event, line, ending, after, mode, ended);
      LineInProgress(p.bytes[..p.lineStart], line, ending, after);
    }
  }

  lemma BlankTaken(mode: FramingMode, p: Pending, next: nat, atEof: bool)
    requires IsSse(mode) && p.lineStart < next <= |p.bytes| && LineAt(p.bytes, p.lineStart, p.lineStart, next)
    ensures Frames(mode, p, FinishSseFields(p.event, mode), Pending(p.bytes[next..], 0, NO_FIELDS), atEof)
  {
    hide EventInProgress, ResumedSse, FinishSseFields;
    var ending := p.bytes[p.lineStart..next];
    var q := Pending(p.bytes[next..], 0, NO_FIELDS);
    forall rest, ended
      ensures FramesBefore(mode, p, FinishSseFields(p.event, mode), q, rest, ended)
    {
      var after := p.bytes[next..] + rest;
      LineCut(p.bytes, p.lineStart, p.lineStart, next, rest);
      assert q.bytes[0..] == q.bytes && q.bytes[..0] == [];
      BlankStep(p.event, ending, after, mode, ended);
      LineInProgress(p.bytes[..p.lineStart], [], ending, after);
      assert p.bytes[p.lineStart..p.lineStart] + ending + after == ending + after;
    }
  }

  lemma TailTaken(mode: FramingMode, p: Pending)
    requires IsSse(mode) && p.lineStart <= |p.bytes| && NoTerminator(TrimCr(p.bytes[p.lineStart..]))
    ensures Frames(mode, p, FinishSseFields(AppendSseField(TrimCr(p.bytes[p.lineStart..]), p.event), mode), NOTHING, true)
  {
    var text := p.bytes[p.lineStart..];
    assert text + [] == text;
    TailStep(p.event, text, mode);
    TailStep(NO_FIELDS, [], mode);
    assert AppendSseField([], NO_FIELDS) == NO_FIELDS;
    assert NOTHING.bytes[0..] + [] == [];
  }

  lemma NdjsonTaken(p: Pending, nl: nat, atEof: bool)
    requires p.lineStart == 0 && nl < |p.bytes| && p.bytes[nl] == LF && LF !in p.bytes[..nl]
    ensures var line := TrimCr(p.bytes[..nl]);
            Frames(Ndjson, p, if line == [] then NeedMore else Item(Raw(line), NO_METADATA),
                   Pending(p.bytes[nl + 1..], 0, p.event), atEof)
  {
    var line := TrimCr(p.bytes[..nl]);
    var poll := if line == [] then NeedMore else Item(Raw(line), NO_METADATA);
    var q := Pending(p.bytes[nl + 1..], 0, p.event);
    forall rest, ended
      ensures FramesBefore(Ndjson, p, poll, q, rest, ended)
    {
      assert p.bytes + rest == p.bytes[..nl] + [LF] + (p.bytes[nl + 1..] + rest);
      NdjsonStep(p.bytes[..nl], p.bytes[nl + 1..] + rest, ended);
      BehindDelimiter(p.bytes[..nl], LF, p.bytes[nl + 1..] + rest);
    }
  }

  lemma NdjsonTailTaken(p: Pending)
    requires p.lineStart == 0 && LF !in p.bytes
    ensures var line := TrimCr(p.bytes);
            Frames(Ndjson, p, if line == [] then NeedMore else Item(Raw(line), NO_METADATA), NOTHING, true)
  {
    assert p.bytes + [] == p.bytes;
    NdjsonTail(p.bytes, true);
    NdjsonTail([], true);
  }

  /** What precedes a separator is not in progress. */
  lemma OpensWithSeparator(bytes: Bytes, at: nat, rest: Bytes)
    requires at < |bytes| && bytes[at] == RECORD_SEPARATOR
    ensures RecordInProgress(bytes + rest) == RecordInProgress(bytes[at..] + rest)
  {
    var behind := bytes[at + 1..] + rest;
    assert bytes + rest == bytes[..at] + [RECORD_SEPARATOR] + behind;
    assert bytes[at..] + rest == [RECORD_SEPARATOR] + behind;
    RecordBehind(bytes[..at], behind);
  }

  lemma JunkTaken(p: Pending, first: nat, atEof: bool)
    requires p.lineStart == 0 && first < |p.bytes| && p.bytes[first] == RECORD_SEPARATOR
    requires RECORD_SEPARATOR !in p.bytes[..first]
    ensures Frames(JsonSequence, p, NeedMore, Pending(p.bytes[first..], 0, p.event), atEof)
  {
    forall rest, ended
      ensures FramesBefore(JsonSequence, p, NeedMore, Pending(p.bytes[first..], 0, p.event), rest, ended)
    {
      assert p.bytes + rest == p.bytes[..first] + (p.bytes[first..] + rest);
      JunkStep(p.bytes[..first], p.bytes[first..] + rest, ended);
      OpensWithSeparator(p.bytes, first, rest);
    }
  }

  lemma RecordTaken(p: Pending, end: nat, atEof: bool)
    requires p.lineStart == 0 && 0 < end <= |p.bytes| && p.bytes[0] == RECORD_SEPARATOR
    requires RECORD_SEPARATOR !in p.bytes[1..end]
    requires if end < |p.bytes| then p.bytes[end] == RECORD_SEPARATOR else atEof
    ensures var record := TrimAscii(p.bytes[1..end]);
            Frames(JsonSequence, p, if record == [] then NeedMore else Item(Raw(record), NO_METADATA),
                   Pending(p.bytes[end..], 0, p.event), atEof)
  {
    hide RecordInProgress, JsonSequenceFrames;
    var record := TrimAscii(p.bytes[1..end]);
    var poll := if record == [] then NeedMore else Item(Raw(record), NO_METADATA);
    hide TrimAscii;
    forall rest, ended | atEof ==> rest == [] && ended
      ensures FramesBefore(JsonSequence, p, poll, Pending(p.bytes[end..], 0, p.event), rest, ended)
    {
      if end < |p.bytes| {
        assert p.bytes + rest == [RECORD_SEPARATOR] + p.bytes[1..end] + (p.bytes[end..] + rest);
        RecordStep(p.bytes[1..end], p.bytes[end..] + rest, ended);
        OpensWithSeparator(p.bytes, end, rest);
      } else {
        assert p.bytes + rest == [RECORD_SEPARATOR] + p.bytes[1..end];
        assert p.bytes[end..] + rest == [];
        RecordTail(p.bytes[1..end], true);
        JunkTail([], true);
      }
    }
  }

  lemma JunkTailTaken(p: Pending)
    requires p.lineStart == 0 && RECORD_SEPARATOR !in p.bytes
    ensures Frames(JsonSequence, p, NeedMore, NOTHING, true)
  {
    assert p.bytes + [] == p.bytes;
    JunkTail(p.bytes, true);
    JunkTail([], true);
  }

  /** No item in `p` is complete yet. */
  predicate Quiet(mode: FramingMode, p: Pending)
    requires p.lineStart <= |p.bytes|
  {
    match mode
    case Ndjson => LF !in p.bytes
    case JsonSequence =>
      if p.bytes != [] && p.bytes[0] == RECORD_SEPARATOR then RECORD_SEPARATOR !in p.bytes[1..]
      else RECORD_SEPARATOR !in p.bytes
    case _ => NoTerminator(TrimCr(p.bytes[p.lineStart..]))
  }

  /** What is quiet holds the item in progress, and nothing else. */
  lemma QuietIsInProgress(mode: FramingMode, p: Pending)
    requires p.lineStart <= |p.bytes| && (!IsSse(mode) ==> p.lineStart == 0) && Quiet(mode, p)
    ensures StillInProgress(mode, p, []) == p.bytes
  {
    assert p.bytes + [] == p.bytes;
    match mode
    case Ndjson => BehindNothing(p.bytes, LF);
    case JsonSequence =>
      if RECORD_SEPARATOR in p.bytes {
        BehindDelimiter([], RECORD_SEPARATOR, p.bytes[1..]);
        assert [] + [RECORD_SEPARATOR] + p.bytes[1..] == p.bytes;
        BehindNothing(p.bytes[1..], RECORD_SEPARATOR);
      }
    case _ =>
      var text := p.bytes[p.lineStart..];
      assert text + [] == text && p.bytes[..p.lineStart] + text == p.bytes;
      NoFirstLine(text);
  }

  /** What is quiet frames nothing until more arrives. */
  lemma QuietFramesNothing(mode: FramingMode, p: Pending)
    requires p.lineStart <= |p.bytes| && (!IsSse(mode) ==> p.lineStart == 0) && Quiet(mode, p)
    ensures FramesLeft(mode, p, [], false) == []
  {
    assert p.bytes + [] == p.bytes;
    match mode
    case Ndjson => NdjsonTail(p.bytes, false);
    case JsonSequence =>
      if p.bytes != [] && p.bytes[0] == RECORD_SEPARATOR {
        RecordTail(p.bytes[1..], false);
        assert p.bytes == [RECORD_SEPARATOR] + p.bytes[1..];
      } else {
        JunkTail(p.bytes, false);
      }
    case _ =>
      assert p.bytes[p.lineStart..] + [] == p.bytes[p.lineStart..];
      QuietSse(p.event, p.bytes[p.lineStart..], mode);
  }

  /** An ended body that left nothing behind frames nothing more. */
  lemma NothingFramesNothing(mode: FramingMode)
    ensures FramesLeft(mode, NOTHING, [], true) == []
  {
    match mode
    case Ndjson => NdjsonTail([], true);
    case JsonSequence => JunkTail([], true);
    case _ =>
      TailStep(NO_FIELDS, [], mode);
      assert AppendSseField([], NO_FIELDS) == NO_FIELDS;
      assert NOTHING.bytes[0..] + [] == [];
  }
}
