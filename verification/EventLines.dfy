/**
 * The lines of an event stream, every form of them, and what the lines of one event say (section 9.2.6
 * of the HTML standard), against the field-by-field reader of support-runtime/src/stream.rs.
 */
module EventLines {
  import opened Sequences
  import opened Framing
  import opened Resumption

  /** A line that is not blank: a comment, a field with a colon, one space behind it or none, or a bare field name. */
  datatype EventLine =
    | Comment(text: Bytes)
    | Field(name: Bytes, spaced: bool, value: Bytes)
    | Bare(name: Bytes)

  predicate IsName(name: Bytes) {
    name != [] && NoTerminator(name) && 58 !in name
  }

  /** A value that opens with a space has one more before it: the first is not part of it. */
  predicate IsEventLine(line: EventLine) {
    match line
    case Comment(text) => NoTerminator(text)
    case Field(name, spaced, value) => IsName(name) && NoTerminator(value) && (spaced || !([32] <= value))
    case Bare(name) => IsName(name)
  }

  predicate AreEventLines(lines: seq<EventLine>) {
    forall i :: 0 <= i < |lines| ==> IsEventLine(lines[i])
  }

  function LineText(line: EventLine): Bytes {
    match line
    case Comment(text) => [58] + text
    case Field(name, spaced, value) => name + (if spaced then [58, 32] else [58]) + value
    case Bare(name) => name
  }

  function LineTexts(lines: seq<EventLine>): seq<Bytes> {
    if lines == [] then [] else [LineText(lines[0])] + LineTexts(lines[1..])
  }

  // ----- What the lines of one event say -----

  predicate Names(line: EventLine, name: string) {
    !line.Comment? && line.name == Ascii(name)
  }

  /** A name without a colon has the empty value. */
  function ValueOf(line: EventLine): Bytes {
    if line.Field? then line.value else []
  }

  /** The values of the data lines, in order. */
  function DataOf(lines: seq<EventLine>): seq<Bytes> {
    if lines == [] then []
    else (if Names(lines[0], "data") then [ValueOf(lines[0])] else []) + DataOf(lines[1..])
  }

  function EventOf(lines: seq<EventLine>): Option<Bytes> {
    if lines == [] then None
    else
      var last := lines[|lines| - 1];
      if Names(last, "event") then Some(ValueOf(last)) else EventOf(lines[..|lines| - 1])
  }

  /** The last id that holds no NUL. */
  function LastIdOf(lines: seq<EventLine>): Option<Bytes> {
    if lines == [] then None
    else
      var last := lines[|lines| - 1];
      if Names(last, "id") && 0 !in ValueOf(last) then Some(ValueOf(last)) else LastIdOf(lines[..|lines| - 1])
  }

  predicate AreDigits(text: Bytes) {
    forall i :: 0 <= i < |text| ==> 48 <= text[i] <= 57
  }

  predicate IsNumber(text: Bytes) {
    text != [] && AreDigits(text)
  }

  function TenTo(n: nat): nat {
    if n == 0 then 1 else 10 * TenTo(n - 1)
  }

  /** The number that digits spell, each worth its place. */
  function Worth(text: Bytes): nat
    requires AreDigits(text)
  {
    if text == [] then 0
    else
      var digit: nat := text[0] - 48;
      digit * TenTo(|text| - 1) + Worth(text[1..])
  }

  /** The last retry that is a number, unless that takes more than 64 bits: then there is none. */
  function RetryOf(lines: seq<EventLine>): Option<nat> {
    if lines == [] then None
    else
      var last := lines[|lines| - 1];
      if Names(last, "retry") && IsNumber(ValueOf(last)) then
        if Worth(ValueOf(last)) < 0x1_0000_0000_0000_0000 then Some(Worth(ValueOf(last))) else None
      else RetryOf(lines[..|lines| - 1])
  }

  // ----- Any line is one of these -----

  /** Every line that is not blank is written in one of the three forms. */
  lemma EveryLineIsOne(text: Bytes) returns (line: EventLine)
    requires text != [] && NoTerminator(text)
    ensures IsEventLine(line) && LineText(line) == text
  {
    var colon := FindFrom(text, 0, COLON);
    if colon.None? {
      assert text[0..] == text;
      return Bare(text);
    }
    var at := colon.value;
    assert text[0..at] == text[..at];
    if at == 0 {
      assert text == [COLON] + text[1..];
      return Comment(text[1..]);
    }
    var after := text[at + 1..];
    assert text == text[..at] + [COLON] + after;
    if after != [] && after[0] == SPACE {
      assert after == [SPACE] + after[1..];
      assert text == text[..at] + [COLON, SPACE] + after[1..];
      return Field(text[..at], true, after[1..]);
    }
    line := Field(text[..at], false, after);
  }

  lemma DataName()
    ensures DATA == Ascii("data")
  {
    assert "data"[1..] == "ata" && "ata"[1..] == "ta" && "ta"[1..] == "a" && "a"[1..] == "";
  }

  lemma EventName()
    ensures EVENT == Ascii("event")
  {
    assert "event"[1..] == "vent" && "vent"[1..] == "ent" && "ent"[1..] == "nt" && "nt"[1..] == "t" && "t"[1..] == "";
  }

  lemma IdName()
    ensures ID == Ascii("id")
  {
    assert "id"[1..] == "d" && "d"[1..] == "";
  }

  lemma RetryName()
    ensures RETRY == Ascii("retry")
  {
    assert "retry"[1..] == "etry" && "etry"[1..] == "try" && "try"[1..] == "ry" && "ry"[1..] == "y" && "y"[1..] == "";
  }

  lemma FieldNames()
    ensures DATA == Ascii("data") && EVENT == Ascii("event") && ID == Ascii("id") && RETRY == Ascii("retry")
  {
    hide *;
    DataName();
    EventName();
    IdName();
    RetryName();
  }

  lemma FieldNamesDiffer()
    ensures DATA != EVENT && DATA != ID && DATA != RETRY && EVENT != ID && EVENT != RETRY && ID != RETRY
  {
    assert DATA[0] == 100 && EVENT[0] == 101 && ID[0] == 105 && RETRY[0] == 114;
  }

  // ----- Reading one line -----

  lemma FirstColon(line: Bytes, at: nat)
    requires at < |line| && line[at] == COLON && COLON !in line[..at]
    ensures FindFrom(line, 0, COLON) == Some(at)
  {
    var found := FindFrom(line, 0, COLON);
    assert line[0..][at] == COLON;
    assert forall i :: 0 <= i < at ==> line[i] == line[..at][i];
    assert found.Some? ==> forall i :: 0 <= i < found.value ==> line[i] == line[0..found.value][i];
  }

  /** The two sides of a line's colon, as the reader takes them. */
  lemma LineSplits(line: EventLine)
    requires IsEventLine(line)
    ensures var text := LineText(line);
            var colon := FindFrom(text, 0, COLON);
            match line
            case Comment(_) => colon == Some(0)
            case Bare(name) => colon == None && text == name
            case Field(name, spaced, value) =>
              && colon == Some(|name|) && name != [] && text[..|name|] == name
              && text[|name| + 1..] == (if spaced then [SPACE] else []) + value
  {
    var text := LineText(line);
    match line
    case Comment(rest) => FirstColon(text, 0);
    case Bare(name) => assert text[0..] == text;
    case Field(name, spaced, value) =>
      assert text[..|name|] == name;
      FirstColon(text, |name|);
  }

  /** What one line sets, whatever was set before. */
  function Set(line: EventLine, fields: SseFields): SseFields {
    var value := ValueOf(line);
    if Names(line, "data") then fields.(data := fields.data + value + [LF])
    else if Names(line, "event") then fields.(event := Some(value))
    else if Names(line, "id") then (if 0 in value then fields else fields.(id := Some(value)))
    else if Names(line, "retry") then (if IsNumber(value) then fields.(retry := NumberOf(value)) else fields)
    else fields
  }

  function NumberOf(value: Bytes): Option<nat>
    requires IsNumber(value)
  {
    WorthIsValue(value);
    if Worth(value) < 0x1_0000_0000_0000_0000 then Some(Worth(value)) else None
  }

  lemma {:induction false} WorthIsValue(text: Bytes)
    requires AllDigits(text)
    ensures Worth(text) == DecimalValue(text)
  {
    if text != [] {
      WorthIsValue(text[1..]);
      ValueFromLeft(text);
    }
  }

  lemma {:induction false} ValueFromLeft(text: Bytes)
    requires AllDigits(text) && text != []
    ensures DecimalValue(text) == (text[0] - 48) * TenTo(|text| - 1) + DecimalValue(text[1..])
  {
    var front, last := text[..|text| - 1], text[|text| - 1] - 48;
    if |text| == 1 {
      assert text[1..] == [] && front == [] && DecimalValue(front) == 0;
    } else {
      ValueFromLeft(front);
      var tail := text[1..];
      assert tail[..|tail| - 1] == front[1..] && tail[|tail| - 1] == text[|text| - 1];
      TenTimes(text[0] - 48, TenTo(|front| - 1), DecimalValue(front[1..]));
    }
  }

  lemma TenTimes(digit: int, power: nat, rest: nat)
    ensures 10 * (digit * power + rest) == digit * (10 * power) + 10 * rest
  {
  }

  /** The name and the value that the reader takes of a line. */
  lemma FieldReads(text: Bytes, colon: Option<nat>, name: Bytes, value: Bytes, fields: SseFields)
    requires FindFrom(text, 0, COLON) == colon && colon != Some(0)
    requires colon.None? ==> text == name && value == []
    requires colon.Some? ==> text[..colon.value] == name
    requires colon.Some? ==> text[colon.value + 1..] == [SPACE] + value || (text[colon.value + 1..] == value && !([SPACE] <= value))
    ensures name == DATA ==> AppendSseField(text, fields) == fields.(data := fields.data + value + [LF])
    ensures name == EVENT ==> AppendSseField(text, fields) == fields.(event := Some(value))
    ensures name == ID ==> AppendSseField(text, fields) == if 0 in value then fields else fields.(id := Some(value))
    ensures name == RETRY ==>
              AppendSseField(text, fields) == if value != [] && AllDigits(value)
                                              then fields.(retry := if DecimalValue(value) < U64_LIMIT then Some(DecimalValue(value)) else None)
                                              else fields
    ensures name != DATA && name != EVENT && name != ID && name != RETRY ==> AppendSseField(text, fields) == fields
  {
    FieldNamesDiffer();
    hide FindFrom, DecimalValue, AllDigits;
    assert ([SPACE] + value)[1..] == value;
  }

  /** What a field of some name sets. */
  function SetBy(name: Bytes, value: Bytes, fields: SseFields): SseFields {
    if name == DATA then fields.(data := fields.data + value + [LF])
    else if name == EVENT then fields.(event := Some(value))
    else if name == ID then (if 0 in value then fields else fields.(id := Some(value)))
    else if name == RETRY then (if IsNumber(value) then fields.(retry := NumberOf(value)) else fields)
    else fields
  }

  lemma SetByName(line: EventLine, fields: SseFields)
    ensures Set(line, fields) == if line.Comment? then fields else SetBy(line.name, ValueOf(line), fields)
  {
    FieldNames();
    hide Ascii, ValueOf, NumberOf, IsNumber;
  }

  lemma NumberReads(value: Bytes)
    ensures IsNumber(value) <==> value != [] && AllDigits(value)
    ensures IsNumber(value) ==> NumberOf(value) == if DecimalValue(value) < U64_LIMIT then Some(DecimalValue(value)) else None
  {
    if IsNumber(value) {
      WorthIsValue(value);
    }
  }

  /** A line reads as what it sets, in whichever form it is written. */
  lemma LineReads(line: EventLine, fields: SseFields)
    requires IsEventLine(line)
    ensures AppendSseField(LineText(line), fields) == Set(line, fields)
  {
    LineSplits(line);
    SetByName(line, fields);
    hide Set;
    if !line.Comment? {
      var text, value := LineText(line), ValueOf(line);
      assert line.Field? && !line.spaced ==> [] + value == value && !([SPACE] <= value);
      NumberReads(value);
      FieldNamesDiffer();
      hide AppendSseField, FindFrom, LineText, DecimalValue, IsNumber, NumberOf, AllDigits;
      FieldReads(text, FindFrom(text, 0, COLON), line.name, value, fields);
    }
  }

  // ----- Reading the lines of one event -----

  lemma {:induction false} ReadLinesAppend(fields: SseFields, a: seq<Bytes>, b: seq<Bytes>)
    ensures ReadLines(fields, a + b) == ReadLines(ReadLines(fields, a), b)
    decreases |a|
  {
    hide AppendSseField;
    if a == [] {
      assert a + b == b;
    } else {
      assert (a + b)[0] == a[0] && (a + b)[1..] == a[1..] + b;
      ReadLinesAppend(AppendSseField(a[0], fields), a[1..], b);
    }
  }

  lemma {:induction false} LineTextsPush(lines: seq<EventLine>, last: EventLine)
    ensures LineTexts(lines + [last]) == LineTexts(lines) + [LineText(last)]
  {
    hide LineText;
    if lines == [] {
      assert lines + [last] == [last] && [last][1..] == [];
    } else {
      LineTextsPush(lines[1..], last);
      assert (lines + [last])[1..] == lines[1..] + [last];
    }
  }

  lemma {:induction false} DataPush(lines: seq<EventLine>, last: EventLine)
    ensures DataOf(lines + [last]) == DataOf(lines) + if Names(last, "data") then [ValueOf(last)] else []
  {
    hide Names;
    if lines == [] {
      assert lines + [last] == [last] && [last][1..] == [];
    } else {
      DataPush(lines[1..], last);
      assert (lines + [last])[1..] == lines[1..] + [last];
    }
  }

  lemma OthersPush(front: seq<EventLine>, last: EventLine)
    ensures EventOf(front + [last]) == if Names(last, "event") then Some(ValueOf(last)) else EventOf(front)
    ensures LastIdOf(front + [last]) == if Names(last, "id") && 0 !in ValueOf(last) then Some(ValueOf(last)) else LastIdOf(front)
    ensures RetryOf(front + [last]) == if Names(last, "retry") && IsNumber(ValueOf(last)) then NumberOf(ValueOf(last)) else RetryOf(front)
  {
    hide Names, ValueOf, IsNumber, Worth;
    var lines := front + [last];
    assert lines[..|lines| - 1] == front && lines[|lines| - 1] == last;
  }

  /** What one more line sets is what the lines then say. */
  lemma SaysMore(front: seq<EventLine>, last: EventLine)
    ensures Set(last, Said(front)) == Said(front + [last])
  {
    hide DataOf, EventOf, LastIdOf, RetryOf, Terminated, ValueOf, NumberOf, IsNumber, Names;
    var value := ValueOf(last);
    DataPush(front, last);
    OthersPush(front, last);
    TerminatedAppend(DataOf(front), value, [LF]);
    assert Terminated(DataOf(front), [LF]) + (value + [LF]) == Terminated(DataOf(front), [LF]) + value + [LF];
    assert DataOf(front) + [] == DataOf(front);
    NamesDiffer(last);
  }

  /** A line has one name. */
  lemma NamesDiffer(line: EventLine)
    ensures Names(line, "data") ==> !Names(line, "event") && !Names(line, "id") && !Names(line, "retry")
    ensures Names(line, "event") ==> !Names(line, "id") && !Names(line, "retry")
    ensures Names(line, "id") ==> !Names(line, "retry")
  {
    FieldNames();
    FieldNamesDiffer();
    hide Ascii;
  }

  function Said(lines: seq<EventLine>): SseFields {
    SseFields(Terminated(DataOf(lines), [LF]), EventOf(lines), LastIdOf(lines), RetryOf(lines))
  }

  /** The lines of an event read as its data, each value with LF behind it, and its other fields. */
  lemma {:induction false} LinesRead(lines: seq<EventLine>)
    requires AreEventLines(lines)
    ensures ReadLines(NO_FIELDS, LineTexts(lines)) == Said(lines)
  {
    if lines != [] {
      var front, last := lines[..|lines| - 1], lines[|lines| - 1];
      assert lines == front + [last] && IsEventLine(last);
      hide Said, Set, IsEventLine, LineText, AppendSseField;
      LinesRead(front);
      LineTextsPush(front, last);
      ReadLinesAppend(NO_FIELDS, LineTexts(front), [LineText(last)]);
      LineReads(last, Said(front));
      ReadLinesOne(Said(front), LineText(last));
      SaysMore(front, last);
    }
  }

  lemma ReadLinesOne(fields: SseFields, line: Bytes)
    ensures ReadLines(fields, [line]) == AppendSseField(line, fields)
  {
    hide AppendSseField;
    assert [line][1..] == [];
  }

  // ----- What an event is handed over as -----

  /** Its data lines joined by LF, in the framing's form; without data its id and retry, if it has any. */
  function FrameOf(lines: seq<EventLine>, mode: FramingMode): FramePoll
  {
    var metadata := SseMetadata(LastIdOf(lines), RetryOf(lines));
    var data := Join(DataOf(lines), 10);
    if DataOf(lines) == [] then if metadata == SseMetadata(None, None) then NeedMore else Metadata(metadata)
    else if mode.SseEvent? then Item(Envelope(data, EventOf(lines), LastIdOf(lines), RetryOf(lines)), metadata)
    else if mode.Sse? && data == Ascii("[DONE]") then Done(metadata)
    else Item(Raw(data), metadata)
  }

  /** An event without data, id and retry hands over nothing. */
  function Handed(lines: seq<EventLine>, mode: FramingMode): (frames: seq<FramePoll>)
    ensures frames == Emits(FrameOf(lines, mode))
  {
    var frame := FrameOf(lines, mode);
    if frame == NeedMore then [] else [frame]
  }

  lemma {:induction false} TerminatedIsJoined(data: seq<Bytes>)
    requires data != []
    ensures Terminated(data, [LF]) == Join(data, LF) + [LF]
  {
    if |data| > 1 {
      TerminatedIsJoined(data[1..]);
    } else {
      assert Terminated(data[1..], [LF]) == [];
    }
  }

  lemma SentinelText()
    ensures DONE_SENTINEL == Ascii("[DONE]")
  {
    assert "[DONE]"[1..] == "DONE]" && "DONE]"[1..] == "ONE]" && "ONE]"[1..] == "NE]";
    assert "NE]"[1..] == "E]" && "E]"[1..] == "]" && "]"[1..] == "";
  }

  /** The lines of an event dispatch what they say. */
  lemma EventReads(lines: seq<EventLine>, mode: FramingMode)
    requires AreEventLines(lines) && IsSse(mode)
    ensures FinishSseFields(ReadLines(NO_FIELDS, LineTexts(lines)), mode) == FrameOf(lines, mode)
  {
    hide ReadLines, LineTexts, AreEventLines, Ascii, RetryOf, LastIdOf, EventOf;
    LinesRead(lines);
    SentinelText();
    var written := Terminated(DataOf(lines), [LF]);
    if DataOf(lines) != [] {
      TerminatedIsJoined(DataOf(lines));
      assert written[..|written| - 1] == Join(DataOf(lines), LF);
    }
  }
}
