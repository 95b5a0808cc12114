/**
 * What a streamed response body means, whole: the frames of a complete body, or of the part of a
 * body that has arrived, for each of the five framings of support-runtime/src/stream.rs.
 */
module Framing {
  import opened Sequences

  const CR: Byte := 13
  const SPACE: Byte := 32
  const COLON: Byte := 58
  const RECORD_SEPARATOR: Byte := 0x1e
  const UTF8_BOM: Bytes := [0xEF, 0xBB, 0xBF]
  const DATA: Bytes := [100, 97, 116, 97]
  const EVENT: Bytes := [101, 118, 101, 110, 116]
  const ID: Bytes := [105, 100]
  const RETRY: Bytes := [114, 101, 116, 114, 121]
  const DONE_SENTINEL: Bytes := [91, 68, 79, 78, 69, 93]

  datatype FramingMode = Sse | SseEvent | SseJsonData | Ndjson | JsonSequence

  predicate IsSse(mode: FramingMode) {
    mode.Sse? || mode.SseEvent? || mode.SseJsonData?
  }

  datatype SseMetadata = SseMetadata(id: Option<Bytes>, retry: Option<nat>)

  const NO_METADATA := SseMetadata(None, None)

  datatype SseFields = SseFields(data: Bytes, event: Option<Bytes>, id: Option<Bytes>, retry: Option<nat>)

  const NO_FIELDS := SseFields([], None, None, None)

  /** The payload of an item: bytes taken from the body, or the members of an event envelope. */
  datatype Payload =
    | Raw(bytes: Bytes)
    | Envelope(data: Bytes, event: Option<Bytes>, id: Option<Bytes>, retry: Option<nat>)

  datatype FramePoll =
    | Item(payload: Payload, metadata: SseMetadata)
    | Metadata(metadata: SseMetadata)
    | Done(metadata: SseMetadata)
    | NeedMore

  /** The frames one poll hands over. */
  function Emits(poll: FramePoll): seq<FramePoll> {
    if poll.NeedMore? then [] else [poll]
  }

  // ----- Lines and fields -----

  function TrimCr(line: Bytes): Bytes {
    if line != [] && line[|line| - 1] == CR then line[..|line| - 1] else line
  }

  predicate IsAsciiWhitespace(b: Byte) {
    b == 9 || b == 10 || b == 12 || b == 13 || b == 32
  }

  function TrimStart(s: Bytes): Bytes {
    if s != [] && IsAsciiWhitespace(s[0]) then TrimStart(s[1..]) else s
  }

  function TrimEnd(s: Bytes): Bytes {
    if s != [] && IsAsciiWhitespace(s[|s| - 1]) then TrimEnd(s[..|s| - 1]) else s
  }

  function TrimAscii(s: Bytes): Bytes {
    TrimEnd(TrimStart(s))
  }

  predicate IsDigit(b: Byte) {
    48 <= b <= 57
  }

  predicate AllDigits(s: Bytes) {
    forall i :: 0 <= i < |s| ==> IsDigit(s[i])
  }

  function DecimalValue(s: Bytes): nat
    requires AllDigits(s)
  {
    if s == [] then 0 else 10 * DecimalValue(s[..|s| - 1]) + (s[|s| - 1] - 48)
  }

  /** The index of the first `b` at or after `from`. */
  function FindFrom(s: Bytes, from: nat, b: Byte): (index: Option<nat>)
    requires from <= |s|
    ensures index.Some? ==> from <= index.value < |s| && s[index.value] == b && b !in s[from..index.value]
    ensures index.None? ==> b !in s[from..]
    decreases |s| - from
  {
    if from == |s| then None
    else if s[from] == b then Some(from)
    else
      var index := FindFrom(s, from + 1, b);
      assert s[from..] == [s[from]] + s[from + 1..];
      assert index.Some? ==> s[from..index.value] == [s[from]] + s[from + 1..index.value];
      index
  }

  /** One line of an event, read into its fields. */
  function AppendSseField(line: Bytes, fields: SseFields): SseFields {
    var colon := FindFrom(line, 0, COLON);
    if colon == Some(0) then fields
    else
      var field := if colon.Some? then line[..colon.value] else line;
      var after := if colon.Some? then line[colon.value + 1..] else [];
      var value := if after != [] && after[0] == SPACE then after[1..] else after;
      if field == DATA then fields.(data := fields.data + value + [LF])
      else if field == EVENT then fields.(event := Some(value))
      else if field == ID && 0 !in value then fields.(id := Some(value))
      else if field == RETRY && value != [] && AllDigits(value) then
        fields.(retry := if DecimalValue(value) < U64_LIMIT then Some(DecimalValue(value)) else None)
      else fields
  }

  /** What the fields of one event dispatch. */
  function FinishSseFields(fields: SseFields, mode: FramingMode): FramePoll {
    var metadata := SseMetadata(fields.id, fields.retry);
    if fields.data == [] then
      if metadata == NO_METADATA then NeedMore else Metadata(metadata)
    else
      var data := fields.data[..|fields.data| - 1];
      match mode
      case SseEvent => Item(Envelope(data, fields.event, fields.id, fields.retry), metadata)
      case Sse => if data == DONE_SENTINEL then Done(metadata) else Item(Raw(data), metadata)
      case _ => Item(Raw(data), metadata)
  }

  // ----- The meaning of a whole body -----

  /** Every CRLF and every bare CR replaced by one LF. */
  function NormalizeNewlines(text: Bytes): Bytes {
    if text == [] then []
    else if text[0] == CR then
      [LF] + NormalizeNewlines(if |text| > 1 && text[1] == LF then text[2..] else text[1..])
    else [text[0]] + NormalizeNewlines(text[1..])
  }

  /** The lines of `text`, the last one being what follows the last line ending. */
  function Lines(text: Bytes): (lines: seq<Bytes>)
    ensures |lines| >= 1
  {
    SplitOn(NormalizeNewlines(text), LF)
  }

  /** A CR that ends what has arrived is held back: the byte after it may make it a CRLF. */
  function DropHeldCr(text: Bytes): Bytes {
    TrimCr(text)
  }

  function AllButLast<T>(s: seq<T>): seq<T> {
    if s == [] then [] else s[..|s| - 1]
  }

  /** The lines read so far: every one when the body has ended, else those already terminated. */
  function SseLines(text: Bytes, ended: bool): seq<Bytes> {
    if ended then Lines(text) else AllButLast(Lines(DropHeldCr(text)))
  }

  function ReadLines(fields: SseFields, lines: seq<Bytes>): SseFields
    decreases |lines|
  {
    if lines == [] then fields else ReadLines(AppendSseField(lines[0], fields), lines[1..])
  }

  function EventFrames(groups: seq<seq<Bytes>>, mode: FramingMode): seq<FramePoll> {
    if groups == [] then []
    else Emits(FinishSseFields(ReadLines(NO_FIELDS, groups[0]), mode)) + EventFrames(groups[1..], mode)
  }

  /** `frames` up to and including the first `Done`. */
  function UpToDone(frames: seq<FramePoll>): seq<FramePoll> {
    if frames == [] then []
    else if frames[0].Done? then [frames[0]]
    else [frames[0]] + UpToDone(frames[1..])
  }

  /** Events are the groups of lines between blank lines; the last group waits for the end. */
  function SseFrames(text: Bytes, mode: FramingMode, ended: bool): seq<FramePoll> {
    var groups := SplitOn(SseLines(text, ended), []);
    UpToDone(EventFrames(if ended then groups else AllButLast(groups), mode))
  }

  /** A proper prefix of the byte order mark, the empty one included. */
  predicate MayBecomeBom(s: Bytes) {
    |s| < |UTF8_BOM| && s <= UTF8_BOM
  }

  function StripBom(body: Bytes): Bytes {
    if UTF8_BOM <= body then body[|UTF8_BOM|..] else body
  }

  function FrameItem(payload: Bytes): seq<FramePoll> {
    if payload == [] then [] else [Item(Raw(payload), NO_METADATA)]
  }

  function LineItems(lines: seq<Bytes>): seq<FramePoll> {
    if lines == [] then [] else FrameItem(TrimCr(lines[0])) + LineItems(lines[1..])
  }

  function RecordItems(records: seq<Bytes>): seq<FramePoll> {
    if records == [] then [] else FrameItem(TrimAscii(records[0])) + RecordItems(records[1..])
  }

  function NdjsonFrames(text: Bytes, ended: bool): seq<FramePoll> {
    var lines := SplitOn(text, LF);
    LineItems(if ended then lines else AllButLast(lines))
  }

  /** What precedes the first separator is no record. */
  function JsonSequenceFrames(text: Bytes, ended: bool): seq<FramePoll> {
    var records := SplitOn(text, RECORD_SEPARATOR)[1..];
    RecordItems(if ended then records else AllButLast(records))
  }

  /**
   * The frames of a body: of the whole body when it `ended`, and otherwise the frames that what
   * has arrived of it already completes.
   */
  function BodyFrames(mode: FramingMode, body: Bytes, ended: bool): seq<FramePoll> {
    match mode
    case Ndjson => NdjsonFrames(body, ended)
    case JsonSequence => JsonSequenceFrames(body, ended)
    case _ => SseFrames(StripBom(body), mode, ended)
  }

  // ----- What is in progress -----

  /** What follows the last `d`, all of `s` when there is none. */
  function Behind<T(==)>(s: seq<T>, d: T): seq<T> {
    if s == [] then []
    else if d in s[1..] then Behind(s[1..], d)
    else if s[0] == d then s[1..]
    else s
  }

  /** Where the first line of `text` ends and the next one starts, once its ending has arrived complete. */
  function FirstLine(text: Bytes): (line: Option<(nat, nat)>)
    ensures line.Some? ==> line.value.0 < line.value.1 <= |text|
  {
    if text == [] then None
    else if text[0] == LF then Some((0, 1))
    else if text[0] == CR then
      if |text| == 1 then None else Some((0, if text[1] == LF then 2 else 1))
    else
      var line :- FirstLine(text[1..]);
      Some((line.0 + 1, line.1 + 1))
  }

  /** The bytes behind the last complete blank line, `read` being the lines of the event in progress before `text`. */
  function EventInProgress(read: Bytes, text: Bytes): Bytes
    decreases |text|
  {
    match FirstLine(text)
    case None => read + text
    case Some((end, next)) =>
      if end == 0 then EventInProgress([], text[next..]) else EventInProgress(read + text[..next], text[next..])
  }

  /** From the last record separator on; before the first one, everything. */
  function RecordInProgress(text: Bytes): Bytes {
    if RECORD_SEPARATOR in text then [RECORD_SEPARATOR] + Behind(text, RECORD_SEPARATOR) else text
  }

  /** The item that what has arrived of a body leaves unfinished: its bytes, as they arrived. */
  function InProgress(mode: FramingMode, got: Bytes): Bytes {
    match mode
    case Ndjson => Behind(got, LF)
    case JsonSequence => RecordInProgress(got)
    case _ => EventInProgress([], StripBom(got))
  }
}
