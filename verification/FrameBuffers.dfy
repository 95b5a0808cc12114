/** The incremental framer of support-runtime/src/stream.rs, updating its buffer in place. */
module FrameBuffers {
  import opened Sequences
  import opened Framing
  import opened Resumption

  /** The outcome of looking for the end of a line: the line's end and the next line, or where to resume. */
  datatype LineRead = Complete(end: nat, next: nat) | Incomplete(scanned: nat)

  /** The index of the first CR or LF at or after `from`. */
  function FindTerminator(s: Bytes, from: nat): (index: Option<nat>)
    requires from <= |s|
    ensures index.Some? ==>
      from <= index.value < |s| && IsTerminator(s[index.value]) && NoTerminator(s[from..index.value])
    ensures index.None? ==> NoTerminator(s[from..])
    decreases |s| - from
  {
    if from == |s| then None
    else if IsTerminator(s[from]) then Some(from)
    else
      var index := FindTerminator(s, from + 1);
      assert s[from..] == [s[from]] + s[from + 1..];
      assert index.Some? ==> s[from..index.value] == [s[from]] + s[from + 1..index.value];
      index
  }

  /** A search resumed where an earlier one stopped finds what a search from the start would. */
  lemma {:induction false} SearchResumed(s: Bytes, from: nat, scanned: nat, b: Byte)
    requires from <= scanned <= |s| && b !in s[from..scanned]
    ensures FindFrom(s, from, b) == FindFrom(s, scanned, b)
    ensures FindFrom(s, from, b).Some? ==> b in s[from..]
    decreases scanned - from
  {
    if from < scanned {
      assert s[from..scanned] == [s[from]] + s[from + 1..scanned];
      assert s[from..] == [s[from]] + s[from + 1..];
      SearchResumed(s, from + 1, scanned, b);
    } else {
      var found := FindFrom(s, from, b);
      assert found.Some? ==> s[from..][found.value - from] == b;
    }
  }

  /** How many bytes a search from `from` that ended at `index` inspected. */
  function Inspected(s: Bytes, from: nat, index: Option<nat>): int {
    if index.Some? then index.value + 1 - from else |s| - from
  }

  /** The line starting at `from`, when its ending has arrived; `scanned` is where to look for it. */
  function TakeLine(s: Bytes, from: nat, scanned: nat): (line: LineRead)
    requires from <= scanned <= |s| && NoTerminator(s[from..scanned])
    ensures line.Complete? ==> from <= line.end < line.next <= |s| && LineAt(s, from, line.end, line.next)
    ensures line.Complete? ==> scanned <= line.end
    ensures line.Incomplete? ==> scanned <= line.scanned <= |s| && NoTerminator(s[from..line.scanned])
    ensures line.Incomplete? ==> s[line.scanned..] == [] || s[line.scanned..] == [CR]
    ensures Inspected(s, scanned, FindTerminator(s, scanned))
         <= (if line.Complete? then line.next else line.scanned + 1) - scanned
  {
    var found := FindTerminator(s, scanned);
    assert s[from..] == s[from..scanned] + s[scanned..];
    if found.None? then
      assert s[from..|s|] == s[from..];
      Incomplete(|s|)
    else
      var end := found.value;
      assert s[from..end] == s[from..scanned] + s[scanned..end];
      if s[end] == CR then
        if end + 1 == |s| then
          Incomplete(end)
        else if s[end + 1] == LF then
          assert s[end..end + 2] == [CR, LF];
          Complete(end, end + 2)
        else
          assert s[end..end + 1] == [CR];
          Complete(end, end + 1)
      else
        assert s[end..end + 1] == [LF];
        Complete(end, end + 1)
  }

  class FrameBuffer {
    var bytes: Bytes
    /** Event streams only: where the line in progress starts. */
    var lineStart: nat
    /** Where the next terminator search starts. */
    var scanned: nat
    /** Event streams only: what the lines before `lineStart` set. */
    var event: SseFields

    /** Bytes that left the front, bytes the terminator searches inspected, and the calls made so far. */
    ghost var consumed: nat
    ghost var inspected: nat
    ghost var calls: nat
    ghost var strips: nat

    function Contents(): Pending
      reads this
    {
      Pending(bytes, lineStart, event)
    }

    /** The offsets are in range, and no terminator the framing looks for precedes `scanned`. */
    ghost predicate Valid(mode: FramingMode)
      reads this
    {
      && lineStart <= scanned <= |bytes|
      && (lineStart == 0 ==> event == NO_FIELDS)
      && match mode
         case Ndjson => lineStart == 0 && LF !in bytes[..scanned]
         case JsonSequence =>
           && lineStart == 0
           && (if bytes != [] && bytes[0] == RECORD_SEPARATOR
               then scanned > 0 ==> RECORD_SEPARATOR !in bytes[1..scanned]
               else RECORD_SEPARATOR !in bytes[..scanned])
         case _ => NoTerminator(bytes[lineStart..scanned])
    }

    /** How far into everything ever added the searches have advanced. */
    ghost function Searched(): int
      reads this
    {
      consumed + scanned
    }

    /** How much was ever added. */
    ghost function Fed(): int
      reads this
    {
      consumed + |bytes|
    }

    /** No byte is searched twice, up to one byte a call and two a byte-order-mark check. */
    ghost predicate Linear()
      reads this
    {
      inspected <= Searched() + calls + 2 * strips
    }

    constructor ()
      ensures forall mode :: Valid(mode)
      ensures Linear() && Contents() == NOTHING && scanned == 0
      ensures consumed == inspected == calls == strips == 0
    {
      bytes, lineStart, scanned, event := [], 0, 0, NO_FIELDS;
      consumed, inspected, calls, strips := 0, 0, 0, 0;
    }

    method ExtendFromSlice(chunk: Bytes)
      modifies this`bytes
      ensures bytes == old(bytes) + chunk
      ensures forall mode :: old(Valid(mode)) ==> Valid(mode)
    {
      bytes := bytes + chunk;
      forall mode | old(Valid(mode))
        ensures Valid(mode)
      {
        assert bytes[..scanned] == old(bytes)[..scanned];
        assert bytes[lineStart..scanned] == old(bytes)[lineStart..scanned];
        assert scanned > 0 ==> bytes[1..scanned] == old(bytes)[1..scanned];
      }
    }

    method Clear()
      requires scanned <= |bytes|
      modifies this`bytes, this`lineStart, this`scanned, this`event, this`consumed
      ensures Contents() == NOTHING && scanned == 0
      ensures forall mode :: Valid(mode)
      ensures consumed == old(Fed())
    {
      consumed := consumed + |bytes|;
      bytes, lineStart, scanned, event := [], 0, 0, NO_FIELDS;
    }

    /** Take every byte, leaving the buffer empty. */
    method TakeBytes() returns (taken: Bytes)
      requires scanned <= |bytes|
      modifies this`bytes, this`lineStart, this`scanned, this`event, this`consumed
      ensures taken == old(bytes) && Contents() == NOTHING && scanned == 0
      ensures forall mode :: Valid(mode)
      ensures consumed == old(Fed())
    {
      taken := bytes;
      Clear();
    }

    /** Split off the first `at` bytes; the search restarts at the new front. */
    method Consume(at: nat) returns (front: Bytes)
      requires at <= |bytes|
      modifies this`bytes, this`lineStart, this`scanned, this`consumed
      ensures consumed == old(consumed) + at
      ensures front == old(bytes)[..at] && bytes == old(bytes)[at..]
      ensures lineStart == scanned == 0
    {
      front, bytes, consumed := bytes[..at], bytes[at..], consumed + at;
      lineStart, scanned := 0, 0;
    }

    /** Strip a byte order mark that opens the body; true while what has arrived may still become one. */
    method StripLeadingBom() returns (pending: bool)
      requires scanned <= |bytes|
      modifies this`bytes, this`lineStart, this`scanned, this`event, this`consumed, this`strips
      ensures forall mode :: Valid(mode)
      ensures Contents() == Pending(StripBom(old(bytes)), 0, NO_FIELDS)
      ensures pending == MayBecomeBom(old(bytes))
      ensures strips == old(strips) + 1
      ensures old(scanned) <= 2 ==> Searched() + 2 >= old(Searched())
      ensures Fed() == old(Fed())
    {
      lineStart, scanned, event := 0, 0, NO_FIELDS;
      strips := strips + 1;
      if |bytes| < |UTF8_BOM| && bytes <= UTF8_BOM {
        return true;
      }
      if UTF8_BOM <= bytes {
        bytes, consumed := bytes[|UTF8_BOM|..], consumed + |UTF8_BOM|;
      }
      pending := false;
    }

    /** One line of newline-delimited JSON; `skipped` when it was empty and framed nothing. */
    method NdjsonLine(atEof: bool) returns (poll: FramePoll, skipped: bool)
      requires Valid(Ndjson)
      modifies this`bytes, this`lineStart, this`scanned, this`event, this`consumed, this`inspected
      ensures Valid(Ndjson)
      ensures Frames(Ndjson, old(Contents()), poll, Contents(), atEof)
      ensures !poll.Done? && (poll.NeedMore? ==> skipped || if atEof then Contents() == NOTHING else Quiet(Ndjson, Contents()))
      ensures |bytes| <= |old(bytes)| && (skipped ==> poll.NeedMore?)
      ensures skipped || !poll.NeedMore? ==> |bytes| < |old(bytes)|
      ensures old(Quiet(Ndjson, Contents())) && !atEof ==> poll.NeedMore? && !skipped && Contents() == old(Contents())
      ensures old(Quiet(Ndjson, Contents())) ==> !skipped
      ensures inspected - old(inspected) <= Searched() - old(Searched())
      ensures Fed() == old(Fed())
    {
      ghost var before := Contents();
      hide Frames;
      hide FindFrom;
      assert TrimCr([]) == [];
      hide TrimCr;
      SearchResumed(bytes, 0, scanned, LF);
      var found := FindFrom(bytes, scanned, LF);
      inspected := inspected + Inspected(bytes, scanned, found);
      if found.Some? {
        var nl := found.value;
        NdjsonTaken(before, nl, atEof);
        var front := Consume(nl + 1);
        var line := TrimCr(front[..nl]);
        assert front[..nl] == before.bytes[..nl];
        poll, skipped := if line == [] then NeedMore else Item(Raw(line), NO_METADATA), line == [];
      } else if atEof {
        NdjsonTailTaken(before);
        var line := TrimCr(bytes);
        Clear();
        poll, skipped := if line == [] then NeedMore else Item(Raw(line), NO_METADATA), false;
      } else {
        FramesNothing(Ndjson, before, atEof);
        scanned := |bytes|;
        assert bytes[..scanned] == bytes;
        poll, skipped := NeedMore, false;
      }
    }

    /** Each LF-terminated line is one item; empty lines frame nothing. */
    method NdjsonNext(atEof: bool) returns (poll: FramePoll)
      requires Valid(Ndjson)
      modifies this`bytes, this`lineStart, this`scanned, this`event, this`consumed, this`inspected
      ensures Valid(Ndjson)
      ensures Frames(Ndjson, old(Contents()), poll, Contents(), atEof)
      ensures !poll.Done? && (poll.NeedMore? ==> if atEof then Contents() == NOTHING else Quiet(Ndjson, Contents()))
      ensures |bytes| <= |old(bytes)| && (!poll.NeedMore? ==> |bytes| < |old(bytes)|)
      ensures old(Quiet(Ndjson, Contents())) && !atEof ==> poll.NeedMore? && Contents() == old(Contents())
      ensures inspected - old(inspected) <= Searched() - old(Searched())
      ensures Fed() == old(Fed())
    {
      ghost var entry, quiet := Contents(), Quiet(Ndjson, Contents());
      hide Frames;
      FramesNothing(Ndjson, entry, atEof);
      while true
        invariant Valid(Ndjson) && |bytes| <= |entry.bytes|
        invariant Frames(Ndjson, entry, NeedMore, Contents(), atEof)
        invariant quiet ==> Contents() == entry
        invariant inspected - old(inspected) <= Searched() - old(Searched())
        invariant Fed() == old(Fed())
        decreases |bytes|
      {
        ghost var before := Contents();
        var skipped;
        poll, skipped := NdjsonLine(atEof);
        FramesAfterNothing(Ndjson, entry, before, poll, Contents(), atEof);
        if !skipped {
          return;
        }
      }
    }

    ghost predicate AtSeparator()
      reads this
    {
      bytes != [] && bytes[0] == RECORD_SEPARATOR
    }

    /** Discards what precedes the first separator once it has arrived; tells whether it has. */
    method SkipToSeparator(atEof: bool) returns (atRecord: bool)
      requires Valid(JsonSequence)
      modifies this`bytes, this`lineStart, this`scanned, this`event, this`consumed, this`inspected
      ensures Valid(JsonSequence) && |bytes| <= |old(bytes)|
      ensures Frames(JsonSequence, old(Contents()), NeedMore, Contents(), atEof)
      ensures atRecord ==> AtSeparator()
      ensures !atRecord ==> if atEof then Contents() == NOTHING else Quiet(JsonSequence, Contents())
      ensures old(AtSeparator()) ==> Contents() == old(Contents()) && scanned == old(scanned) && inspected == old(inspected)
      ensures !old(AtSeparator()) && old(Quiet(JsonSequence, Contents())) ==>
        !atRecord && (!atEof ==> Contents() == old(Contents()))
      ensures !atRecord ==> inspected - old(inspected) <= Searched() - old(Searched())
      ensures !old(AtSeparator()) && atRecord ==>
        scanned == 0 && inspected - old(inspected) <= Searched() - old(Searched()) + 1
      ensures Fed() == old(Fed())
    {
      hide Frames;
      hide FindFrom;
      if bytes != [] && bytes[0] == RECORD_SEPARATOR {
        FramesNothing(JsonSequence, Contents(), atEof);
        return true;
      }
      SearchResumed(bytes, 0, scanned, RECORD_SEPARATOR);
      var found := FindFrom(bytes, scanned, RECORD_SEPARATOR);
      inspected := inspected + Inspected(bytes, scanned, found);
      if found.None? {
        if atEof {
          JunkTailTaken(Contents());
          Clear();
        } else {
          FramesNothing(JsonSequence, Contents(), atEof);
          scanned := |bytes|;
          assert bytes[..scanned] == bytes;
        }
        return false;
      }
      var first := found.value;
      JunkTaken(Contents(), first, atEof);
      var junk := Consume(first);
      atRecord := true;
    }

    /** The record that opens the buffer, once the separator that ends it has arrived. */
    method FindRecordEnd() returns (end: Option<nat>)
      requires Valid(JsonSequence) && AtSeparator()
      modifies this`scanned, this`inspected
      ensures Valid(JsonSequence)
      ensures end.None? ==> RECORD_SEPARATOR !in bytes[1..] && scanned == |bytes|
      ensures end.Some? ==> 0 < end.value < |bytes| && bytes[end.value] == RECORD_SEPARATOR
      ensures end.Some? ==> RECORD_SEPARATOR !in bytes[1..end.value]
      ensures old(Quiet(JsonSequence, Contents())) ==> end.None?
      ensures inspected - old(inspected) <= (if end.Some? then end.value else |bytes|) - old(scanned)
                                          + if old(scanned) == 0 then 0 else 1
    {
      var from := if scanned < 1 then 1 else scanned;
      SearchResumed(bytes, 1, from, RECORD_SEPARATOR);
      end := FindFrom(bytes, from, RECORD_SEPARATOR);
      inspected := inspected + Inspected(bytes, from, end);
      if end.None? {
        scanned := |bytes|;
        assert bytes[1..scanned] == bytes[1..];
      }
    }

    /** One record; `skipped` when it was empty and framed nothing. */
    method JsonRecord(atEof: bool) returns (poll: FramePoll, skipped: bool)
      requires Valid(JsonSequence) && AtSeparator()
      modifies this`bytes, this`lineStart, this`scanned, this`consumed, this`inspected
      ensures Valid(JsonSequence)
      ensures Frames(JsonSequence, old(Contents()), poll, Contents(), atEof)
      ensures !poll.Done? && (skipped ==> poll.NeedMore?)
      ensures poll.NeedMore? && !skipped ==> !atEof && Quiet(JsonSequence, Contents()) && Contents() == old(Contents())
      ensures skipped || !poll.NeedMore? ==> |bytes| < |old(bytes)| && scanned == 0 && (bytes == [] || AtSeparator())
      ensures old(Quiet(JsonSequence, Contents())) && !atEof ==> poll.NeedMore? && !skipped
      ensures inspected - old(inspected) <= Searched() - old(Searched()) + if old(scanned) == 0 then 0 else 1
      ensures Fed() == old(Fed())
    {
      hide Frames;
      hide TrimAscii;
      ghost var before := Contents();
      var found := FindRecordEnd();
      if found.None? && !atEof {
        FramesNothing(JsonSequence, before, atEof);
        return NeedMore, false;
      }
      var end := if found.Some? then found.value else |bytes|;
      assert found.None? ==> bytes[1..end] == bytes[1..];
      RecordTaken(before, end, atEof);
      var record := Consume(end);
      assert record[1..] == before.bytes[1..end];
      var payload := TrimAscii(record[1..]);
      skipped := payload == [];
      poll := if skipped then NeedMore else Item(Raw(payload), NO_METADATA);
    }

    /** Each item opens with a record separator and runs to the next one. */
    method JsonSequenceNext(atEof: bool) returns (poll: FramePoll)
      requires Valid(JsonSequence)
      modifies this`bytes, this`lineStart, this`scanned, this`event, this`consumed, this`inspected
      ensures Valid(JsonSequence)
      ensures Frames(JsonSequence, old(Contents()), poll, Contents(), atEof)
      ensures !poll.Done? && (poll.NeedMore? ==> if atEof then Contents() == NOTHING else Quiet(JsonSequence, Contents()))
      ensures |bytes| <= |old(bytes)| && (!poll.NeedMore? ==> |bytes| < |old(bytes)|)
      ensures old(Quiet(JsonSequence, Contents())) && !atEof ==> poll.NeedMore? && Contents() == old(Contents())
      ensures inspected - old(inspected) <= Searched() - old(Searched()) + 1
      ensures Fed() == old(Fed())
    {
      ghost var entry, quiet := Contents(), Quiet(JsonSequence, Contents());
      hide Frames;
      FramesNothing(JsonSequence, entry, atEof);
      while true
        invariant Valid(JsonSequence) && |bytes| <= |entry.bytes|
        invariant Frames(JsonSequence, entry, NeedMore, Contents(), atEof)
        invariant quiet && !atEof ==> Contents() == entry
        invariant inspected - old(inspected) <= Searched() - old(Searched()) + 1
        invariant inspected - old(inspected) <= Searched() - old(Searched())
               || (scanned == 0 && (bytes == [] || AtSeparator()))
        invariant Fed() == old(Fed())
        decreases |bytes|
      {
        ghost var start := Contents();
        var atRecord := SkipToSeparator(atEof);
        ghost var before := Contents();
        FramesAfterNothing(JsonSequence, entry, start, NeedMore, before, atEof);
        if !atRecord {
          return NeedMore;
        }
        var skipped;
        poll, skipped := JsonRecord(atEof);
        FramesAfterNothing(JsonSequence, entry, before, poll, Contents(), atEof);
        if !skipped {
          return;
        }
      }
    }

    /** Reads the next line, when it is complete, into the event in progress. */
    method ReadEventLine(mode: FramingMode, atEof: bool) returns (line: LineRead)
      requires IsSse(mode) && Valid(mode)
      modifies this`lineStart, this`scanned, this`event, this`inspected
      ensures lineStart <= scanned <= |bytes| && old(lineStart) <= lineStart
      ensures line.Incomplete? ==> Contents() == old(Contents()) && Valid(mode) && Quiet(mode, Contents())
      ensures line.Complete? ==> !old(Quiet(mode, Contents())) && old(lineStart) < lineStart == scanned == line.next
      ensures line.Complete? && line.end > old(lineStart) ==> Valid(mode)
      ensures line.Complete? && line.end > old(lineStart) ==> Frames(mode, old(Contents()), NeedMore, Contents(), atEof)
      ensures line.Complete? && line.end <= old(lineStart) ==>
        Frames(mode, old(Contents()), FinishSseFields(event, mode), Pending(bytes[lineStart..], 0, NO_FIELDS), atEof)
      ensures inspected - old(inspected) <= scanned - old(scanned) + if line.Complete? then 0 else 1
    {
      hide Frames;
      hide FinishSseFields;
      hide AppendSseField;
      hide FindTerminator;
      hide TakeLine;
      hide LineAt;
      hide Quiet;
      ghost var before := Contents();
      line := TakeLine(bytes, lineStart, scanned);
      inspected := inspected + Inspected(bytes, scanned, FindTerminator(bytes, scanned));
      match line
      case Incomplete(resume) =>
        scanned := resume;
        QuietTail(mode, before, scanned);
      case Complete(end, next) =>
        QuietHasNoLine(mode, before, end, next);
        var text := bytes[lineStart..end];
        lineStart, scanned := next, next;
        assert bytes[lineStart..scanned] == [];
        if text == [] {
          BlankTaken(mode, before, next, atEof);
        } else {
          LineTaken(mode, before, end, next, atEof);
          event := AppendSseField(text, event);
        }
    }

    /** Reads complete lines into the event in progress, up to a blank one; tells whether it met one. */
    method ReadEventLines(mode: FramingMode, atEof: bool) returns (terminator: Option<nat>)
      requires IsSse(mode) && Valid(mode)
      modifies this`lineStart, this`scanned, this`event, this`inspected
      ensures lineStart <= scanned <= |bytes|
      ensures terminator.None? ==> Valid(mode) && Quiet(mode, Contents())
      ensures terminator.None? ==> Frames(mode, old(Contents()), NeedMore, Contents(), atEof)
      ensures terminator.Some? ==> lineStart == scanned == terminator.value > 0
      ensures terminator.Some? ==>
        Frames(mode, old(Contents()), FinishSseFields(event, mode), Pending(bytes[lineStart..], 0, NO_FIELDS), atEof)
      ensures old(Quiet(mode, Contents())) ==> terminator.None? && Contents() == old(Contents())
      ensures inspected - old(inspected) <= scanned - old(scanned) + if terminator.None? then 1 else 0
    {
      ghost var entry, quiet := Contents(), Quiet(mode, Contents());
      hide Frames;
      hide FinishSseFields;
      FramesNothing(mode, entry, atEof);
      while true
        invariant Valid(mode)
        invariant Frames(mode, entry, NeedMore, Contents(), atEof)
        invariant quiet ==> Contents() == entry
        invariant inspected - old(inspected) <= scanned - old(scanned)
        decreases |bytes| - lineStart
      {
        var start := lineStart;
        ghost var before := Contents();
        var line := ReadEventLine(mode, atEof);
        if line.Incomplete? {
          return None;
        }
        if line.end <= start {
          FramesAfterNothing(mode, entry, before, FinishSseFields(event, mode), Pending(bytes[lineStart..], 0, NO_FIELDS), atEof);
          return Some(line.next);
        }
        FramesAfterNothing(mode, entry, before, NeedMore, Contents(), atEof);
      }
    }

    /** One event; `skipped` when it dispatched nothing and more bytes follow it. */
    method SseEventStep(mode: FramingMode, atEof: bool) returns (poll: FramePoll, skipped: bool)
      requires IsSse(mode) && Valid(mode)
      modifies this`bytes, this`lineStart, this`scanned, this`event, this`consumed, this`inspected
      ensures Valid(mode) && |bytes| <= |old(bytes)|
      ensures Frames(mode, old(Contents()), poll, Contents(), atEof)
      ensures skipped ==> poll.NeedMore?
      ensures poll.NeedMore? && !skipped ==> if atEof then Contents() == NOTHING else Quiet(mode, Contents())
      ensures skipped || !poll.NeedMore? ==> |bytes| < |old(bytes)|
      ensures old(Quiet(mode, Contents())) && !atEof ==> poll.NeedMore? && !skipped && Contents() == old(Contents())
      ensures inspected - old(inspected) <= Searched() - old(Searched()) + if skipped then 0 else 1
      ensures Fed() == old(Fed())
    {
      ghost var entry := Contents();
      hide Frames;
      hide FinishSseFields;
      NoFieldsDispatchNothing(mode);
      var terminator := ReadEventLines(mode, atEof);
      ghost var before := Contents();
      var fields := event;
      if terminator.Some? {
        var front := Consume(terminator.value);
        event := NO_FIELDS;
        EmptyHoldsNothing(bytes);
      } else if !atEof {
        return NeedMore, false;
      } else {
        TailTaken(mode, before);
        if lineStart < |bytes| {
          fields := AppendSseField(TrimCr(bytes[lineStart..]), fields);
        } else {
          assert bytes[lineStart..] == [];
          BlankLineSetsNothing(fields);
        }
        Clear();
        FramesAfterNothing(mode, entry, before, FinishSseFields(fields, mode), NOTHING, atEof);
      }
      poll := FinishSseFields(fields, mode);
      skipped := poll.NeedMore? && bytes != [];
    }

    /** Each event runs to a blank line, or to the end of the body. */
    method SseNext(mode: FramingMode, atEof: bool) returns (poll: FramePoll)
      requires IsSse(mode) && Valid(mode)
      modifies this`bytes, this`lineStart, this`scanned, this`event, this`consumed, this`inspected
      ensures Valid(mode)
      ensures Frames(mode, old(Contents()), poll, Contents(), atEof)
      ensures poll.NeedMore? ==> if atEof then Contents() == NOTHING else Quiet(mode, Contents())
      ensures |bytes| <= |old(bytes)| && (!poll.NeedMore? ==> |bytes| < |old(bytes)|)
      ensures old(Quiet(mode, Contents())) && !atEof ==> poll.NeedMore? && Contents() == old(Contents())
      ensures inspected - old(inspected) <= Searched() - old(Searched()) + 1
      ensures Fed() == old(Fed())
    {
      ghost var entry, quiet := Contents(), Quiet(mode, Contents());
      hide Frames;
      FramesNothing(mode, entry, atEof);
      while true
        invariant Valid(mode) && |bytes| <= |entry.bytes|
        invariant Frames(mode, entry, NeedMore, Contents(), atEof)
        invariant quiet && !atEof ==> Contents() == entry
        invariant inspected - old(inspected) <= Searched() - old(Searched())
        invariant Fed() == old(Fed())
        decreases |bytes|
      {
        ghost var before := Contents();
        var skipped;
        poll, skipped := SseEventStep(mode, atEof);
        FramesAfterNothing(mode, entry, before, poll, Contents(), atEof);
        if !skipped {
          return;
        }
      }
    }

    /** Frame the next item, consuming the bytes it uses. */
    method NextFrame(mode: FramingMode, atEof: bool) returns (poll: FramePoll)
      requires Valid(mode)
      modifies this`bytes, this`lineStart, this`scanned, this`event, this`consumed, this`inspected, this`calls
      ensures Valid(mode)
      ensures Frames(mode, old(Contents()), poll, Contents(), atEof)
      ensures poll.NeedMore? ==> if atEof then Contents() == NOTHING else Quiet(mode, Contents())
      ensures |bytes| <= |old(bytes)| && (!poll.NeedMore? ==> |bytes| < |old(bytes)|)
      ensures old(Quiet(mode, Contents())) && !atEof ==> poll.NeedMore? && Contents() == old(Contents())
      ensures old(Linear()) ==> Linear()
      ensures Fed() == old(Fed())
    {
      hide Frames;
      hide FindFrom;
      calls := calls + 1;
      match mode
      case Ndjson => poll := NdjsonNext(atEof);
      case JsonSequence => poll := JsonSequenceNext(atEof);
      case _ => poll := SseNext(mode, atEof);
    }
  }

  lemma QuietTail(mode: FramingMode, p: Pending, scanned: nat)
    requires IsSse(mode) && p.lineStart <= scanned <= |p.bytes| && NoTerminator(p.bytes[p.lineStart..scanned])
    requires p.bytes[scanned..] == [] || p.bytes[scanned..] == [CR]
    ensures Quiet(mode, p)
  {
    var text := p.bytes[p.lineStart..];
    assert text == p.bytes[p.lineStart..scanned] + p.bytes[scanned..];
    if p.bytes[scanned..] == [CR] {
      assert TrimCr(text) == p.bytes[p.lineStart..scanned];
    }
  }

  lemma QuietHasNoLine(mode: FramingMode, p: Pending, end: nat, next: nat)
    requires IsSse(mode) && p.lineStart <= end < next <= |p.bytes| && LineAt(p.bytes, p.lineStart, end, next)
    ensures !Quiet(mode, p)
  {
    var text, at := p.bytes[p.lineStart..], end - p.lineStart;
    assert text[at] == p.bytes[end..next][0];
    if end + 1 < |p.bytes| {
      assert TrimCr(text)[at] == text[at];
    } else {
      assert p.bytes[end..next] == [LF];
      assert TrimCr(text) == text;
    }
  }

  lemma EmptyHoldsNothing(s: Bytes)
    ensures s == [] ==> NoTerminator(TrimCr(s[0..]))
  {
  }

  lemma NoFieldsDispatchNothing(mode: FramingMode)
    ensures FinishSseFields(NO_FIELDS, mode).NeedMore?
  {
  }

  lemma BlankLineSetsNothing(fields: SseFields)
    ensures AppendSseField(TrimCr([]), fields) == fields
  {
  }
}
