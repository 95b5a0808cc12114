/** What has arrived of a body settles its first frames: no later byte takes one back. */
module FramingLaws {
  import opened Sequences
  import opened Framing
  import opened Resumption
  import opened Chunking
  import opened Runs

  /** The parts already cut off stay as they are, whatever is appended. */
  lemma {:induction false} SplitKeepsParts<T>(a: seq<T>, b: seq<T>, d: T)
    ensures AllButLast(SplitOn(a, d)) <= AllButLast(SplitOn(a + b, d))
  {
    if a != [] {
      SplitKeepsParts(a[1..], b, d);
      assert (a + b)[1..] == a[1..] + b;
      var rest, whole := SplitOn(a[1..], d), SplitOn(a[1..] + b, d);
      if a[0] == d {
        assert AllButLast([[]] + rest) == [[]] + AllButLast(rest);
        assert AllButLast([[]] + whole) == [[]] + AllButLast(whole);
      } else if |rest| > 1 {
        assert AllButLast(whole)[0] == AllButLast(rest)[0];
        assert AllButLast([[a[0]] + rest[0]] + rest[1..]) == [[a[0]] + rest[0]] + AllButLast(rest)[1..];
        assert AllButLast([[a[0]] + whole[0]] + whole[1..]) == [[a[0]] + rest[0]] + AllButLast(whole)[1..];
        assert AllButLast(rest)[1..] <= AllButLast(whole)[1..];
      }
    }
  }

  lemma {:induction false} LineItemsKeep(lines: seq<Bytes>, more: seq<Bytes>)
    requires lines <= more
    ensures LineItems(lines) <= LineItems(more)
  {
    if lines != [] {
      LineItemsKeep(lines[1..], more[1..]);
    }
  }

  lemma {:induction false} RecordItemsKeep(records: seq<Bytes>, more: seq<Bytes>)
    requires records <= more
    ensures RecordItems(records) <= RecordItems(more)
  {
    if records != [] {
      RecordItemsKeep(records[1..], more[1..]);
    }
  }

  lemma {:induction false} EventFramesKeep(groups: seq<seq<Bytes>>, more: seq<seq<Bytes>>, mode: FramingMode)
    requires groups <= more
    ensures EventFrames(groups, mode) <= EventFrames(more, mode)
  {
    if groups != [] {
      EventFramesKeep(groups[1..], more[1..], mode);
    }
  }

  lemma {:induction false} UpToDoneKeeps(frames: seq<FramePoll>, more: seq<FramePoll>)
    requires frames <= more
    ensures UpToDone(frames) <= UpToDone(more)
  {
    if frames != [] {
      UpToDoneKeeps(frames[1..], more[1..]);
    }
  }

  /** How many bytes the first line ending or other byte of a text takes. */
  function Width(text: Bytes): (width: nat)
    requires text != []
    ensures 1 <= width <= |text|
  {
    if text[0] == CR && |text| > 1 && text[1] == LF then 2 else 1
  }

  lemma NormalizeFirst(text: Bytes)
    requires text != []
    ensures NormalizeNewlines(text) ==
            [if text[0] == CR then LF else text[0]] + NormalizeNewlines(text[Width(text)..])
  {
  }

  lemma NormalizeNothing()
    ensures NormalizeNewlines([]) == []
  {
  }

  lemma {:induction false} NormalizeExtends(text: Bytes, more: Bytes)
    requires text != [] && text[|text| - 1] == CR && more != [] ==> more[0] != LF
    ensures NormalizeNewlines(text + more) == NormalizeNewlines(text) + NormalizeNewlines(more)
  {
    hide NormalizeNewlines;
    if text == [] {
      NormalizeNothing();
      assert text + more == more;
    } else {
      var whole, width := text + more, Width(text);
      var rest := text[width..];
      assert Width(whole) == width && whole[width..] == rest + more;
      NormalizeExtends(rest, more);
      NormalizeFirst(text);
      NormalizeFirst(whole);
    }
  }

  lemma SseLinesKeep(text: Bytes, more: Bytes, ended: bool)
    ensures SseLines(text, false) <= SseLines(text + more, ended)
  {
    var kept, whole := DropHeldCr(text), text + more;
    var read := if ended then whole else DropHeldCr(whole);
    assert more != [] ==> whole[|whole| - 1] == more[|more| - 1];
    assert kept <= read;
    var after := read[|kept|..];
    assert read == kept + after;
    if kept != text && after != [] {
      assert after[0] == whole[|kept|] == text[|kept|] == CR;
    }
    NormalizeExtends(kept, after);
    SplitKeepsParts(NormalizeNewlines(kept), NormalizeNewlines(after), LF);
  }

  lemma SseFramesKeep(text: Bytes, more: Bytes, mode: FramingMode, ended: bool)
    ensures SseFrames(text, mode, false) <= SseFrames(text + more, mode, ended)
  {
    SseLinesKeep(text, more, ended);
    var lines, all := SseLines(text, false), SseLines(text + more, ended);
    assert all == lines + all[|lines|..];
    SplitKeepsParts(lines, all[|lines|..], []);
    var groups := SplitOn(all, []);
    var kept := if ended then groups else AllButLast(groups);
    EventFramesKeep(AllButLast(SplitOn(lines, [])), kept, mode);
    UpToDoneKeeps(EventFrames(AllButLast(SplitOn(lines, [])), mode), EventFrames(kept, mode));
  }

  lemma AllButFirstKeep<T>(a: seq<T>, b: seq<T>)
    requires a != [] && b != [] && AllButLast(a) <= AllButLast(b)
    ensures AllButLast(a[1..]) <= AllButLast(b[1..]) <= b[1..]
  {
    if |a| > 1 {
      assert AllButLast(a[1..]) == AllButLast(a)[1..] && AllButLast(b[1..]) == AllButLast(b)[1..];
    }
  }

  lemma JsonSequenceFramesKeep(got: Bytes, more: Bytes, ended: bool)
    ensures JsonSequenceFrames(got, false) <= JsonSequenceFrames(got + more, ended)
  {
    hide SplitOn, RecordItems;
    SplitKeepsParts(got, more, RECORD_SEPARATOR);
    var before, after := SplitOn(got, RECORD_SEPARATOR), SplitOn(got + more, RECORD_SEPARATOR);
    AllButFirstKeep(before, after);
    RecordItemsKeep(AllButLast(before[1..]), if ended then after[1..] else AllButLast(after[1..]));
  }

  lemma NdjsonFramesKeep(got: Bytes, more: Bytes, ended: bool)
    ensures NdjsonFrames(got, false) <= NdjsonFrames(got + more, ended)
  {
    hide SplitOn, LineItems;
    SplitKeepsParts(got, more, LF);
    var after := SplitOn(got + more, LF);
    LineItemsKeep(AllButLast(SplitOn(got, LF)), if ended then after else AllButLast(after));
  }

  /** The frames that what has arrived completes are the first frames of every body it may grow into. */
  lemma FramesStand(mode: FramingMode, got: Bytes, more: Bytes, ended: bool)
    ensures BodyFrames(mode, got, false) <= BodyFrames(mode, got + more, ended)
  {
    hide NdjsonFrames, JsonSequenceFrames, SseFrames, StripBom, MayBecomeBom;
    match mode
    case Ndjson => NdjsonFramesKeep(got, more, ended);
    case JsonSequence => JsonSequenceFramesKeep(got, more, ended);
    case _ =>
      if MayBecomeBom(got) {
        MayBecomeBomIsQuiet(mode, got);
        assert got[0..] == got;
        QuietSse(NO_FIELDS, got, mode);
        FreshSse(got, mode, false);
      } else {
        StripBomDecided(got, more);
        SseFramesKeep(StripBom(got), more, mode, ended);
      }
  }

  // ----- The frame that ends a stream -----

  predicate NoDone(frames: seq<FramePoll>) {
    forall i :: 0 <= i < |frames| ==> !frames[i].Done?
  }

  lemma {:induction false} UpToDoneWithout(frames: seq<FramePoll>, more: seq<FramePoll>)
    requires NoDone(frames)
    ensures UpToDone(frames + more) == frames + UpToDone(more)
  {
    if frames == [] {
      assert frames + more == more;
    } else {
      assert frames[1..] + more == (frames + more)[1..];
      UpToDoneWithout(frames[1..], more);
      assert [frames[0]] + (frames[1..] + UpToDone(more)) == frames + UpToDone(more);
    }
  }

  /** The frames are cut behind the first that ends the stream, and nowhere else. */
  lemma {:induction false} UpToDoneExactly(frames: seq<FramePoll>)
    ensures var cut := UpToDone(frames);
            && cut <= frames && (forall i :: 0 <= i < |cut| - 1 ==> !cut[i].Done?)
            && (cut != frames ==> cut != [] && cut[|cut| - 1].Done?)
  {
    if frames != [] && !frames[0].Done? {
      UpToDoneExactly(frames[1..]);
      assert frames == [frames[0]] + frames[1..];
    }
  }

  lemma {:induction false} NoDoneIsWhole(frames: seq<FramePoll>)
    requires NoDone(frames)
    ensures UpToDone(frames) == frames
  {
    UpToDoneWithout(frames, []);
    assert frames + [] == frames;
  }

  /** A body's own frames already stop at the frame that ends a stream. */
  lemma {:induction false} ItemsEndNothing(texts: seq<Bytes>)
    ensures NoDone(LineItems(texts)) && NoDone(RecordItems(texts))
  {
    if texts != [] {
      ItemsEndNothing(texts[1..]);
    }
  }

  lemma {:induction false} UpToDoneTwice(frames: seq<FramePoll>)
    ensures UpToDone(UpToDone(frames)) == UpToDone(frames)
  {
    if frames != [] && !frames[0].Done? {
      UpToDoneTwice(frames[1..]);
      assert ([frames[0]] + UpToDone(frames[1..]))[1..] == UpToDone(frames[1..]);
    }
  }

  lemma BodyFramesEndThere(mode: FramingMode, body: Bytes, ended: bool)
    ensures UpToDone(BodyFrames(mode, body, ended)) == BodyFrames(mode, body, ended)
  {
    match mode
    case Ndjson =>
      var lines := SplitOn(body, LF);
      ItemsEndNothing(if ended then lines else AllButLast(lines));
      NoDoneIsWhole(NdjsonFrames(body, ended));
    case JsonSequence =>
      var records := SplitOn(body, RECORD_SEPARATOR)[1..];
      ItemsEndNothing(if ended then records else AllButLast(records));
      NoDoneIsWhole(JsonSequenceFrames(body, ended));
    case _ =>
      var groups := SplitOn(SseLines(StripBom(body), ended), []);
      UpToDoneTwice(EventFrames(if ended then groups else AllButLast(groups), mode));
  }

  /** Nothing follows the frame that ends a stream, whatever arrives behind it. */
  lemma {:induction false} DoneIsLast(frames: seq<FramePoll>, whole: seq<FramePoll>)
    requires frames <= UpToDone(whole) && AtSentinel(frames)
    ensures frames == UpToDone(whole)
  {
    if |frames| > 1 {
      assert whole[0] == frames[0];
      var rest := UpToDone(whole[1..]);
      assert !whole[0].Done?;
      assert UpToDone(whole)[1..] == rest && frames[1..] <= rest;
      DoneIsLast(frames[1..], whole[1..]);
      assert frames == [frames[0]] + frames[1..];
    }
  }

  lemma BodyStopsAtDone(mode: FramingMode, got: Bytes, ended: bool, frames: seq<FramePoll>)
    requires frames <= BodyFrames(mode, got, ended) && AtSentinel(frames)
    ensures frames == BodyFrames(mode, got, ended)
  {
    hide BodyFrames;
    BodyFramesEndThere(mode, got, ended);
    DoneIsLast(frames, BodyFrames(mode, got, ended));
  }

  lemma {:induction false} NoDoneBeforeEnd(frames: seq<FramePoll>)
    requires UpToDone(frames) == frames && !AtSentinel(frames)
    ensures NoDone(frames)
  {
    if frames != [] {
      assert !frames[0].Done?;
      var rest := frames[1..];
      assert frames == [frames[0]] + UpToDone(rest);
      assert frames[1..] == UpToDone(rest);
      NoDoneBeforeEnd(rest);
    }
  }

  predicate FramesItsBytes(c: Config, current: Connection) {
    current.frames <= BodyFrames(c.mode, current.got, current.ended)
  }

  lemma EventKeepsFrames(c: Config, s: Summary, e: Event)
    requires FitsPhase(s) && MayFollow(c, s, e) && FramesItsBytes(c, s.current)
    ensures FramesItsBytes(c, After(s, e).current)
  {
    hide BodyFrames;
    match e
    case Received(chunk) => FramesStand(c.mode, s.current.got, chunk, false);
    case Ended =>
      FramesStand(c.mode, s.current.got, [], true);
      assert s.current.got + [] == s.current.got;
    case _ =>
  }

  /** At every point of a faithful run, the current connection too has only handed over frames of its own bytes. */
  lemma {:induction false} CurrentConnectionFramesItsBytes(c: Config, run: seq<Event>)
    requires Faithful(c, run)
    ensures FramesItsBytes(c, Summarize(c, run).current)
  {
    hide FramesItsBytes;
    if run != [] {
      var before, e := run[..|run| - 1], run[|run| - 1];
      CurrentConnectionFramesItsBytes(c, before);
      FaithfulRunsFramePerConnection(c, before);
      EventKeepsFrames(c, Summarize(c, before), e);
    } else {
      NothingFramed(c);
    }
  }

  lemma NothingFramed(c: Config)
    ensures FramesItsBytes(c, FRESH)
  {
  }
}
