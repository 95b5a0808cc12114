/** A body framed chunk by chunk frames as the whole body does, however it is cut. */
module Chunking {
  import opened Sequences
  import opened Framing
  import opened Resumption
  import opened FrameBuffers

  /**
   * Of a body of which `got` has arrived, `frames` have been handed over and `p` holds the rest.
   * While a byte order mark may still be forming, everything is still in `p`.
   */
  ghost predicate Tracks(mode: FramingMode, bomPending: bool, got: Bytes, frames: seq<FramePoll>, p: Pending)
    requires p.lineStart <= |p.bytes|
  {
    if bomPending then
      IsSse(mode) && MayBecomeBom(got) && frames == [] && p == Pending(got, 0, NO_FIELDS)
    else
      forall rest, ended :: Accounts(mode, got, frames, p, rest, ended)
  }

  /**
   * The frames handed over and those left are the frames of the body, when `rest` is all that follows,
   * and the item that the buffer leaves unfinished is the body's.
   */
  predicate Accounts(mode: FramingMode, got: Bytes, frames: seq<FramePoll>, p: Pending, rest: Bytes, ended: bool)
    requires p.lineStart <= |p.bytes|
  {
    && frames + FramesLeft(mode, p, rest, ended) == BodyFrames(mode, got + rest, ended)
    && (!ended ==> StillInProgress(mode, p, rest) == InProgress(mode, got + rest))
  }

  /** `frames` are all the frames there will be, whatever follows what has arrived. */
  ghost predicate Settled(mode: FramingMode, got: Bytes, frames: seq<FramePoll>) {
    forall rest, ended :: AreFramesOf(mode, got, frames, rest, ended)
  }

  predicate AreFramesOf(mode: FramingMode, got: Bytes, frames: seq<FramePoll>, rest: Bytes, ended: bool) {
    frames == BodyFrames(mode, got + rest, ended)
  }

  lemma MayBecomeBomIsQuiet(mode: FramingMode, got: Bytes)
    requires IsSse(mode) && MayBecomeBom(got)
    ensures Quiet(mode, Pending(got, 0, NO_FIELDS)) && StripBom(got) == got
  {
    assert got[0..] == got;
    assert forall i :: 0 <= i < |got| ==> got[i] == UTF8_BOM[i];
  }

  lemma FreshAccounts(mode: FramingMode, text: Bytes, rest: Bytes, ended: bool)
    requires IsSse(mode)
    ensures FramesLeft(mode, Pending(text, 0, NO_FIELDS), rest, ended) == SseFrames(text + rest, mode, ended)
    ensures StillInProgress(mode, Pending(text, 0, NO_FIELDS), rest) == EventInProgress([], text + rest)
  {
    assert text[0..] == text && text[..0] == [];
    FreshSse(text + rest, mode, ended);
  }

  lemma TracksStart(mode: FramingMode)
    ensures Tracks(mode, IsSse(mode), [], [], NOTHING)
  {
    if !IsSse(mode) {
      forall rest, ended
        ensures Accounts(mode, [], [], NOTHING, rest, ended)
      {
        assert [] + rest == rest;
        assert NOTHING.bytes + rest == rest;
      }
    }
  }

  /** Whatever is known of every continuation is known of the body as it stands. */
  lemma TracksNow(mode: FramingMode, bomPending: bool, got: Bytes, frames: seq<FramePoll>, p: Pending, ended: bool)
    requires p.lineStart <= |p.bytes| && Tracks(mode, bomPending, got, frames, p)
    ensures Accounts(mode, got, frames, p, [], ended)
  {
    if bomPending {
      MayBecomeBomIsQuiet(mode, got);
      assert got + [] == got;
      FreshAccounts(mode, got, [], ended);
    }
  }

  /** A chunk in the buffer and a chunk still to come leave the same. */
  lemma ChunkLeft(mode: FramingMode, p: Pending, chunk: Bytes, rest: Bytes, ended: bool)
    requires p.lineStart <= |p.bytes|
    ensures var q := p.(bytes := p.bytes + chunk);
            && FramesLeft(mode, q, rest, ended) == FramesLeft(mode, p, chunk + rest, ended)
            && StillInProgress(mode, q, rest) == StillInProgress(mode, p, chunk + rest)
  {
    hide NdjsonFrames, JsonSequenceFrames, ResumedSse, Behind, RecordInProgress, EventInProgress;
    var q := p.(bytes := p.bytes + chunk);
    assert q.bytes + rest == p.bytes + (chunk + rest);
    assert q.bytes[q.lineStart..] + rest == p.bytes[p.lineStart..] + (chunk + rest);
    assert q.bytes[..q.lineStart] == p.bytes[..p.lineStart];
  }

  lemma TracksChunk(mode: FramingMode, got: Bytes, frames: seq<FramePoll>, p: Pending, chunk: Bytes)
    requires p.lineStart <= |p.bytes| && Tracks(mode, false, got, frames, p)
    ensures Tracks(mode, false, got + chunk, frames, p.(bytes := p.bytes + chunk))
  {
    hide FramesLeft, StillInProgress, BodyFrames, InProgress;
    var q := p.(bytes := p.bytes + chunk);
    forall rest, ended
      ensures Accounts(mode, got + chunk, frames, q, rest, ended)
    {
      assert got + chunk + rest == got + (chunk + rest);
      ChunkLeft(mode, p, chunk, rest, ended);
      assert Accounts(mode, got, frames, p, chunk + rest, ended);
    }
  }

  /** Once enough has arrived to tell, stripping the mark commutes with what arrives later. */
  lemma StripBomDecided(got: Bytes, rest: Bytes)
    requires !MayBecomeBom(got)
    ensures StripBom(got + rest) == StripBom(got) + rest
  {
    var body := got + rest;
    if |got| < |UTF8_BOM| {
      assert got != UTF8_BOM[..|got|];
      var i :| 0 <= i < |got| && got[i] != UTF8_BOM[i];
      assert body[i] == got[i];
    } else {
      assert got[..|UTF8_BOM|] == body[..|UTF8_BOM|];
    }
  }

  lemma TracksStrip(mode: FramingMode, got: Bytes)
    requires IsSse(mode)
    ensures Tracks(mode, MayBecomeBom(got), got, [], Pending(StripBom(got), 0, NO_FIELDS))
  {
    if MayBecomeBom(got) {
      MayBecomeBomIsQuiet(mode, got);
    } else {
      var p := Pending(StripBom(got), 0, NO_FIELDS);
      forall rest, ended
        ensures Accounts(mode, got, [], p, rest, ended)
      {
        StripBomDecided(got, rest);
        FreshAccounts(mode, StripBom(got), rest, ended);
      }
    }
  }

  lemma TracksFrame(mode: FramingMode, got: Bytes, frames: seq<FramePoll>, p: Pending, poll: FramePoll, q: Pending)
    requires p.lineStart <= |p.bytes| && q.lineStart <= |q.bytes|
    requires Tracks(mode, false, got, frames, p) && Frames(mode, p, poll, q, false)
    ensures !poll.Done? ==> Tracks(mode, false, got, frames + Emits(poll), q)
    ensures poll.Done? ==> Settled(mode, got, frames + [poll])
  {
    hide FramesLeft;
    hide BodyFrames;
    forall rest, ended
      ensures poll.Done? ==> AreFramesOf(mode, got, frames + [poll], rest, ended)
      ensures !poll.Done? ==> Accounts(mode, got, frames + Emits(poll), q, rest, ended)
    {
      assert Accounts(mode, got, frames, p, rest, ended);
      assert FramesBefore(mode, p, poll, q, rest, ended);
      assert frames + (Emits(poll) + FramesLeft(mode, q, rest, ended)) == frames + Emits(poll) + FramesLeft(mode, q, rest, ended);
    }
  }

  lemma AccountsAtEof(mode: FramingMode, got: Bytes, frames: seq<FramePoll>, p: Pending, poll: FramePoll, q: Pending)
    requires p.lineStart <= |p.bytes| && q.lineStart <= |q.bytes|
    requires Accounts(mode, got, frames, p, [], true) && Frames(mode, p, poll, q, true)
    ensures !poll.Done? ==> Accounts(mode, got, frames + Emits(poll), q, [], true)
    ensures poll.Done? ==> frames + [poll] == BodyFrames(mode, got, true)
  {
    hide FramesLeft;
    hide BodyFrames;
    assert FramesBefore(mode, p, poll, q, [], true);
    assert got + [] == got;
    assert frames + (Emits(poll) + FramesLeft(mode, q, [], true)) == frames + Emits(poll) + FramesLeft(mode, q, [], true);
  }

  /**
   * A buffer that frames nothing until more arrives has handed over every frame completed so far, and
   * holds exactly the item in progress.
   */
  lemma QuietAccounts(mode: FramingMode, bomPending: bool, got: Bytes, frames: seq<FramePoll>, p: Pending)
    requires p.lineStart <= |p.bytes| && (!IsSse(mode) ==> p.lineStart == 0)
    requires Tracks(mode, bomPending, got, frames, p) && Quiet(mode, p)
    ensures frames == BodyFrames(mode, got, false) && p.bytes == InProgress(mode, got)
  {
    TracksNow(mode, bomPending, got, frames, p, false);
    QuietFramesNothing(mode, p);
    QuietIsInProgress(mode, p);
    hide FramesLeft, BodyFrames, StillInProgress, InProgress, Quiet;
    assert got + [] == got;
    assert frames + [] == frames;
  }

  lemma NothingAccounts(mode: FramingMode, got: Bytes, frames: seq<FramePoll>)
    requires Accounts(mode, got, frames, NOTHING, [], true)
    ensures frames == BodyFrames(mode, got, true)
  {
    NothingFramesNothing(mode);
    assert got + [] == got;
    assert frames + [] == frames;
  }

  function Flatten(chunks: seq<Bytes>): Bytes {
    if chunks == [] then [] else Flatten(chunks[..|chunks| - 1]) + chunks[|chunks| - 1]
  }

  /** Hands over every frame that what has arrived completes. */
  method DrainChunk(buffer: FrameBuffer, mode: FramingMode, bomPending: bool, ghost got: Bytes, before: seq<FramePoll>)
    returns (frames: seq<FramePoll>, done: bool)
    requires buffer.Valid(mode) && Tracks(mode, bomPending, got, before, buffer.Contents())
    modifies buffer
    ensures buffer.Valid(mode)
    ensures if done then Settled(mode, got, frames) else Tracks(mode, bomPending, got, frames, buffer.Contents())
    ensures !done ==> frames == BodyFrames(mode, got, false)
  {
    hide BodyFrames;
    hide Frames;
    hide Tracks;
    hide Settled;
    hide Quiet;
    frames := before;
    while true
      invariant buffer.Valid(mode)
      invariant Tracks(mode, bomPending, got, frames, buffer.Contents())
      decreases |buffer.bytes|
    {
      ghost var start := buffer.Contents();
      if bomPending {
        PendingBomHoldsAll(mode, got, frames, start);
        MayBecomeBomIsQuiet(mode, got);
      }
      var poll := buffer.NextFrame(mode, false);
      if !bomPending {
        TracksFrame(mode, got, frames, start, poll, buffer.Contents());
      }
      if poll.NeedMore? {
        assert frames + [] == frames;
        QuietAccounts(mode, bomPending, got, frames, buffer.Contents());
        return frames, false;
      }
      frames := frames + [poll];
      if poll.Done? {
        return frames, true;
      }
    }
  }

  /** Hands over every frame left once the body has ended. */
  method DrainEnd(buffer: FrameBuffer, mode: FramingMode, ghost got: Bytes, before: seq<FramePoll>)
    returns (frames: seq<FramePoll>)
    requires buffer.Valid(mode) && Accounts(mode, got, before, buffer.Contents(), [], true)
    modifies buffer
    ensures buffer.Valid(mode)
    ensures frames == BodyFrames(mode, got, true)
  {
    hide Frames;
    hide Accounts;
    hide BodyFrames;
    frames := before;
    while true
      invariant buffer.Valid(mode)
      invariant Accounts(mode, got, frames, buffer.Contents(), [], true)
      decreases |buffer.bytes|
    {
      ghost var start := buffer.Contents();
      var poll := buffer.NextFrame(mode, true);
      AccountsAtEof(mode, got, frames, start, poll, buffer.Contents());
      if poll.NeedMore? {
        assert frames + [] == frames;
        NothingAccounts(mode, got, frames);
        return;
      }
      frames := frames + [poll];
      if poll.Done? {
        return;
      }
    }
  }

  /** Drains the buffer after every chunk, and once more at the end of the body. */
  method FrameChunks(mode: FramingMode, chunks: seq<Bytes>) returns (frames: seq<FramePoll>)
    ensures frames == BodyFrames(mode, Flatten(chunks), true)
  {
    hide Tracks;
    hide Accounts;
    hide Settled;
    hide BodyFrames;
    var buffer := new FrameBuffer();
    var bomPending := IsSse(mode);
    frames := [];
    TracksStart(mode);
    for i := 0 to |chunks|
      invariant buffer.Valid(mode) && fresh(buffer)
      invariant Tracks(mode, bomPending, Flatten(chunks[..i]), frames, buffer.Contents())
    {
      ghost var before, got := buffer.Contents(), Flatten(chunks[..i]);
      assert chunks[..i + 1][..i] == chunks[..i];
      assert Flatten(chunks[..i + 1]) == got + chunks[i];
      buffer.ExtendFromSlice(chunks[i]);
      if bomPending {
        PendingBomHoldsAll(mode, got, frames, before);
        bomPending := buffer.StripLeadingBom();
        TracksStrip(mode, got + chunks[i]);
      } else {
        TracksChunk(mode, got, frames, before, chunks[i]);
      }
      var done;
      frames, done := DrainChunk(buffer, mode, bomPending, got + chunks[i], frames);
      if done {
        DoneCutsTheRest(mode, chunks, i + 1, frames);
        return;
      }
    }
    assert chunks[..|chunks|] == chunks;
    TracksNow(mode, bomPending, Flatten(chunks), frames, buffer.Contents(), true);
    frames := DrainEnd(buffer, mode, Flatten(chunks), frames);
  }

  lemma PendingBomHoldsAll(mode: FramingMode, got: Bytes, frames: seq<FramePoll>, p: Pending)
    requires p.lineStart <= |p.bytes| && Tracks(mode, true, got, frames, p)
    ensures IsSse(mode) && MayBecomeBom(got) && frames == [] && p == Pending(got, 0, NO_FIELDS)
  {
  }

  lemma {:induction false} FlattenSplit(chunks: seq<Bytes>, i: nat)
    requires i <= |chunks|
    ensures Flatten(chunks[..i]) <= Flatten(chunks)
    decreases |chunks| - i
  {
    if i < |chunks| {
      FlattenSplit(chunks, i + 1);
      assert chunks[..i + 1][..i] == chunks[..i];
    } else {
      assert chunks[..i] == chunks;
    }
  }

  /** What follows the sentinel is not read. */
  lemma DoneCutsTheRest(mode: FramingMode, chunks: seq<Bytes>, i: nat, frames: seq<FramePoll>)
    requires i <= |chunks| && Settled(mode, Flatten(chunks[..i]), frames)
    ensures frames == BodyFrames(mode, Flatten(chunks), true)
  {
    hide BodyFrames;
    FlattenSplit(chunks, i);
    var got, whole := Flatten(chunks[..i]), Flatten(chunks);
    assert whole == got + whole[|got|..];
    assert AreFramesOf(mode, got, frames, whole[|got|..], true);
  }
}
