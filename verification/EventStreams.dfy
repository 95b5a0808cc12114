/** The typed stream of support-runtime/src/stream.rs: a body, or a chain of reconnected bodies, polled for items. */
module EventStreams {
  import opened Sequences
  import opened Framing
  import opened Resumption
  import opened FrameBuffers
  import opened Chunking
  import opened Runs
  import opened FramingLaws
  import opened Scripts

  /** What one part of a poll decided: hand this to the caller, start over, or go on. */
  datatype Flow = Return(poll: Poll) | Again | Proceed

  /**
   * The poll that ends a stream says how it ended: the sentinel and a clean end end it quietly, and
   * everything else is a failure, after the policy, when there is one, declined to reconnect.
   */
  predicate Concludes(run: seq<Event>, reconnect: Reconnect, poll: Poll) {
    run != [] &&
    match run[|run| - 1]
    case Framed(frame, _) => frame.Done? && poll == Ready(None)
    case Overflowed(_) => IsOverflow(poll)
    case Closed(clean) => !reconnect.WithPolicy? && poll == AfterClose(clean)
    case Asked(_, _, accepted) =>
      if accepted then poll == FailedWith(NotCloneable)
      else
        && reconnect.WithPolicy? && |run| > 1
        && (match run[|run| - 2]
            case Closed(clean) => poll == AfterClose(clean)
            case Requested(_) => poll == FailedWith(ConnectFailed)
            case _ => false)
    case _ => false
  }

  lemma QuietNothing(mode: FramingMode)
    ensures Quiet(mode, NOTHING)
  {
    assert NOTHING.bytes[0..] == [];
  }

  /** What handing over one frame means for the connection it comes from. */
  lemma FrameHandled(mode: FramingMode, bomPending: bool, connection: Connection, before: Pending, framed: FramePoll,
                     after: Pending, atEof: bool)
    requires before.lineStart <= |before.bytes| && after.lineStart <= |after.bytes|
    requires Frames(mode, before, framed, after, atEof)
    requires if atEof then Accounts(mode, connection.got, connection.frames, before, [], true)
             else Tracks(mode, bomPending, connection.got, connection.frames, before)
    requires !atEof && bomPending ==> framed.NeedMore? && after == before
    ensures !framed.Done? && atEof ==> Accounts(mode, connection.got, connection.frames + Emits(framed), after, [], true)
    ensures !framed.Done? && !atEof ==> Tracks(mode, bomPending, connection.got, connection.frames + Emits(framed), after)
    ensures !framed.NeedMore? ==> connection.frames + [framed] <= BodyFrames(mode, connection.got, atEof)
  {
    hide Frames;
    hide Tracks;
    hide Settled;
    hide BodyFrames;
    hide FramesLeft;
    var got, frames := connection.got, connection.frames;
    assert got + [] == got;
    if atEof {
      AccountsAtEof(mode, got, frames, before, framed, after);
    } else if bomPending {
      assert frames + [] == frames;
    } else {
      TracksFrame(mode, got, frames, before, framed, after);
      if framed.Done? {
        SettledNow(mode, got, frames + [framed]);
      } else {
        TracksNow(mode, false, got, frames + Emits(framed), after, false);
      }
    }
  }

  lemma SettledNow(mode: FramingMode, got: Bytes, frames: seq<FramePoll>)
    requires Settled(mode, got, frames)
    ensures frames == BodyFrames(mode, got, false)
  {
    assert got + [] == got;
    assert AreFramesOf(mode, got, frames, [], false);
  }

  class EventStream {
    const config: Config
    const buffer: FrameBuffer
    var state: StreamState
    var bomPending: bool
    var lastEventId: Option<Bytes>
    var reconnectDelay: Option<nat>
    var attempt: nat
    /** What the policy, the waits and the reconnects will answer. */
    var answers: seq<Answer>
    /** All that the stream is to hand over, and how it is to end. */
    ghost const total: Outlook
    /** Everything that happened so far. */
    ghost var run: seq<Event>

    /** The id, the delay and the attempt count are those the run adds up to. */
    ghost predicate Remembers(s: Summary)
      reads this
    {
      && lastEventId == s.lastId && reconnectDelay == s.lastRetry
      && attempt == if s.sinceDecoded <= U32_MAX then s.sinceDecoded else U32_MAX
    }

    /** Every frame that what has arrived completes is out, and what is left is within the limit. */
    ghost predicate Drained()
      reads this, buffer
    {
      && |buffer.bytes| <= config.maxFrame
      && buffer.lineStart <= |buffer.bytes|
      && if state.Eof? then buffer.Contents() == NOTHING else Quiet(config.mode, buffer.Contents())
    }

    ghost predicate Valid()
      reads this, buffer
    {
      var s := Summarize(config, run);
      && buffer.Valid(config.mode) && buffer.Linear()
      && Faithful(config, run)
      && Remembers(s) && FitsPhase(s)
      && OnCourse(total, config, s, state, answers)
      && match state
         case Body(_) =>
           && (s.phase.Reading? || (s.phase.Awaiting? && Drained())) && !s.current.ended
           && Tracks(config.mode, bomPending, s.current.got, s.current.frames, buffer.Contents())
         case Eof =>
           && s.phase.Reading? && s.current.ended
           && Accounts(config.mode, s.current.got, s.current.frames, buffer.Contents(), [], true)
         case Waiting(_, _, _, _) => s.phase.Granted? && config.reconnect.WithPolicy? && buffer.Contents() == NOTHING
         case Connecting(_, _) => s.phase.Reconnecting? && config.reconnect.WithPolicy? && buffer.Contents() == NOTHING
         case Finished => |buffer.bytes| <= config.maxFrame && Quiet(config.mode, buffer.Contents())
    }

    constructor (config: Config, body: seq<BodyStep>, answers: seq<Answer>)
      ensures Valid() && fresh(buffer)
      ensures run == [] && state == Body(body) && this.config == config && this.answers == answers
      ensures total == StreamOutlook(config, body, answers) && buffer.bytes == []
    {
      total := StreamOutlook(config, body, answers);
      this.config := config;
      buffer := new FrameBuffer();
      state, bomPending, attempt, this.answers, run := Body(body), IsSse(config.mode), 0, answers, [];
      lastEventId, reconnectDelay := InitialId(config), None;
      TracksStart(config.mode);
      CourseFirst(config, body, answers);
    }

    /** How much is left to do at most: every poll of a stream that has not finished does some of it. */
    function Effort(): nat
      reads this, buffer
    {
      StateEffort(state) + AnswersEffort(answers) + |buffer.bytes|
    }

    /** How often the world will still say that something is not ready yet, at most. */
    function Delay(): nat
      reads this
    {
      StateDelay(state) + AnswersDelay(answers)
    }

    /** `poll` is the one that the stream was to end with, and says how the run ended. */
    ghost predicate EndsWith(poll: Poll)
      reads this
    {
      Concludes(run, config.reconnect, poll) && poll == total.ending
    }

    method ApplyMetadata(metadata: SseMetadata)
      modifies this`lastEventId, this`reconnectDelay
      ensures lastEventId == OrElse(metadata.id, old(lastEventId))
      ensures reconnectDelay == OrElse(metadata.retry, old(reconnectDelay))
    {
      if metadata.id.Some? {
        lastEventId := metadata.id;
      }
      if metadata.retry.Some? {
        reconnectDelay := metadata.retry;
      }
    }

    ghost method Record(e: Event)
      modifies this`run
      ensures run == old(run) + [e]
      ensures Summarize(config, run) == After(Summarize(config, old(run)), e)
      ensures Faithful(config, old(run)) && MayFollow(config, Summarize(config, old(run)), e) ==> Faithful(config, run)
      ensures Items(run) == Items(old(run)) + ItemsOf(e)
    {
      Extend(config, run, e);
      ExtendItems(run, e);
      run := run + [e];
    }

    /** End the stream without reconnecting; a failure is handed back to be yielded. */
    method Stop(reason: Option<StreamError>) returns (error: Option<StreamError>)
      modifies this`state
      ensures state == Finished && error == reason
    {
      state := Finished;
      error := reason;
    }

    /** Ask the policy for a reconnect, once the current connection is done with. */
    method ScheduleReconnect(reason: Option<StreamError>) returns (error: Option<StreamError>)
      requires buffer.Valid(config.mode) && buffer.Linear()
      requires Faithful(config, run)
      requires var s := Summarize(config, run);
               && (s.phase.Broken? || (s.phase.Reconnecting? && config.reconnect.WithPolicy?)) && FitsPhase(s)
               && Remembers(s) && AskCourse(total, config, s, Refusal(reason), answers)
      requires |buffer.bytes| <= config.maxFrame && Quiet(config.mode, buffer.Contents())
      modifies this`state, this`attempt, this`answers, this`run, buffer
      ensures Valid()
      ensures state.Waiting? || (state.Finished? && error == reason && total.ending == Refusal(reason))
      ensures state.Waiting? ==> error.None? && run == old(run) + [Asked(old(attempt), reconnectDelay, true)]
      ensures state.Finished? ==>
        if config.reconnect.WithPolicy? then run == old(run) + [Asked(old(attempt), reconnectDelay, false)] else run == old(run)
      ensures Items(run) == Items(old(run))
      ensures Effort() <= AnswersEffort(old(answers)) + |old(buffer.bytes)| && Delay() <= AnswersDelay(old(answers))
    {
      hide Faithful, Summarize, Items, OnCourse;
      hide Tracks, Accounts, BodyFrames, Quiet, InProgress;
      hide AskCourse;
      ghost var s, asked := Summarize(config, run), answers;
      CourseAsked(total, config, s, Refusal(reason), answers, Asked(attempt, reconnectDelay, FirstAnswer(answers).Accept?));
      if !config.reconnect.WithPolicy? {
        error := Stop(reason);
        return;
      }
      var answer := AskPolicy();
      if answer.Decline? {
        error := Stop(reason);
        return;
      }
      buffer.Clear();
      state := Waiting(answer.waits, answer.cloneable, answer.connects, answer.result);
      error := None;
    }

    /** The policy's answer; a reconnect it accepts is counted. */
    method AskPolicy() returns (answer: Answer)
      requires Faithful(config, run) && Remembers(Summarize(config, run)) && config.reconnect.WithPolicy?
      requires Summarize(config, run).phase.Broken? || Summarize(config, run).phase.Reconnecting?
      modifies this`attempt, this`answers, this`run
      ensures answer == FirstAnswer(old(answers)) && answers == LaterAnswers(old(answers))
      ensures run == old(run) + [Asked(old(attempt), reconnectDelay, answer.Accept?)] && Faithful(config, run)
      ensures Summarize(config, run) == After(Summarize(config, old(run)), Asked(old(attempt), reconnectDelay, answer.Accept?))
      ensures Remembers(Summarize(config, run)) && Items(run) == Items(old(run))
    {
      hide Faithful, Summarize, Items;
      answer := FirstAnswer(answers);
      answers := LaterAnswers(answers);
      Record(Asked(attempt, reconnectDelay, answer.Accept?));
      if answer.Accept? {
        attempt := if attempt < U32_MAX then attempt + 1 else U32_MAX;
      }
    }

    /** The item limit was passed: the stream ends, and no reconnect is asked for. */
    method Overflow() returns (error: StreamError)
      requires Valid() && state.Body? && |buffer.bytes| > config.maxFrame && Quiet(config.mode, buffer.Contents())
      modifies this`state, this`run, buffer
      ensures Valid() && state.Finished? && buffer.bytes == []
      ensures error == FrameOverflow(Capped(old(buffer.bytes), config.maxErrorBody))
      ensures run == old(run) + [Overflowed(|old(buffer.bytes)|)] && Items(run) == Items(old(run))
      ensures EndsWith(FailedWith(error))
    {
      hide Faithful, Summarize, Items, OnCourse;
      hide Tracks, BodyFrames, Quiet, InProgress;
      ghost var s, e := Summarize(config, run), Overflowed(|buffer.bytes|);
      QuietNothing(config.mode);
      QuietAccounts(config.mode, bomPending, s.current.got, s.current.frames, buffer.Contents());
      CourseOverflows(total, config, s, state.steps, answers);
      CourseEnds(total, config, s, answers, |buffer.bytes|);
      Record(e);
      state := Finished;
      var body := buffer.TakeBytes();
      error := FrameOverflow(Capped(body, config.maxErrorBody));
    }

    /** Hand over the next frame, if there is one. */
    method FrameStep() returns (flow: Flow)
      requires Valid()
      modifies this`state, this`lastEventId, this`reconnectDelay, this`attempt, this`run, buffer
      ensures Valid() && old(run) <= run
      ensures flow.Return? ==> Items(run) == Items(old(run)) + ItemsYielded(flow.poll)
      ensures flow.Return? ==> flow.poll.Ready? && (state.Finished? <==> ItemsYielded(flow.poll) == [])
      ensures flow.Return? && state.Finished? ==> EndsWith(flow.poll)
      ensures !flow.Return? ==> Items(run) == Items(old(run)) && state == old(state)
      ensures flow.Proceed? ==> run == old(run) && Drained()
      ensures old(state).Finished? ==> flow.Proceed?
      ensures Effort() <= old(Effort()) && (!flow.Proceed? ==> Effort() < old(Effort())) && Delay() <= old(Delay())
    {
      hide Faithful, Summarize, Items, OnCourse;
      hide Frames, Tracks, Accounts, BodyFrames, Quiet, MayBecomeBom;
      hide EventStream.EndsWith;
      hide StepsEffort, AnswersEffort, ResultEffort, StepsDelay, ResultDelay, AnswersDelay;
      ghost var s, before := Summarize(config, run), buffer.Contents();
      QuietNothing(config.mode);
      var framed := NextFramed();
      if framed.NeedMore? {
        if |buffer.bytes| > config.maxFrame {
          var error := Overflow();
          return Return(FailedWith(error));
        }
        return Proceed;
      }
      flow := Deliver(framed);
    }

    /** The next frame, if there is one, and what handing it over would mean for the connection it is from. */
    method NextFramed() returns (framed: FramePoll)
      requires Valid()
      modifies buffer
      ensures buffer.Valid(config.mode) && buffer.Linear()
      ensures |buffer.bytes| <= |old(buffer.bytes)| && (!framed.NeedMore? ==> |buffer.bytes| < |old(buffer.bytes)|)
      ensures framed.NeedMore? ==> Valid()
      ensures framed.NeedMore? ==> if state.Eof? then buffer.Contents() == NOTHING else Quiet(config.mode, buffer.Contents())
      ensures !framed.NeedMore? && (state.Body? || state.Eof?) ==>
        var s := Summarize(config, run);
        var frames := s.current.frames + [framed];
        && s.phase.Reading? && frames <= BodyFrames(config.mode, s.current.got, s.current.ended)
        && (framed.Done? ||
            if state.Eof? then Accounts(config.mode, s.current.got, frames, buffer.Contents(), [], true)
            else Tracks(config.mode, bomPending, s.current.got, frames, buffer.Contents()))
      ensures !state.Body? && !state.Eof? ==> framed.NeedMore? && Drained()
    {
      hide Faithful, Summarize, Items, OnCourse;
      hide Frames, Tracks, Accounts, BodyFrames, Quiet, MayBecomeBom;
      ghost var s, before := Summarize(config, run), buffer.Contents();
      QuietNothing(config.mode);
      if state.Body? && bomPending {
        PendingBomHoldsAll(config.mode, s.current.got, s.current.frames, before);
        MayBecomeBomIsQuiet(config.mode, s.current.got);
      }
      framed := buffer.NextFrame(config.mode, state.Eof?);
      if state.Body? || state.Eof? {
        FrameHandled(config.mode, bomPending, s.current, before, framed, buffer.Contents(), state.Eof?);
      }
      assert s.current.frames + [] == s.current.frames;
    }

    /** Apply what a frame carries and hand it to the caller. */
    method Deliver(framed: FramePoll) returns (flow: Flow)
      requires !framed.NeedMore? && (state.Body? || state.Eof?)
      requires buffer.Valid(config.mode) && buffer.Linear() && Faithful(config, run)
      requires var s := Summarize(config, run);
               && Remembers(s) && FitsPhase(s) && OnCourse(total, config, s, state, answers)
               && MayFollow(config, s, Framed(framed, framed.Item? && config.decodes(framed.payload)))
               && s.current.ended == state.Eof?
               && var frames := s.current.frames + [framed];
                  framed.Done? ||
                  if state.Eof? then Accounts(config.mode, s.current.got, frames, buffer.Contents(), [], true)
                  else Tracks(config.mode, bomPending, s.current.got, frames, buffer.Contents())
      modifies this`state, this`lastEventId, this`reconnectDelay, this`attempt, this`run, buffer
      ensures Valid() && old(run) <= run
      ensures buffer.bytes == old(buffer.bytes) || buffer.bytes == []
      ensures flow.Return? ==> Items(run) == Items(old(run)) + ItemsYielded(flow.poll)
      ensures flow.Return? ==> flow.poll.Ready? && (state.Finished? <==> ItemsYielded(flow.poll) == [])
      ensures flow.Return? && state.Finished? ==> EndsWith(flow.poll)
      ensures flow.Again? ==> Items(run) == Items(old(run))
      ensures (state == old(state) && !state.Finished?) || (flow.Return? && state.Finished?)
      ensures !flow.Proceed?
    {
      hide Faithful, Summarize, Items, OnCourse;
      hide Tracks, Accounts, BodyFrames, Quiet, InProgress;
      hide StateEffort, StateDelay, AnswersEffort, AnswersDelay;
      QuietNothing(config.mode);
      var decoded := framed.Item? && config.decodes(framed.payload);
      ghost var s, e := Summarize(config, run), Framed(framed, decoded);
      CourseKeeps(total, config, s, state, answers, e);
      if framed.Done? {
        BodyStopsAtDone(config.mode, s.current.got, s.current.ended, After(s, e).current.frames);
        CourseSentinel(total, config, After(s, e), state, answers);
      }
      Note(framed, decoded);
      match framed
      case Item(payload, metadata) =>
        flow := Return(Ready(Some(if decoded then Decoded(payload) else DecodeError(payload))));
      case Metadata(_) =>
        flow := Again;
      case Done(_) =>
        state := Finished;
        buffer.Clear();
        flow := Return(Ready(None));
    }

    /** Remember the id and the delay a frame carries, and start counting attempts anew after a decoded item. */
    method Note(framed: FramePoll, decoded: bool)
      requires !framed.NeedMore? && Faithful(config, run) && Remembers(Summarize(config, run))
      requires MayFollow(config, Summarize(config, run), Framed(framed, decoded))
      modifies this`lastEventId, this`reconnectDelay, this`attempt, this`run
      ensures run == old(run) + [Framed(framed, decoded)] && Faithful(config, run)
      ensures Summarize(config, run) == After(Summarize(config, old(run)), Framed(framed, decoded))
      ensures Remembers(Summarize(config, run)) && Items(run) == Items(old(run)) + ItemsOf(Framed(framed, decoded))
    {
      hide Faithful, Summarize, Items, MayFollow;
      ApplyMetadata(framed.metadata);
      if decoded {
        attempt := 0;
      }
      Record(Framed(framed, decoded));
    }

    /** Once drained, every frame that what has arrived completes is out, and the buffer holds the item in progress. */
    lemma BodyWithinLimit()
      requires Valid() && Drained() && state.Body?
      ensures var s := Summarize(config, run);
              && s.current.frames == BodyFrames(config.mode, s.current.got, false) && !AtSentinel(s.current.frames)
              && buffer.bytes == InProgress(config.mode, s.current.got) && |InProgress(config.mode, s.current.got)| <= config.maxFrame
    {
      hide Faithful, Summarize, OnCourse;
      hide Tracks, BodyFrames, Quiet, InProgress;
      var s := Summarize(config, run);
      QuietAccounts(config.mode, bomPending, s.current.got, s.current.frames, buffer.Contents());
    }

    /** Ask the body for a chunk. */
    method PollBody() returns (flow: Flow)
      requires Valid() && Drained() && state.Body?
      modifies this`state, this`bomPending, this`attempt, this`answers, this`run, buffer
      ensures Valid() && old(run) + [Polled(|old(buffer.bytes)|)] <= run
      ensures Items(run) == Items(old(run))
      ensures (flow.Again? && !state.Finished?) || (flow.Return? && ItemsYielded(flow.poll) == [])
      ensures flow.Return? ==>
        if flow.poll.NotReady? then !state.Finished? && Delay() < old(Delay())
        else state.Finished? && EndsWith(flow.poll)
      ensures Effort() < old(Effort()) && Delay() <= old(Delay())
    {
      hide Faithful, Summarize, Items, OnCourse;
      hide Tracks, Accounts, BodyFrames, Quiet, InProgress;
      hide AnswersEffort, AnswersDelay;
      hide EventStream.EndsWith;
      hide EventStream.Valid;
      AskBody();
      var steps := state.steps;
      if steps == [] {
        EndBody();
        return Again;
      }
      match steps[0]
      case NotYet =>
        Skip();
        flow := Return(NotReady);
      case Chunk(chunk) =>
        Take();
        flow := Again;
      case Fail =>
        flow := Interrupt();
    }

    /** The body is only asked once every complete frame is out and what is left is within the limit. */
    ghost method AskBody()
      requires Valid() && Drained() && state.Body?
      modifies this`run
      ensures Valid() && Summarize(config, run).phase.Awaiting?
      ensures run == old(run) + [Polled(|buffer.bytes|)] && Items(run) == Items(old(run))
    {
      hide Faithful, Summarize, Items, OnCourse;
      hide Tracks, BodyFrames, Quiet, InProgress;
      var s, e := Summarize(config, run), Polled(|buffer.bytes|);
      BodyWithinLimit();
      CourseKeeps(total, config, s, state, answers, e);
      Record(e);
    }

    /** The body ended. */
    method EndBody()
      requires Valid() && state == Body([]) && Summarize(config, run).phase.Awaiting?
      modifies this`state, this`run
      ensures Valid() && state.Eof? && run == old(run) + [Ended] && Items(run) == Items(old(run))
    {
      hide Faithful, Summarize, Items, OnCourse;
      hide Tracks, Accounts, BodyFrames, Quiet, InProgress;
      ghost var s := Summarize(config, run);
      TracksNow(config.mode, bomPending, s.current.got, s.current.frames, buffer.Contents(), true);
      BodyWithinLimit();
      CourseReads(total, config, s, [], answers);
      Record(Ended);
      state := Eof;
    }

    /** The body has nothing yet. */
    method Skip()
      requires Valid() && state.Body? && state.steps != [] && state.steps[0].NotYet?
      requires Summarize(config, run).phase.Awaiting?
      modifies this`state
      ensures Valid() && state == Body(old(state.steps)[1..])
    {
      hide Faithful, Summarize, Items, OnCourse;
      hide Tracks, Quiet, InProgress;
      BodyWithinLimit();
      CourseReads(total, config, Summarize(config, run), state.steps, answers);
      state := Body(state.steps[1..]);
    }

    /** The body failed partway. */
    method Interrupt() returns (flow: Flow)
      requires Valid() && Drained() && state.Body? && state.steps != [] && state.steps[0].Fail?
      requires Summarize(config, run).phase.Awaiting?
      modifies this`state, this`attempt, this`answers, this`run, buffer
      ensures Valid() && old(run) <= run
      ensures Items(run) == Items(old(run))
      ensures (flow.Again? && !state.Finished?)
           || (flow == Return(FailedWith(InterruptedBody)) && state.Finished? && EndsWith(flow.poll))
      ensures Effort() < old(Effort()) && Delay() <= old(Delay())
    {
      hide Faithful, Summarize, Items, OnCourse;
      hide Tracks, Accounts, BodyFrames, Quiet, InProgress;
      hide AskCourse;
      hide AnswersEffort, AnswersDelay;
      ghost var s := Summarize(config, run);
      BodyWithinLimit();
      CourseReads(total, config, s, state.steps, answers);
      Record(Closed(false));
      var error := ScheduleReconnect(Some(InterruptedBody));
      flow := if error.Some? then Return(Ready(Some(Failed(error.value)))) else Again;
    }

    /** Take the next chunk off the body. */
    method Take()
      requires Valid() && state.Body? && state.steps != [] && state.steps[0].Chunk?
      requires Summarize(config, run).phase.Awaiting?
      modifies this`state, this`bomPending, this`run, buffer
      ensures Valid() && run == old(run) + [Received(old(state.steps)[0].bytes)] && Items(run) == Items(old(run))
      ensures state == Body(old(state.steps)[1..])
      ensures |buffer.bytes| <= |old(buffer.bytes)| + |old(state.steps)[0].bytes|
    {
      hide Faithful, Summarize, Items, OnCourse;
      hide Tracks, BodyFrames, Quiet, InProgress;
      var steps := state.steps;
      ghost var s := Summarize(config, run);
      BodyWithinLimit();
      CourseReads(total, config, s, steps, answers);
      state := Body(steps[1..]);
      Fill(steps[0].bytes, s.current);
      Record(Received(steps[0].bytes));
    }

    /** Add a chunk to the buffer, stripping a byte order mark that opens the body. */
    method Fill(chunk: Bytes, ghost connection: Connection)
      requires buffer.Valid(config.mode) && buffer.Linear()
      requires Tracks(config.mode, bomPending, connection.got, connection.frames, buffer.Contents())
      modifies this`bomPending, buffer
      ensures buffer.Valid(config.mode) && buffer.Linear()
      ensures Tracks(config.mode, bomPending, connection.got + chunk, connection.frames, buffer.Contents())
      ensures |buffer.bytes| <= |old(buffer.bytes)| + |chunk|
    {
      hide Tracks;
      ghost var before := buffer.Contents();
      buffer.ExtendFromSlice(chunk);
      if bomPending {
        PendingBomHoldsAll(config.mode, connection.got, connection.frames, before);
        bomPending := buffer.StripLeadingBom();
        TracksStrip(config.mode, connection.got + chunk);
      } else {
        TracksChunk(config.mode, connection.got, connection.frames, before, chunk);
      }
    }

    /** The body ended and its tail is out. */
    method PollEof() returns (flow: Flow)
      requires Valid() && Drained() && state.Eof?
      modifies this`state, this`attempt, this`answers, this`run, buffer
      ensures Valid() && old(run) + [Closed(true)] <= run && Items(run) == Items(old(run))
      ensures (flow.Again? && !state.Finished?)
           || (flow == Return(Ready(None)) && state.Finished? && EndsWith(flow.poll))
      ensures Effort() < old(Effort()) && Delay() <= old(Delay())
    {
      hide Faithful, Summarize, Items, OnCourse;
      hide Tracks, Accounts, BodyFrames, Quiet, InProgress;
      hide AskCourse;
      hide AnswersEffort, AnswersDelay;
      ghost var s := Summarize(config, run);
      NothingAccounts(config.mode, s.current.got, s.current.frames);
      QuietNothing(config.mode);
      CourseCloses(total, config, s, answers);
      Record(Closed(true));
      var error := ScheduleReconnect(None);
      flow := if state.Finished? then Return(Ready(None)) else Again;
    }

    /** Wait until the next attempt, then send the request again. */
    method PollWaiting() returns (flow: Flow)
      requires Valid() && Drained() && state.Waiting?
      modifies this`state, this`run
      ensures Valid() && Items(run) == Items(old(run))
      ensures if old(state).waits > 0 then
                flow == Return(NotReady) && state == old(state).(waits := old(state).waits - 1) && run == old(run)
              else if !old(state).cloneable then
                && flow == Return(FailedWith(NotCloneable)) && state.Finished? && run == old(run)
                && EndsWith(flow.poll)
              else
                && flow.Again? && state == Connecting(old(state).connects, old(state).result)
                && run == old(run) + [Requested(ReplayHeader(config, lastEventId))]
      ensures Effort() < old(Effort()) && Delay() <= old(Delay()) && (flow == Return(NotReady) ==> Delay() < old(Delay()))
    {
      hide Faithful, Items, OnCourse;
      hide Quiet;
      hide StepsEffort, AnswersEffort, StepsDelay, AnswersDelay;
      ghost var s := Summarize(config, run);
      assert run != [];
      RunLedTo(config, run);
      hide Summarize;
      if state.waits > 0 {
        CourseWaits(total, config, s, state, state.waits - 1, answers);
        state := state.(waits := state.waits - 1);
        return Return(NotReady);
      }
      CourseRequests(total, config, s, state, ReplayHeader(config, lastEventId), answers);
      if !state.cloneable {
        state := Finished;
        return Return(Ready(Some(Failed(NotCloneable))));
      }
      Record(Requested(ReplayHeader(config, lastEventId)));
      state := Connecting(state.connects, state.result);
      flow := Again;
    }

    /** The response of a reconnect arrived: its body is a connection of its own. */
    method OpenBody()
      requires Valid() && state.Connecting? && state.outcome.Connected?
      modifies this`state, this`bomPending, this`run
      ensures Valid() && Items(run) == Items(old(run)) && run == old(run) + [Opened]
      ensures state == Body(old(state).outcome.body) && bomPending == IsSse(config.mode)
    {
      hide Faithful, Summarize, Items, OnCourse;
      hide Tracks, Quiet, InProgress;
      TracksStart(config.mode);
      CourseConnects(total, config, Summarize(config, run), state, answers);
      Record(Opened);
      bomPending := IsSse(config.mode);
      state := Body(state.outcome.body);
    }

    /** Wait for the response of a reconnect. */
    method PollConnecting() returns (flow: Flow)
      requires Valid() && Drained() && state.Connecting?
      modifies this`state, this`bomPending, this`attempt, this`answers, this`run, buffer
      ensures Valid() && Items(run) == Items(old(run))
      ensures if old(state).polls > 0 then
                flow == Return(NotReady) && state == old(state).(polls := old(state).polls - 1) && run == old(run)
              else if old(state).outcome.Connected? then
                && flow.Again? && state == Body(old(state).outcome.body) && bomPending == IsSse(config.mode)
                && run == old(run) + [Opened]
              else
                && run == old(run) + [Asked(old(attempt), reconnectDelay, state.Waiting?)]
                && if state.Waiting? then flow.Again?
                   else
                     && flow == Return(FailedWith(ConnectFailed)) && state.Finished?
                     && EndsWith(flow.poll)
      ensures Effort() < old(Effort()) && Delay() <= old(Delay()) && (flow == Return(NotReady) ==> Delay() < old(Delay()))
    {
      hide Faithful, Items, OnCourse, AskCourse;
      hide Tracks, Quiet, InProgress;
      hide StepsEffort, AnswersEffort, StepsDelay, AnswersDelay;
      ghost var s := Summarize(config, run);
      assert run != [];
      RunLedTo(config, run);
      hide Summarize;
      if state.polls > 0 {
        CourseWaits(total, config, s, state, state.polls - 1, answers);
        state := state.(polls := state.polls - 1);
        return Return(NotReady);
      }
      match state.outcome
      case Connected(body) =>
        OpenBody();
        flow := Again;
      case Refused =>
        CourseConnects(total, config, s, state, answers);
        var error := ScheduleReconnect(Some(ConnectFailed));
        flow := if error.Some? then Return(Ready(Some(Failed(error.value)))) else Again;
    }

    /**
     * Yield the next item, or `None` once the stream has ended. Every poll does some of what is left
     * to do, and one that is not ready met something that was not.
     */
    method PollNext() returns (poll: Poll)
      requires Valid()
      modifies this`state, this`bomPending, this`lastEventId, this`reconnectDelay, this`attempt, this`answers, this`run, buffer
      ensures Valid() && old(run) <= run
      ensures Items(run) == Items(old(run)) + ItemsYielded(poll)
      ensures state.Finished? <==> poll.Ready? && ItemsYielded(poll) == []
      ensures state.Finished? && !old(state).Finished? ==> EndsWith(poll)
      ensures old(state).Finished? ==> poll == Ready(None) && run == old(run)
      ensures !old(state).Finished? ==> Effort() < old(Effort())
      ensures Delay() <= old(Delay()) && (poll.NotReady? ==> Delay() < old(Delay()))
    {
      hide Faithful, Summarize, Items, OnCourse;
      hide Tracks, Accounts, BodyFrames, Quiet, InProgress;
      hide AnswersEffort, AnswersDelay, StateEffort, StateDelay;
      hide EventStream.EndsWith;
      hide EventStream.Valid;
      while true
        invariant Valid() && old(run) <= run
        invariant Items(run) == Items(old(run))
        invariant old(state).Finished? <==> state.Finished?
        invariant old(state).Finished? ==> run == old(run)
        invariant Effort() <= old(Effort()) && Delay() <= old(Delay())
        decreases Effort()
      {
        var flow := FrameStep();
        if flow.Proceed? {
          match state
          case Body(_) => flow := PollBody();
          case Eof => flow := PollEof();
          case Waiting(_, _, _, _) => flow := PollWaiting();
          case Connecting(_, _) => flow := PollConnecting();
          case Finished => return Ready(None);
        }
        if flow.Return? {
          return flow.poll;
        }
      }
    }
  }
}
