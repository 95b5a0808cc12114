/** What a stream yields over its whole life, told from the bodies it is given and the answers it gets. */
module StreamLaws {
  import opened Sequences
  import opened Framing
  import opened Runs
  import opened FramingLaws
  import opened Scripts
  import opened EventStreams

  // ----- What a stream hands over on its way -----

  /** The frames that what has arrived completes are the first of those to come, whatever comes. */
  lemma {:induction false} OutlookExtends(c: Config, got: Bytes, steps: seq<BodyStep>, answers: seq<Answer>)
    ensures BodyFrames(c.mode, got, false) <= BodyOutlook(c, got, steps, answers).frames
    decreases |steps|
  {
    hide BodyFrames, InProgress, AskOutlook;
    assert got + [] == got;
    FramesStand(c.mode, got, [], true);
    if steps != [] {
      match steps[0]
      case Chunk(bytes) =>
        FramesStand(c.mode, got, bytes, false);
        OutlookExtends(c, got + bytes, steps[1..], answers);
      case NotYet => OutlookExtends(c, got, steps[1..], answers);
      case Fail =>
    }
  }

  /** At every point a stream has handed over the first of the frames that it is to hand over. */
  lemma CourseIsPrefix(total: Outlook, c: Config, s: Summary, state: StreamState, answers: seq<Answer>)
    requires OnCourse(total, c, s, state, answers) && FramesItsBytes(c, s.current)
    requires (state.Body? ==> !s.current.ended) && (state.Eof? ==> s.current.ended)
    ensures AllFrames(Connections(s)) <= total.frames
  {
    AllFramesLast(s.earlier, s.current);
    if state.Body? {
      OutlookExtends(c, s.current.got, state.steps, answers);
    }
    hide BodyFrames, AllFrames, BodyOutlook, AskOutlook, AcceptOutlook, ConnectOutlook;
  }

  // ----- Bodies read whole -----

  /** The bytes of a body's first steps. */
  function Arrived(steps: seq<BodyStep>): Bytes {
    if steps == [] then [] else (if steps[0].Chunk? then steps[0].bytes else []) + Arrived(steps[1..])
  }

  /** The first `k` steps leave an item in progress that is longer than the limit, before the sentinel and any failure. */
  predicate CutIsLong(c: Config, got: Bytes, steps: seq<BodyStep>, k: nat)
    requires k <= |steps|
  {
    && Fail !in steps[..k]
    && |InProgress(c.mode, got + Arrived(steps[..k]))| > c.maxFrame
    && !AtSentinel(BodyFrames(c.mode, got + Arrived(steps[..k]), false))
  }

  /** Some chunk of a body leaves too long an item in progress. */
  predicate IsLongFrom(c: Config, got: Bytes, steps: seq<BodyStep>) {
    exists k :: 0 <= k <= |steps| && CutIsLong(c, got, steps, k)
  }

  predicate IsLong(c: Config, body: seq<BodyStep>) {
    IsLongFrom(c, [], body)
  }

  /** The frame that ends a stream is in what has arrived once it is in what has arrived of it before. */
  lemma SentinelStands(mode: FramingMode, got: Bytes, more: Bytes, ended: bool)
    requires AtSentinel(BodyFrames(mode, got, false))
    ensures BodyFrames(mode, got + more, ended) == BodyFrames(mode, got, false)
  {
    hide BodyFrames;
    FramesStand(mode, got, more, ended);
    BodyStopsAtDone(mode, got + more, ended, BodyFrames(mode, got, false));
  }

  lemma LaterCut(c: Config, got: Bytes, steps: seq<BodyStep>, k: nat)
    requires steps != [] && 1 <= k <= |steps|
    ensures CutIsLong(c, got, steps, k) <==>
            !steps[0].Fail? && CutIsLong(c, got + (if steps[0].Chunk? then steps[0].bytes else []), steps[1..], k - 1)
  {
    hide BodyFrames, InProgress;
    var first, rest := if steps[0].Chunk? then steps[0].bytes else [], steps[1..];
    assert steps[..k][1..] == rest[..k - 1] && steps[..k][0] == steps[0];
    assert steps[..k] == [steps[0]] + rest[..k - 1];
    assert got + (first + Arrived(rest[..k - 1])) == got + first + Arrived(rest[..k - 1]);
  }

  lemma FirstCut(c: Config, got: Bytes, steps: seq<BodyStep>)
    ensures CutIsLong(c, got, steps, 0) <==>
            |InProgress(c.mode, got)| > c.maxFrame && !AtSentinel(BodyFrames(c.mode, got, false))
  {
    hide BodyFrames, InProgress;
    assert steps[..0] == [] && Arrived([]) == [] && got + [] == got;
  }

  lemma LongLater(c: Config, got: Bytes, steps: seq<BodyStep>)
    requires steps != [] && !CutIsLong(c, got, steps, 0)
    ensures IsLongFrom(c, got, steps) <==>
            !steps[0].Fail? && IsLongFrom(c, got + (if steps[0].Chunk? then steps[0].bytes else []), steps[1..])
  {
    var after := got + (if steps[0].Chunk? then steps[0].bytes else []);
    forall k | 1 <= k <= |steps|
      ensures CutIsLong(c, got, steps, k) <==> !steps[0].Fail? && CutIsLong(c, after, steps[1..], k - 1)
    {
      LaterCut(c, got, steps, k);
    }
    hide CutIsLong;
    if !steps[0].Fail? && IsLongFrom(c, after, steps[1..]) {
      var k :| 0 <= k <= |steps[1..]| && CutIsLong(c, after, steps[1..], k);
      assert CutIsLong(c, got, steps, k + 1);
    }
    if IsLongFrom(c, got, steps) {
      var k :| 0 <= k <= |steps| && CutIsLong(c, got, steps, k);
      assert CutIsLong(c, after, steps[1..], k - 1);
    }
  }

  lemma {:induction false} NoCutBehindSentinel(c: Config, got: Bytes, steps: seq<BodyStep>)
    requires AtSentinel(BodyFrames(c.mode, got, false))
    ensures !IsLongFrom(c, got, steps)
  {
    hide BodyFrames, InProgress;
    forall k | 0 <= k <= |steps|
      ensures !CutIsLong(c, got, steps, k)
    {
      SentinelStands(c.mode, got, Arrived(steps[..k]), false);
    }
  }

  /**
   * A body some chunk of which leaves too long an item ends the stream for that; any other counts as
   * if it were read whole, however it is cut.
   */
  lemma {:induction false} BodyReadsWhole(c: Config, got: Bytes, steps: seq<BodyStep>, answers: seq<Answer>)
    ensures var sent, o := Sent(steps), BodyOutlook(c, got, steps, answers);
            if IsLongFrom(c, got, steps) then IsOverflow(o.ending) else o == CloseOutlook(c, got + sent.bytes, sent.clean, answers)
    decreases |steps|
  {
    hide BodyFrames, InProgress, AskOutlook, IsLongFrom, CutIsLong;
    var sent := Sent(steps);
    assert got + [] == got;
    FirstCut(c, got, steps);
    if AtSentinel(BodyFrames(c.mode, got, false)) {
      NoCutBehindSentinel(c, got, steps);
      SentinelStands(c.mode, got, sent.bytes, sent.clean);
    } else if |InProgress(c.mode, got)| > c.maxFrame {
      OneCutIsLong(c, got, steps);
    } else if steps == [] {
      NoOtherCut(c, got);
    } else {
      LongLater(c, got, steps);
      match steps[0]
      case Chunk(bytes) =>
        BodyReadsWhole(c, got + bytes, steps[1..], answers);
        assert got + (bytes + Sent(steps[1..]).bytes) == got + bytes + Sent(steps[1..]).bytes;
      case NotYet => BodyReadsWhole(c, got, steps[1..], answers);
      case Fail =>
    }
  }

  lemma OneCutIsLong(c: Config, got: Bytes, steps: seq<BodyStep>)
    requires CutIsLong(c, got, steps, 0)
    ensures IsLongFrom(c, got, steps)
  {
  }

  lemma NoOtherCut(c: Config, got: Bytes)
    requires !CutIsLong(c, got, [], 0)
    ensures !IsLongFrom(c, got, [])
  {
  }

  // ----- When a stream overflows -----

  /** The frames of all that a body sends. */
  function WholeFrames(mode: FramingMode, body: seq<BodyStep>): seq<FramePoll> {
    BodyFrames(mode, Sent(body).bytes, Sent(body).clean)
  }

  /** Some body is too long somewhere, and none before it ends the stream. */
  predicate OverflowsIn(c: Config, bodies: seq<seq<BodyStep>>) {
    exists i :: 0 <= i < |bodies| && IsLong(c, bodies[i]) && NoneEnds(c, bodies[..i])
  }

  predicate NoneEnds(c: Config, bodies: seq<seq<BodyStep>>) {
    forall j :: 0 <= j < |bodies| ==> !AtSentinel(WholeFrames(c.mode, bodies[j]))
  }

  lemma OverflowsInCons(c: Config, body: seq<BodyStep>, bodies: seq<seq<BodyStep>>)
    ensures OverflowsIn(c, [body] + bodies)
            <==> IsLong(c, body) || (!AtSentinel(WholeFrames(c.mode, body)) && OverflowsIn(c, bodies))
  {
    hide IsLong, WholeFrames;
    var all := [body] + bodies;
    if IsLong(c, body) {
      assert all[0] == body && NoneEnds(c, all[..0]);
    } else if !AtSentinel(WholeFrames(c.mode, body)) && OverflowsIn(c, bodies) {
      var i :| 0 <= i < |bodies| && IsLong(c, bodies[i]) && NoneEnds(c, bodies[..i]);
      assert all[i + 1] == bodies[i];
      assert all[..i + 1] == [body] + bodies[..i];
      assert NoneEnds(c, all[..i + 1]);
    }
    if OverflowsIn(c, all) && !IsLong(c, body) {
      var i :| 0 <= i < |all| && IsLong(c, all[i]) && NoneEnds(c, all[..i]);
      assert all[i] == bodies[i - 1] && all[..i][0] == body;
      assert bodies[..i - 1] == all[..i][1..];
      assert NoneEnds(c, bodies[..i - 1]);
    }
  }

  /** Whether the policy's first answer leads to another attempt. */
  predicate Attempts(c: Config, answers: seq<Answer>) {
    c.reconnect.WithPolicy? && answers != [] && answers[0].Accept? && answers[0].cloneable
  }

  /** What the policy's first answer leads to. */
  lemma AskUnfolds(c: Config, refusal: Poll, answers: seq<Answer>)
    ensures !Attempts(c, answers) ==>
              var o := AskOutlook(c, refusal, answers);
              o.frames == [] && (o.ending == refusal || o.ending == FailedWith(NotCloneable)) && Future(c.reconnect, answers) == []
    ensures Attempts(c, answers) ==>
              var rest := answers[1..];
              match answers[0].result
              case Connected(body) =>
                && AskOutlook(c, refusal, answers) == BodyOutlook(c, [], body, rest)
                && Future(c.reconnect, answers) == [body] + Future(c.reconnect, rest)
              case Refused =>
                && AskOutlook(c, refusal, answers) == AskOutlook(c, FailedWith(ConnectFailed), rest)
                && Future(c.reconnect, answers) == Future(c.reconnect, rest)
  {
    hide BodyOutlook;
    if c.reconnect.WithPolicy? && answers != [] && answers[0].Accept? {
      var cloneable, result, rest := answers[0].cloneable, answers[0].result, answers[1..];
      assert AskOutlook(c, refusal, answers) == AcceptOutlook(c, cloneable, result, rest);
      assert Coming(answers) == Promised(cloneable, result, rest);
      if cloneable {
        assert AcceptOutlook(c, cloneable, result, rest) == ConnectOutlook(c, result, rest);
      }
    }
  }

  lemma BodyOverflows(c: Config, body: seq<BodyStep>, answers: seq<Answer>)
    requires forall clean :: IsOverflow(AskOutlook(c, AfterClose(clean), answers).ending) <==> OverflowsIn(c, Future(c.reconnect, answers))
    ensures IsOverflow(BodyOutlook(c, [], body, answers).ending) <==> OverflowsIn(c, [body] + Future(c.reconnect, answers))
  {
    hide BodyFrames, InProgress, AskOutlook, OverflowsIn, BodyOutlook;
    var sent := Sent(body);
    BodyReadsWhole(c, [], body, answers);
    OverflowsInCons(c, body, Future(c.reconnect, answers));
    assert [] + sent.bytes == sent.bytes;
    assert IsOverflow(AskOutlook(c, AfterClose(sent.clean), answers).ending) <==> OverflowsIn(c, Future(c.reconnect, answers));
  }

  lemma {:induction false} AskOverflows(c: Config, refusal: Poll, answers: seq<Answer>)
    requires !IsOverflow(refusal)
    ensures IsOverflow(AskOutlook(c, refusal, answers).ending) <==> OverflowsIn(c, Future(c.reconnect, answers))
    decreases |answers|
  {
    hide OverflowsIn, BodyOutlook, AskOutlook, Future;
    NoneOverflows(c);
    AskUnfolds(c, refusal, answers);
    if Attempts(c, answers) {
      var rest := answers[1..];
      match answers[0].result
      case Connected(body) =>
        forall clean
          ensures IsOverflow(AskOutlook(c, AfterClose(clean), rest).ending) <==> OverflowsIn(c, Future(c.reconnect, rest))
        {
          AskOverflows(c, AfterClose(clean), rest);
        }
        BodyOverflows(c, body, rest);
      case Refused => AskOverflows(c, FailedWith(ConnectFailed), rest);
    }
  }

  lemma NoneOverflows(c: Config)
    ensures !OverflowsIn(c, [])
  {
  }

  /**
   * A stream ends for its limit exactly when, before the frame that ends a stream, some chunk of some
   * body leaves more than the limit in progress.
   */
  lemma StreamOverflowsExactly(c: Config, body: seq<BodyStep>, answers: seq<Answer>)
    ensures IsOverflow(StreamOutlook(c, body, answers).ending) <==> OverflowsIn(c, Bodies(c.reconnect, body, answers))
  {
    hide OverflowsIn, BodyOutlook, AskOutlook;
    forall clean
      ensures IsOverflow(AskOutlook(c, AfterClose(clean), answers).ending) <==> OverflowsIn(c, Future(c.reconnect, answers))
    {
      AskOverflows(c, AfterClose(clean), answers);
    }
    BodyOverflows(c, body, answers);
  }

  // ----- What a stream hands over -----

  /** The frames of everything that the bodies send. */
  function Delivered(mode: FramingMode, bodies: seq<seq<BodyStep>>): seq<FramePoll> {
    if bodies == [] then [] else WholeFrames(mode, bodies[0]) + Delivered(mode, bodies[1..])
  }

  /** The same, up to the frame that ends the stream. */
  function Expected(mode: FramingMode, bodies: seq<seq<BodyStep>>): seq<FramePoll> {
    UpToDone(Delivered(mode, bodies))
  }

  lemma {:induction false} UpToDoneStops(frames: seq<FramePoll>, more: seq<FramePoll>)
    requires UpToDone(frames) == frames && AtSentinel(frames)
    ensures UpToDone(frames + more) == frames
  {
    var whole := frames + more;
    if frames[0].Done? {
      assert frames == UpToDone(frames) == [frames[0]];
    } else {
      var rest := frames[1..];
      assert whole[1..] == rest + more;
      assert ([frames[0]] + UpToDone(rest))[1..] == UpToDone(rest);
      UpToDoneStops(rest, more);
      assert [frames[0]] + rest == frames;
    }
  }

  /** A closed body and what follows it. */
  lemma CloseDelivers(c: Config, body: seq<BodyStep>, answers: seq<Answer>)
    requires AskOutlook(c, AfterClose(Sent(body).clean), answers).frames == Expected(c.mode, Future(c.reconnect, answers))
    ensures CloseOutlook(c, Sent(body).bytes, Sent(body).clean, answers).frames
         == Expected(c.mode, [body] + Future(c.reconnect, answers))
  {
    hide BodyFrames, AskOutlook;
    var frames, future := WholeFrames(c.mode, body), Future(c.reconnect, answers);
    BodyFramesEndThere(c.mode, Sent(body).bytes, Sent(body).clean);
    assert ([body] + future)[1..] == future;
    if AtSentinel(frames) {
      UpToDoneStops(frames, Delivered(c.mode, future));
    } else {
      NoDoneBeforeEnd(frames);
      UpToDoneWithout(frames, Delivered(c.mode, future));
    }
  }

  lemma {:induction false} AskDelivers(c: Config, refusal: Poll, answers: seq<Answer>)
    requires !IsOverflow(refusal) && NoneIsLong(c, Future(c.reconnect, answers))
    ensures AskOutlook(c, refusal, answers).frames == Expected(c.mode, Future(c.reconnect, answers))
    decreases |answers|
  {
    hide BodyOutlook, AskOutlook, IsLong, Future, Delivered;
    NothingDelivered(c.mode);
    AskUnfolds(c, refusal, answers);
    if Attempts(c, answers) {
      var rest := answers[1..];
      match answers[0].result
      case Connected(body) =>
        var bodies, future := [body] + Future(c.reconnect, rest), Future(c.reconnect, rest);
        assert bodies[0] == body && forall i :: 0 <= i < |future| ==> future[i] == bodies[i + 1];
        AskDelivers(c, AfterClose(Sent(body).clean), rest);
        BodyDelivers(c, body, rest);
      case Refused => AskDelivers(c, FailedWith(ConnectFailed), rest);
    }
  }

  lemma NothingDelivered(mode: FramingMode)
    ensures Expected(mode, []) == []
  {
  }

  lemma BodyDelivers(c: Config, body: seq<BodyStep>, answers: seq<Answer>)
    requires AskOutlook(c, AfterClose(Sent(body).clean), answers).frames == Expected(c.mode, Future(c.reconnect, answers))
    requires !IsLong(c, body)
    ensures BodyOutlook(c, [], body, answers).frames == Expected(c.mode, [body] + Future(c.reconnect, answers))
  {
    hide BodyOutlook, CloseOutlook, AskOutlook, Expected, IsLongFrom;
    BodyReadsWhole(c, [], body, answers);
    assert [] + Sent(body).bytes == Sent(body).bytes;
    CloseDelivers(c, body, answers);
  }

  predicate NoneIsLong(c: Config, bodies: seq<seq<BodyStep>>) {
    forall i :: 0 <= i < |bodies| ==> !IsLong(c, bodies[i])
  }

  /** Where no chunk leaves too long an item, a stream hands over all the frames that its bodies send, up to the one that ends it. */
  lemma StreamDeliversAll(c: Config, body: seq<BodyStep>, answers: seq<Answer>)
    requires NoneIsLong(c, Bodies(c.reconnect, body, answers))
    ensures StreamOutlook(c, body, answers).frames == Expected(c.mode, Bodies(c.reconnect, body, answers))
    ensures !IsOverflow(StreamOutlook(c, body, answers).ending)
  {
    hide IsLong, BodyOutlook, AskOutlook, Expected, OverflowsIn;
    var bodies, future := Bodies(c.reconnect, body, answers), Future(c.reconnect, answers);
    assert bodies[0] == body;
    assert forall i :: 0 <= i < |future| ==> future[i] == bodies[i + 1];
    AskDelivers(c, AfterClose(Sent(body).clean), answers);
    BodyDelivers(c, body, answers);
    StreamOverflowsExactly(c, body, answers);
    NoneLongNoneOverflows(c, bodies);
  }

  lemma NoneLongNoneOverflows(c: Config, bodies: seq<seq<BodyStep>>)
    requires NoneIsLong(c, bodies)
    ensures !OverflowsIn(c, bodies)
  {
    hide IsLong;
  }

  /** No item of a body is longer than the limit, wherever the body is cut. */
  predicate HasShortItems(c: Config, body: seq<BodyStep>) {
    forall n :: 0 <= n <= |Sent(body).bytes| ==> |InProgress(c.mode, Sent(body).bytes[..n])| <= c.maxFrame
  }

  lemma {:induction false} ArrivedIsSent(steps: seq<BodyStep>, k: nat)
    requires k <= |steps| && Fail !in steps[..k]
    ensures Arrived(steps[..k]) <= Sent(steps).bytes
  {
    if k > 0 {
      var first, rest := steps[0], steps[1..];
      assert steps[..k] == [first] + rest[..k - 1];
      assert steps[..k][1..] == rest[..k - 1] && first in steps[..k];
      assert forall step :: step in rest[..k - 1] ==> step in steps[..k];
      ArrivedIsSent(rest, k - 1);
    } else {
      assert steps[..0] == [];
    }
  }

  /** However it is cut into chunks, such a body never passes the limit. */
  lemma ShortItemsFit(c: Config, body: seq<BodyStep>)
    requires HasShortItems(c, body)
    ensures !IsLong(c, body)
  {
    hide InProgress, BodyFrames;
    forall k | 0 <= k <= |body|
      ensures !CutIsLong(c, [], body, k)
    {
      if Fail !in body[..k] {
        var arrived := Arrived(body[..k]);
        ArrivedIsSent(body, k);
        assert Sent(body).bytes[..|arrived|] == arrived && [] + arrived == arrived;
      }
    }
  }

  /** Where no item is longer than the limit, nothing is lost to it, however the bodies are cut. */
  lemma ShortItemsAllArrive(c: Config, body: seq<BodyStep>, answers: seq<Answer>)
    requires forall i :: 0 <= i < |Bodies(c.reconnect, body, answers)| ==> HasShortItems(c, Bodies(c.reconnect, body, answers)[i])
    ensures StreamOutlook(c, body, answers).frames == Expected(c.mode, Bodies(c.reconnect, body, answers))
    ensures !IsOverflow(StreamOutlook(c, body, answers).ending)
  {
    hide HasShortItems, IsLong, StreamOutlook, Expected;
    var bodies := Bodies(c.reconnect, body, answers);
    forall i | 0 <= i < |bodies|
      ensures !IsLong(c, bodies[i])
    {
      ShortItemsFit(c, bodies[i]);
    }
    StreamDeliversAll(c, body, answers);
  }

  /** A stream that asks no policy is to hand over the frames of its one body. */
  lemma OneBody(c: Config, body: seq<BodyStep>, answers: seq<Answer>)
    requires !c.reconnect.WithPolicy? && !IsLong(c, body)
    ensures var sent, frames := Sent(body), WholeFrames(c.mode, body);
            StreamOutlook(c, body, answers)
            == Outlook(frames, if AtSentinel(frames) || sent.clean then Ready(None) else Ready(Some(Failed(InterruptedBody))))
  {
    hide BodyFrames, IsLongFrom;
    BodyReadsWhole(c, [], body, answers);
    var sent := Sent(body);
    assert [] + sent.bytes == sent.bytes;
    assert WholeFrames(c.mode, body) + [] == WholeFrames(c.mode, body);
    hide BodyOutlook;
  }

  // ----- How a stream ends -----

  /** The policy's answers up to the one at `k` each lead to another attempt; that one, if there is one, does not. */
  predicate StopsAt(answers: seq<Answer>, k: nat) {
    && k <= |answers| && (forall j :: 0 <= j < k ==> answers[j].Accept? && answers[j].cloneable)
    && (k < |answers| ==> answers[k].Decline? || !answers[k].cloneable)
  }

  /** What the caller is told of a body that ended, cleanly or not, and was not followed by another. */
  function EndOf(body: seq<BodyStep>): Poll {
    if Sent(body).clean then Ready(None) else Ready(Some(Failed(InterruptedBody)))
  }

  /** The last attempt says how the stream ends, unless its request cannot be sent again. */
  function LastWord(first: Poll, answers: seq<Answer>, k: nat): Poll
    requires StopsAt(answers, k)
  {
    if k < |answers| && answers[k].Accept? then Ready(Some(Failed(NotCloneable)))
    else if k == 0 then first
    else
      match answers[k - 1].result
      case Connected(body) => EndOf(body)
      case Refused => Ready(Some(Failed(ConnectFailed)))
  }

  /** No body is too long or reaches the frame that ends a stream. */
  predicate RunOut(c: Config, bodies: seq<seq<BodyStep>>) {
    forall i :: 0 <= i < |bodies| ==> !IsLong(c, bodies[i]) && !AtSentinel(WholeFrames(c.mode, bodies[i]))
  }

  lemma BodyRunsOut(c: Config, body: seq<BodyStep>, answers: seq<Answer>)
    requires !IsLong(c, body) && !AtSentinel(WholeFrames(c.mode, body))
    ensures BodyOutlook(c, [], body, answers).ending == AskOutlook(c, EndOf(body), answers).ending
  {
    hide BodyFrames, AskOutlook, IsLongFrom;
    BodyReadsWhole(c, [], body, answers);
    assert [] + Sent(body).bytes == Sent(body).bytes;
    hide BodyOutlook;
  }

  lemma {:induction false} AskEnds(c: Config, refusal: Poll, answers: seq<Answer>, k: nat)
    requires c.reconnect.WithPolicy? && StopsAt(answers, k) && RunOut(c, Future(c.reconnect, answers))
    ensures AskOutlook(c, refusal, answers).ending == LastWord(refusal, answers, k)
    decreases |answers|
  {
    if k == 0 {
      StopsAtOnce(c, refusal, answers);
    } else {
      AskUnfolds(c, refusal, answers);
      var rest := answers[1..];
      assert forall j :: 0 <= j < |rest| ==> rest[j] == answers[j + 1];
      hide AskOutlook, BodyOutlook, Future;
      match answers[0].result
      case Connected(body) =>
        var bodies := [body] + Future(c.reconnect, rest);
        assert bodies[0] == body && bodies[1..] == Future(c.reconnect, rest);
        RunsOutLater(c, body, Future(c.reconnect, rest));
        BodyRunsOut(c, body, rest);
        AskEnds(c, EndOf(body), rest, k - 1);
      case Refused => AskEnds(c, FailedWith(ConnectFailed), rest, k - 1);
    }
  }

  lemma StopsAtOnce(c: Config, refusal: Poll, answers: seq<Answer>)
    requires c.reconnect.WithPolicy? && StopsAt(answers, 0)
    ensures AskOutlook(c, refusal, answers).ending == LastWord(refusal, answers, 0)
  {
  }

  lemma RunsOutLater(c: Config, body: seq<BodyStep>, bodies: seq<seq<BodyStep>>)
    requires RunOut(c, [body] + bodies)
    ensures !IsLong(c, body) && !AtSentinel(WholeFrames(c.mode, body)) && RunOut(c, bodies)
  {
    hide IsLong, WholeFrames, AtSentinel;
    var all := [body] + bodies;
    assert all[0] == body;
    assert forall i :: 0 <= i < |bodies| ==> bodies[i] == all[i + 1];
  }

  /**
   * Where no body is too long or reaches the frame that ends a stream, the stream ends as its last attempt
   * does: quietly after a clean end, and otherwise with the failure, be it of the body, of the reconnect, or
   * of a request that cannot be sent again.
   */
  lemma StreamEndsAsLast(c: Config, body: seq<BodyStep>, answers: seq<Answer>, k: nat)
    requires c.reconnect.WithPolicy? && StopsAt(answers, k) && RunOut(c, Bodies(c.reconnect, body, answers))
    ensures StreamOutlook(c, body, answers).ending == LastWord(EndOf(body), answers, k)
  {
    hide AskOutlook, BodyOutlook, LastWord;
    RunsOutLater(c, body, Future(c.reconnect, answers));
    BodyRunsOut(c, body, answers);
    AskEnds(c, EndOf(body), answers, k);
  }

  // ----- Polling -----

  lemma {:induction false} ItemFramesKeep(c: Config, frames: seq<FramePoll>, more: seq<FramePoll>)
    requires frames <= more
    ensures ItemFrames(c, frames) <= ItemFrames(c, more)
    decreases |more|
  {
    if frames == more {
    } else {
      assert frames <= more[..|more| - 1];
      ItemFramesKeep(c, frames, more[..|more| - 1]);
    }
  }

  function ItemsOfPolls(polls: seq<Poll>): seq<(Payload, bool)> {
    if polls == [] then [] else ItemsOfPolls(polls[..|polls| - 1]) + ItemsYielded(polls[|polls| - 1])
  }

  lemma ItemsOfPollsPush(polls: seq<Poll>, poll: Poll)
    ensures ItemsOfPolls(polls + [poll]) == ItemsOfPolls(polls) + ItemsYielded(poll)
  {
    assert (polls + [poll])[..|polls|] == polls;
  }

  /** How many polls found that something was not ready. */
  function NotReadies(polls: seq<Poll>): nat {
    if polls == [] then 0 else NotReadies(polls[..|polls| - 1]) + if polls[|polls| - 1].NotReady? then 1 else 0
  }

  lemma NotReadiesPush(polls: seq<Poll>, poll: Poll)
    ensures NotReadies(polls + [poll]) == NotReadies(polls) + if poll.NotReady? then 1 else 0
  {
    assert (polls + [poll])[..|polls|] == polls;
  }

  /** A run that ended for its limit says so in its last event, and the item in progress was too long. */
  lemma {:induction false} LimitedIsLong(c: Config, run: seq<Event>)
    requires Faithful(c, run) && Summarize(c, run).phase.Limited?
    ensures run != [] && run[|run| - 1].Overflowed? && |InProgress(c.mode, Summarize(c, run).current.got)| > c.maxFrame
  {
    hide BodyFrames, InProgress;
  }

  /** `ending` is the first poll that ended the stream, and behind it there is nothing. */
  predicate EndsIn(polls: seq<Poll>, ending: Poll) {
    exists n :: 0 <= n < |polls| && EndsAt(polls, ending, n)
  }

  predicate IsLast(poll: Poll) {
    poll.Ready? && ItemsYielded(poll) == []
  }

  predicate EndsAt(polls: seq<Poll>, ending: Poll, n: nat)
    requires n < |polls|
  {
    && polls[n] == ending
    && (forall i :: 0 <= i < n ==> !IsLast(polls[i]))
    && (forall i :: n < i < |polls| ==> polls[i] == Ready(None))
  }

  /** What the polls of a stream have yielded so far of what it is to yield. */
  ghost predicate Yields(stream: EventStream, polls: seq<Poll>)
    reads stream, stream.buffer
  {
    && stream.Valid()
    && ItemsOfPolls(polls) == Items(stream.run)
    && (if stream.state.Finished? then EndsIn(polls, stream.total.ending) else NotEnded(polls))
  }

  predicate NotEnded(polls: seq<Poll>) {
    forall i :: 0 <= i < |polls| ==> !IsLast(polls[i])
  }

  lemma EndsNow(polls: seq<Poll>, poll: Poll)
    requires NotEnded(polls) && IsLast(poll)
    ensures EndsIn(polls + [poll], poll)
  {
    assert EndsAt(polls + [poll], poll, |polls|);
  }

  lemma EndsBefore(polls: seq<Poll>, ending: Poll)
    requires EndsIn(polls, ending)
    ensures EndsIn(polls + [Ready(None)], ending)
  {
    var n :| 0 <= n < |polls| && EndsAt(polls, ending, n);
    assert EndsAt(polls + [Ready(None)], ending, n);
  }

  /** The items of a run are the first of those it is to hand over; all of them once the stream finished. */
  lemma StreamDelivers(stream: EventStream, polls: seq<Poll>)
    requires Yields(stream, polls)
    ensures ItemsOfPolls(polls) <= ItemFrames(stream.config, stream.total.frames)
    ensures stream.state.Finished? ==> ItemsOfPolls(polls) == ItemFrames(stream.config, stream.total.frames)
  {
    var c, run := stream.config, stream.run;
    var s := Summarize(c, run);
    hide Faithful, Summarize, Items, ItemFrames, FramesHandedOver, FramesItsBytes;
    FaithfulRunsFramePerConnection(c, run);
    CurrentConnectionFramesItsBytes(c, run);
    ItemsAreItemFrames(c, run);
    StatePrefix(stream);
    ItemFramesKeep(c, FramesHandedOver(run), stream.total.frames);
  }

  lemma StatePrefix(stream: EventStream)
    requires stream.Valid() && FramesItsBytes(stream.config, Summarize(stream.config, stream.run).current)
    ensures var frames := AllFrames(Connections(Summarize(stream.config, stream.run)));
            frames <= stream.total.frames && (stream.state.Finished? ==> frames == stream.total.frames)
  {
    var s := Summarize(stream.config, stream.run);
    hide Faithful, Summarize, AllFrames, FramesItsBytes, BodyOutlook, CloseOutlook, AcceptOutlook, ConnectOutlook;
    hide Connections;
    if !stream.state.Finished? {
      CourseIsPrefix(stream.total, stream.config, s, stream.state, stream.answers);
    }
  }

  /** Poll once more. */
  method PollAgain(stream: EventStream, polls: seq<Poll>) returns (poll: Poll)
    requires Yields(stream, polls)
    modifies stream`state, stream`bomPending, stream`lastEventId, stream`reconnectDelay, stream`attempt, stream`answers,
             stream`run, stream.buffer
    ensures Yields(stream, polls + [poll])
    ensures old(stream.state).Finished? ==> stream.state.Finished?
    ensures !old(stream.state).Finished? ==> stream.Effort() < old(stream.Effort())
    ensures stream.Delay() + NotReadies(polls + [poll]) <= old(stream.Delay()) + NotReadies(polls)
  {
    hide Faithful, Summarize, Items, EventStream.Effort, EventStream.Delay, NotReadies, EventStream.Valid;
    poll := stream.PollNext();
    ItemsOfPollsPush(polls, poll);
    NotReadiesPush(polls, poll);
    hide ItemsOfPolls, EndsIn;
    if old(stream.state).Finished? {
      EndsBefore(polls, stream.total.ending);
    } else if stream.state.Finished? {
      EndsNow(polls, poll);
    }
  }

  /**
   * What polling a new stream yields: never anything but the first of the items that it is to yield;
   * and once polled as often as there is work for it, all of them, and then the poll that it is to end
   * with, and nothing behind it.
   */
  method Observe(config: Config, body: seq<BodyStep>, answers: seq<Answer>, count: nat) returns (polls: seq<Poll>)
    ensures |polls| == count
    ensures ItemsOfPolls(polls) <= ItemFrames(config, StreamOutlook(config, body, answers).frames)
    ensures count >= StepsEffort(body) + AnswersEffort(answers) ==>
              && ItemsOfPolls(polls) == ItemFrames(config, StreamOutlook(config, body, answers).frames)
              && EndsIn(polls, StreamOutlook(config, body, answers).ending)
    ensures NotReadies(polls) <= StepsDelay(body) + AnswersDelay(answers)
  {
    hide StepsEffort, AnswersEffort, StepsDelay, AnswersDelay, StreamOutlook, ItemFrames, EventStream.Valid;
    var stream := new EventStream(config, body, answers);
    polls := [];
    NothingYielded(stream);
    ghost var work := StepsEffort(body) + AnswersEffort(answers);
    assert stream.Effort() == work;
    hide ItemsOfPolls, NotReadies, EventStream.Effort;
    for i := 0 to count
      invariant fresh(stream) && fresh(stream.buffer) && Yields(stream, polls) && |polls| == i
      invariant stream.config == config && stream.total == StreamOutlook(config, body, answers)
      invariant stream.state.Finished? || stream.Effort() + i <= work
      invariant stream.Delay() + NotReadies(polls) <= StepsDelay(body) + AnswersDelay(answers)
    {
      var poll := PollAgain(stream, polls);
      polls := polls + [poll];
    }
    EffortLeft(stream);
    StreamDelivers(stream, polls);
  }

  /** A stream that has not finished has something left to do. */
  lemma EffortLeft(stream: EventStream)
    ensures stream.state.Finished? || stream.Effort() > 0
  {
  }

  lemma NothingYielded(stream: EventStream)
    requires stream.Valid() && stream.run == [] && stream.state.Body?
    ensures Yields(stream, []) && NotReadies([]) == 0
  {
  }
}
