/**
 * What the world around an event stream will do, written down ahead: the bodies it is given, the
 * policy's answers, the waits and the reconnects; what that makes each connection send, how much of it
 * is left in a state of the stream, and what the stream is to hand over and how it is to end.
 */
module Scripts {
  import opened Sequences
  import opened Framing
  import opened Runs

  /** One answer of a body asked for a chunk; when the answers run out, the body has ended. */
  datatype BodyStep = Chunk(bytes: Bytes) | NotYet | Fail

  datatype ConnectResult = Connected(body: seq<BodyStep>) | Refused

  /** One answer of the reconnect policy, with how the wait and the reconnect it leads to go. */
  datatype Answer =
    | Decline
    | Accept(waits: nat, cloneable: bool, connects: nat, result: ConnectResult)

  datatype StreamState =
    | Body(steps: seq<BodyStep>)
    | Eof
    | Waiting(waits: nat, cloneable: bool, connects: nat, result: ConnectResult)
    | Connecting(polls: nat, outcome: ConnectResult)
    | Finished

  // ----- What is left to do -----

  function StepsEffort(steps: seq<BodyStep>): (effort: nat)
    ensures effort >= 2
  {
    if steps == [] then 2
    else 1 + (if steps[0].Chunk? then |steps[0].bytes| else 0) + StepsEffort(steps[1..])
  }

  function ResultEffort(result: ConnectResult): nat {
    if result.Connected? then StepsEffort(result.body) else 0
  }

  function AnswersEffort(answers: seq<Answer>): nat {
    if answers == [] then 0
    else
      (match answers[0]
       case Decline => 0
       case Accept(waits, _, connects, result) => waits + 2 + connects + ResultEffort(result))
      + AnswersEffort(answers[1..])
  }

  function StateEffort(state: StreamState): nat {
    match state
    case Body(steps) => StepsEffort(steps)
    case Eof => 1
    case Waiting(waits, _, connects, result) => waits + 2 + connects + ResultEffort(result)
    case Connecting(polls, outcome) => polls + 1 + ResultEffort(outcome)
    case Finished => 0
  }

  /** How often the world says that something is not ready yet. */
  function StepsDelay(steps: seq<BodyStep>): nat {
    if steps == [] then 0 else (if steps[0].NotYet? then 1 else 0) + StepsDelay(steps[1..])
  }

  function ResultDelay(result: ConnectResult): nat {
    if result.Connected? then StepsDelay(result.body) else 0
  }

  function AnswersDelay(answers: seq<Answer>): nat {
    if answers == [] then 0
    else
      (match answers[0]
       case Decline => 0
       case Accept(waits, _, connects, result) => waits + connects + ResultDelay(result))
      + AnswersDelay(answers[1..])
  }

  function StateDelay(state: StreamState): nat {
    match state
    case Body(steps) => StepsDelay(steps)
    case Waiting(waits, _, connects, result) => waits + connects + ResultDelay(result)
    case Connecting(polls, outcome) => polls + ResultDelay(outcome)
    case _ => 0
  }

  // ----- What connections send -----

  /** What a body sends before it fails or ends, and whether it ends cleanly. */
  datatype Sending = Sending(bytes: Bytes, clean: bool)

  function Sent(steps: seq<BodyStep>): Sending {
    if steps == [] then Sending([], true)
    else
      match steps[0]
      case Chunk(bytes) => var rest := Sent(steps[1..]); Sending(bytes + rest.bytes, rest.clean)
      case NotYet => Sent(steps[1..])
      case Fail => Sending([], false)
  }

  /** The bodies that the policy's answers lead to. */
  function Coming(answers: seq<Answer>): seq<seq<BodyStep>>
    decreases |answers|, 0
  {
    if answers == [] || answers[0].Decline? then []
    else Promised(answers[0].cloneable, answers[0].result, answers[1..])
  }

  /** The same behind an accepted reconnect: none without a request to resend, and the next answer's after a refusal. */
  function Promised(cloneable: bool, result: ConnectResult, answers: seq<Answer>): seq<seq<BodyStep>>
    decreases |answers|, 1
  {
    if !cloneable then [] else if result.Connected? then [result.body] + Coming(answers) else Coming(answers)
  }

  /** What follows a connection: nothing when there is no policy to ask. */
  function Future(reconnect: Reconnect, answers: seq<Answer>): seq<seq<BodyStep>> {
    if reconnect.WithPolicy? then Coming(answers) else []
  }

  /** Every body there can be, `body` being the first connection's. */
  function Bodies(reconnect: Reconnect, body: seq<BodyStep>, answers: seq<Answer>): seq<seq<BodyStep>> {
    [body] + Future(reconnect, answers)
  }

  // ----- How a stream goes -----

  datatype StreamError =
    | InterruptedBody
    | ConnectFailed
    | NotCloneable
    | FrameOverflow(body: Bytes)

  datatype Yield = Decoded(payload: Payload) | DecodeError(frame: Payload) | Failed(error: StreamError)

  datatype Poll = NotReady | Ready(item: Option<Yield>)

  function ItemsYielded(poll: Poll): seq<(Payload, bool)> {
    match poll
    case Ready(Some(Decoded(payload))) => [(payload, true)]
    case Ready(Some(DecodeError(payload))) => [(payload, false)]
    case _ => []
  }

  function FailedWith(error: StreamError): Poll {
    Ready(Some(Failed(error)))
  }

  predicate IsOverflow(poll: Poll) {
    poll.Ready? && poll.item.Some? && poll.item.value.Failed? && poll.item.value.error.FrameOverflow?
  }

  /** How a stream ends that does not reconnect after a clean end of the body, or after a failure. */
  function Refusal(reason: Option<StreamError>): Poll {
    if reason.None? then Ready(None) else FailedWith(reason.value)
  }

  function AfterClose(clean: bool): Poll {
    Refusal(if clean then None else Some(InterruptedBody))
  }

  /** The first `cap` bytes of a body, or all there are. */
  function Capped(body: Bytes, cap: nat): (kept: Bytes)
    ensures kept <= body && |kept| <= cap && (kept == body || |kept| == cap)
  {
    if |body| <= cap then body else body[..cap]
  }

  /** The frames that are still to be handed over, and the poll that then ends the stream. */
  datatype Outlook = Outlook(frames: seq<FramePoll>, ending: Poll)

  /** `frames`, and then what `o` says. */
  function Then(frames: seq<FramePoll>, o: Outlook): Outlook {
    Outlook(frames + o.frames, o.ending)
  }

  lemma ThenTwice(first: seq<FramePoll>, second: seq<FramePoll>, o: Outlook)
    ensures Then(first, Then(second, o)) == Then(first + second, o)
  {
    assert first + (second + o.frames) == first + second + o.frames;
  }

  /** A body of which `got` has arrived and `steps` are still to come. */
  function BodyOutlook(c: Config, got: Bytes, steps: seq<BodyStep>, answers: seq<Answer>): Outlook
    decreases |answers|, 3, |steps|
  {
    var frames := BodyFrames(c.mode, got, false);
    if AtSentinel(frames) then Outlook(frames, Ready(None))
    else if |InProgress(c.mode, got)| > c.maxFrame then
      Outlook(frames, FailedWith(FrameOverflow(Capped(InProgress(c.mode, got), c.maxErrorBody))))
    else if steps == [] then CloseOutlook(c, got, true, answers)
    else
      match steps[0]
      case Chunk(bytes) => BodyOutlook(c, got + bytes, steps[1..], answers)
      case NotYet => BodyOutlook(c, got, steps[1..], answers)
      case Fail => CloseOutlook(c, got, false, answers)
  }

  /** A body of which `got` is all that arrives. */
  function CloseOutlook(c: Config, got: Bytes, clean: bool, answers: seq<Answer>): Outlook
    decreases |answers|, 2
  {
    var frames := BodyFrames(c.mode, got, clean);
    if AtSentinel(frames) then Outlook(frames, Ready(None)) else Then(frames, AskOutlook(c, AfterClose(clean), answers))
  }

  /** A stream that ends with `refusal` unless the policy has it reconnect. */
  function AskOutlook(c: Config, refusal: Poll, answers: seq<Answer>): Outlook
    decreases |answers|, 1
  {
    if !c.reconnect.WithPolicy? || answers == [] || answers[0].Decline? then Outlook([], refusal)
    else AcceptOutlook(c, answers[0].cloneable, answers[0].result, answers[1..])
  }

  function AcceptOutlook(c: Config, cloneable: bool, result: ConnectResult, answers: seq<Answer>): Outlook
    decreases |answers|, 5
  {
    if !cloneable then Outlook([], FailedWith(NotCloneable)) else ConnectOutlook(c, result, answers)
  }

  function ConnectOutlook(c: Config, result: ConnectResult, answers: seq<Answer>): Outlook
    decreases |answers|, 4
  {
    match result
    case Connected(body) => BodyOutlook(c, [], body, answers)
    case Refused => AskOutlook(c, FailedWith(ConnectFailed), answers)
  }

  /** All that a stream of `body` is to hand over, and how it is to end. */
  function StreamOutlook(c: Config, body: seq<BodyStep>, answers: seq<Answer>): Outlook {
    BodyOutlook(c, [], body, answers)
  }

  /** What has been handed over and what the stream's state is to lead to are `total`, all of it. */
  predicate OnCourse(total: Outlook, c: Config, s: Summary, state: StreamState, answers: seq<Answer>) {
    match state
    case Body(steps) => Then(AllFrames(s.earlier), BodyOutlook(c, s.current.got, steps, answers)) == total
    case Eof => Then(AllFrames(s.earlier), CloseOutlook(c, s.current.got, true, answers)) == total
    case Waiting(_, cloneable, _, result) => Then(AllFrames(Connections(s)), AcceptOutlook(c, cloneable, result, answers)) == total
    case Connecting(_, outcome) => Then(AllFrames(Connections(s)), ConnectOutlook(c, outcome, answers)) == total
    case Finished => AllFrames(Connections(s)) == total.frames
  }

  /** The same between connections, where the stream is to end with `refusal` unless the policy has it reconnect. */
  predicate AskCourse(total: Outlook, c: Config, s: Summary, refusal: Poll, answers: seq<Answer>) {
    Then(AllFrames(Connections(s)), AskOutlook(c, refusal, answers)) == total
  }

  lemma CourseFirst(c: Config, body: seq<BodyStep>, answers: seq<Answer>)
    ensures OnCourse(StreamOutlook(c, body, answers), c, Start(c), Body(body), answers)
  {
    hide BodyOutlook;
    assert [] + StreamOutlook(c, body, answers).frames == StreamOutlook(c, body, answers).frames;
  }

  /** Handing over frames and asking for bytes leads nowhere else. */
  lemma CourseKeeps(total: Outlook, c: Config, s: Summary, state: StreamState, answers: seq<Answer>, e: Event)
    requires OnCourse(total, c, s, state, answers) && (state.Body? || state.Eof?) && (e.Polled? || e.Framed?)
    ensures OnCourse(total, c, After(s, e), state, answers)
  {
    hide BodyOutlook, CloseOutlook, AllFrames;
  }

  /** At the frame that ends a stream everything is handed over. */
  lemma CourseSentinel(total: Outlook, c: Config, s: Summary, state: StreamState, answers: seq<Answer>)
    requires OnCourse(total, c, s, state, answers) && (state.Body? || state.Eof?)
    requires s.current.frames == BodyFrames(c.mode, s.current.got, state.Eof?) && AtSentinel(s.current.frames)
    ensures OnCourse(total, c, s, Finished, answers) && total.ending == Ready(None)
  {
    AllFramesLast(s.earlier, s.current);
    hide BodyFrames, InProgress, AllFrames, AskOutlook;
  }

  lemma CourseOverflows(total: Outlook, c: Config, s: Summary, steps: seq<BodyStep>, answers: seq<Answer>)
    requires OnCourse(total, c, s, Body(steps), answers)
    requires s.current.frames == BodyFrames(c.mode, s.current.got, false) && !AtSentinel(s.current.frames)
    requires |InProgress(c.mode, s.current.got)| > c.maxFrame
    ensures OnCourse(total, c, s, Finished, answers)
    ensures total.ending == FailedWith(FrameOverflow(Capped(InProgress(c.mode, s.current.got), c.maxErrorBody)))
  {
    AllFramesLast(s.earlier, s.current);
    hide BodyFrames, InProgress, AllFrames, CloseOutlook;
  }

  lemma CourseEnds(total: Outlook, c: Config, s: Summary, answers: seq<Answer>, held: nat)
    requires OnCourse(total, c, s, Finished, answers)
    ensures OnCourse(total, c, After(s, Overflowed(held)), Finished, answers)
  {
    assert Connections(After(s, Overflowed(held))) == Connections(s);
    hide AllFrames;
  }

  /** What the next step of a body leads to, once its complete frames are out and what is left is within the limit. */
  lemma CourseReads(total: Outlook, c: Config, s: Summary, steps: seq<BodyStep>, answers: seq<Answer>)
    requires OnCourse(total, c, s, Body(steps), answers) && !s.current.ended
    requires s.current.frames == BodyFrames(c.mode, s.current.got, false) && !AtSentinel(s.current.frames)
    requires |InProgress(c.mode, s.current.got)| <= c.maxFrame
    ensures steps == [] ==> OnCourse(total, c, After(s, Ended), Eof, answers)
    ensures steps != [] && steps[0].NotYet? ==> OnCourse(total, c, s, Body(steps[1..]), answers)
    ensures steps != [] && steps[0].Chunk? ==> OnCourse(total, c, After(s, Received(steps[0].bytes)), Body(steps[1..]), answers)
    ensures steps != [] && steps[0].Fail? ==> AskCourse(total, c, After(s, Closed(false)), AfterClose(false), answers)
  {
    AllFramesLast(s.earlier, s.current);
    AllFramesLast(s.earlier, After(s, Closed(false)).current);
    ThenTwice(AllFrames(s.earlier), s.current.frames, AskOutlook(c, AfterClose(false), answers));
    assert CloseOutlook(c, s.current.got, false, answers) == Then(s.current.frames, AskOutlook(c, AfterClose(false), answers));
    hide CloseOutlook;
    hide BodyFrames, InProgress, AllFrames, AskOutlook;
  }

  lemma CourseCloses(total: Outlook, c: Config, s: Summary, answers: seq<Answer>)
    requires OnCourse(total, c, s, Eof, answers)
    requires s.current.frames == BodyFrames(c.mode, s.current.got, true) && !AtSentinel(s.current.frames)
    ensures AskCourse(total, c, After(s, Closed(true)), AfterClose(true), answers)
  {
    AllFramesLast(s.earlier, s.current);
    AllFramesLast(s.earlier, After(s, Closed(true)).current);
    ThenTwice(AllFrames(s.earlier), s.current.frames, AskOutlook(c, AfterClose(true), answers));
    hide BodyFrames, AllFrames, AskOutlook;
  }

  /** The policy's answer, `Decline` once it has none left. */
  function FirstAnswer(answers: seq<Answer>): Answer {
    if answers == [] then Decline else answers[0]
  }

  function LaterAnswers(answers: seq<Answer>): seq<Answer> {
    if answers == [] then [] else answers[1..]
  }

  /** Where a stream stops that is not to reconnect, and where one waits that is. */
  lemma CourseAsked(total: Outlook, c: Config, s: Summary, refusal: Poll, answers: seq<Answer>, e: Event)
    requires AskCourse(total, c, s, refusal, answers) && e.Asked?
    ensures var a := FirstAnswer(answers);
            if !c.reconnect.WithPolicy? then OnCourse(total, c, s, Finished, answers) && total.ending == refusal
            else if a.Decline? then OnCourse(total, c, After(s, e), Finished, LaterAnswers(answers)) && total.ending == refusal
            else OnCourse(total, c, After(s, e), Waiting(a.waits, a.cloneable, a.connects, a.result), LaterAnswers(answers))
  {
    hide AllFrames, AcceptOutlook;
    assert Connections(After(s, e)) == Connections(s);
  }

  lemma CourseWaits(total: Outlook, c: Config, s: Summary, state: StreamState, fewer: nat, answers: seq<Answer>)
    requires OnCourse(total, c, s, state, answers)
    ensures state.Waiting? ==> OnCourse(total, c, s, state.(waits := fewer), answers)
    ensures state.Connecting? ==> OnCourse(total, c, s, state.(polls := fewer), answers)
  {
    hide AllFrames, AcceptOutlook, ConnectOutlook;
  }

  lemma CourseRequests(total: Outlook, c: Config, s: Summary, state: StreamState, header: Option<Bytes>, answers: seq<Answer>)
    requires state.Waiting? && OnCourse(total, c, s, state, answers)
    ensures if state.cloneable then OnCourse(total, c, After(s, Requested(header)), Connecting(state.connects, state.result), answers)
            else OnCourse(total, c, s, Finished, answers) && total.ending == FailedWith(NotCloneable)
  {
    hide AllFrames, ConnectOutlook;
    assert Connections(After(s, Requested(header))) == Connections(s);
  }

  lemma CourseConnects(total: Outlook, c: Config, s: Summary, state: StreamState, answers: seq<Answer>)
    requires state.Connecting? && OnCourse(total, c, s, state, answers)
    ensures match state.outcome
            case Connected(body) => OnCourse(total, c, After(s, Opened), Body(body), answers)
            case Refused => AskCourse(total, c, s, FailedWith(ConnectFailed), answers)
  {
    hide AllFrames, BodyOutlook, AskOutlook;
  }
}
