/**
 * What a run of an event stream may look like: the events of a run in order, what they add up to,
 * and when the next event is right. It speaks of bodies and frames only, not of the stream's state.
 */
module Runs {
  import opened Sequences
  import opened Framing

  const U32_MAX: nat := 0xFFFF_FFFF

  datatype Event =
    | Polled(buffered: nat)                                           // the body is asked for a chunk
    | Received(chunk: Bytes)
    | Ended                                                           // the body ended cleanly
    | Framed(frame: FramePoll, decoded: bool)                         // a frame is handed over
    | Overflowed(held: nat)                                           // an item passed the limit
    | Closed(clean: bool)                                             // the connection is done with
    | Asked(attempt: nat, delay: Option<nat>, accepted: bool)         // the policy decides
    | Requested(header: Option<Bytes>)                                // a reconnect is sent
    | Opened                                                          // its response arrived

  /** One connection: the bytes that arrived on it and the frames handed over from it. */
  datatype Connection = Connection(got: Bytes, frames: seq<FramePoll>, ended: bool, closed: bool)

  const FRESH := Connection([], [], false, false)

  /** What comes next: only the events that fit the phase may follow. */
  datatype Phase =
    | Reading          // frames are handed over
    | Awaiting         // the body has been asked for a chunk
    | Broken           // the connection is done with
    | Granted          // the policy accepted a reconnect
    | Reconnecting     // the request has been sent again
    | Declined         // the policy declined
    | Sentinel         // the frame that ends a stream was handed over
    | Limited          // an item passed the limit

  /** What a run adds up to. */
  datatype Summary = Summary(
    earlier: seq<Connection>,     // the connections before the current one
    current: Connection,
    phase: Phase,
    sinceDecoded: nat,            // reconnects accepted since the last decoded item
    lastId: Option<Bytes>,        // the latest id a frame carried, or the initial one
    lastRetry: Option<nat>)

  /** Whether the stream can resend its request, and whether a policy was set. */
  datatype Reconnect = NoRequest | NoPolicy | WithPolicy

  /** The stream's configuration and the caller's and environment's parts in it. */
  datatype Config = Config(
    mode: FramingMode,
    maxFrame: nat,
    maxErrorBody: nat,
    reconnect: Reconnect,
    originalHeader: Option<Bytes>,     // the Last-Event-ID of the original request
    readable: Bytes -> bool,           // whether a header's value reads as text
    sendable: Bytes -> bool,           // whether an id is a valid header value
    decodes: Payload -> bool)          // whether a payload decodes as the item type

  function InitialId(c: Config): Option<Bytes> {
    if !c.reconnect.NoRequest? && c.originalHeader.Some? && c.readable(c.originalHeader.value) then c.originalHeader
    else None
  }

  /** The Last-Event-ID a reconnect sends, given the latest id. */
  function ReplayHeader(c: Config, lastId: Option<Bytes>): Option<Bytes> {
    match lastId
    case None => c.originalHeader
    case Some(id) => if c.sendable(id) && id != [] then Some(id) else None
  }

  function Start(c: Config): Summary {
    Summary([], FRESH, Reading, 0, InitialId(c), None)
  }

  function OrElse<T>(newer: Option<T>, older: Option<T>): Option<T> {
    if newer.Some? then newer else older
  }

  function After(s: Summary, e: Event): Summary {
    match e
    case Polled(_) => s.(phase := Awaiting)
    case Received(chunk) => s.(current := s.current.(got := s.current.got + chunk), phase := Reading)
    case Ended => s.(current := s.current.(ended := true), phase := Reading)
    case Framed(frame, decoded) =>
      var metadata := if frame.NeedMore? then NO_METADATA else frame.metadata;
      s.(current := s.current.(frames := s.current.frames + [frame]),
         phase := if frame.Done? then Sentinel else s.phase,
         sinceDecoded := if decoded then 0 else s.sinceDecoded,
         lastId := OrElse(metadata.id, s.lastId),
         lastRetry := OrElse(metadata.retry, s.lastRetry))
    case Overflowed(_) => s.(phase := Limited)
    case Closed(_) => s.(current := s.current.(closed := true), phase := Broken)
    case Asked(_, _, accepted) =>
      s.(sinceDecoded := s.sinceDecoded + if accepted then 1 else 0, phase := if accepted then Granted else Declined)
    case Requested(_) => s.(phase := Reconnecting)
    case Opened => s.(earlier := s.earlier + [s.current], current := FRESH, phase := Reading)
  }

  function Summarize(c: Config, run: seq<Event>): Summary {
    if run == [] then Start(c)
    else After(Summarize(c, run[..|run| - 1]), run[|run| - 1])
  }

  /** Every frame that what has arrived completes has been handed over. */
  predicate AllOut(c: Config, s: Summary) {
    s.current.frames == BodyFrames(c.mode, s.current.got, s.current.ended)
  }

  /** Whether `e` may follow a run that adds up to `s`. */
  predicate MayFollow(c: Config, s: Summary, e: Event) {
    match e
    case Polled(buffered) =>
      && (s.phase.Reading? || s.phase.Awaiting?) && !s.current.ended && AllOut(c, s)
      && buffered == |InProgress(c.mode, s.current.got)| <= c.maxFrame
    case Received(_) => s.phase.Awaiting?
    case Ended => s.phase.Awaiting?
    case Framed(frame, decoded) =>
      && s.phase.Reading? && !frame.NeedMore?
      && (decoded <==> frame.Item? && c.decodes(frame.payload))
      && s.current.frames + [frame] <= BodyFrames(c.mode, s.current.got, s.current.ended)
    case Overflowed(held) =>
      && s.phase.Reading? && !s.current.ended && AllOut(c, s)
      && held == |InProgress(c.mode, s.current.got)| > c.maxFrame
    case Closed(clean) =>
      clean == s.current.ended && AllOut(c, s) && if clean then s.phase.Reading? else s.phase.Awaiting?
    case Asked(attempt, delay, _) =>
      && c.reconnect.WithPolicy? && (s.phase.Broken? || s.phase.Reconnecting?) && delay == s.lastRetry
      && attempt == if s.sinceDecoded <= U32_MAX then s.sinceDecoded else U32_MAX
    case Requested(header) => s.phase.Granted? && header == ReplayHeader(c, s.lastId)
    case Opened => s.phase.Reconnecting?
  }

  predicate Faithful(c: Config, run: seq<Event>) {
    run == [] ||
    var before := run[..|run| - 1];
    Faithful(c, before) && MayFollow(c, Summarize(c, before), run[|run| - 1])
  }

  lemma Extend(c: Config, run: seq<Event>, e: Event)
    ensures Summarize(c, run + [e]) == After(Summarize(c, run), e)
    ensures Faithful(c, run) && MayFollow(c, Summarize(c, run), e) ==> Faithful(c, run + [e])
  {
    assert (run + [e])[..|run|] == run;
  }

  /** What may stand before an event, and what nothing may follow. */
  predicate InOrder(before: Event, e: Event) {
    && (e.Opened? ==> before.Requested?)
    && (e.Requested? ==> before.Asked? && before.accepted)
    && (e.Asked? ==> before.Closed? || before.Requested?)
    && (e.Received? || e.Ended? ==> before.Polled?)
    && !before.Overflowed? && !(before.Asked? && !before.accepted) && !(before.Framed? && before.frame.Done?)
  }

  /** A run is in the phase that its last event led to, except that frames are handed over in the one they find. */
  predicate LedTo(e: Event, phase: Phase) {
    match phase
    case Awaiting => e.Polled?
    case Broken => e.Closed?
    case Granted => e.Asked? && e.accepted
    case Reconnecting => e.Requested?
    case Declined => e.Asked? && !e.accepted
    case Sentinel => e.Framed? && e.frame.Done?
    case Limited => e.Overflowed?
    case Reading => e.Received? || e.Ended? || e.Opened? || (e.Framed? && !e.frame.Done?)
  }

  lemma {:induction false} RunLedTo(c: Config, run: seq<Event>)
    requires Faithful(c, run) && run != []
    ensures LedTo(run[|run| - 1], Summarize(c, run).phase)
  {
    hide BodyFrames, InProgress;
    var before := run[..|run| - 1];
    if before != [] {
      RunLedTo(c, before);
    }
  }

  lemma NothingInProgress(mode: FramingMode)
    ensures InProgress(mode, []) == []
  {
  }

  /**
   * In a faithful run a connection is opened only by a request sent again, which only an accepted
   * question leads to, and that only follows a connection's end or a failed reconnect; and nothing
   * follows an overflow, a declined question or the frame that ends the stream.
   */
  lemma {:induction false} EventsInOrder(c: Config, run: seq<Event>, k: nat)
    requires Faithful(c, run) && k < |run|
    ensures if k == 0 then run[0].Polled? || run[0].Framed? else InOrder(run[k - 1], run[k])
    decreases |run|
  {
    NothingInProgress(c.mode);
    hide BodyFrames, InProgress;
    var before := run[..|run| - 1];
    if k < |before| {
      EventsInOrder(c, before, k);
    } else if k > 0 {
      RunLedTo(c, before);
    }
  }

  /** The items a run handed over, and whether each decoded. */
  function Items(run: seq<Event>): seq<(Payload, bool)> {
    if run == [] then [] else Items(run[..|run| - 1]) + ItemsOf(run[|run| - 1])
  }

  function ItemsOf(e: Event): seq<(Payload, bool)> {
    if e.Framed? && e.frame.Item? then [(e.frame.payload, e.decoded)] else []
  }

  lemma ExtendItems(run: seq<Event>, e: Event)
    ensures Items(run + [e]) == Items(run) + ItemsOf(e)
  {
    assert (run + [e])[..|run|] == run;
  }

  /** The connections of a run, the current one last. */
  function Connections(s: Summary): seq<Connection> {
    s.earlier + [s.current]
  }

  function AllFrames(connections: seq<Connection>): seq<FramePoll> {
    if connections == [] then []
    else AllFrames(connections[..|connections| - 1]) + connections[|connections| - 1].frames
  }

  function FramesHandedOver(run: seq<Event>): seq<FramePoll> {
    if run == [] then []
    else
      var e := run[|run| - 1];
      FramesHandedOver(run[..|run| - 1]) + if e.Framed? then [e.frame] else []
  }

  /** A connection that is done with handed over the frames of the bytes that arrived on it, and no others. */
  predicate Settles(mode: FramingMode, connection: Connection) {
    connection.closed ==> connection.frames == BodyFrames(mode, connection.got, connection.ended)
  }

  /** The last of `frames` is the one that ends a stream. */
  predicate AtSentinel(frames: seq<FramePoll>) {
    frames != [] && frames[|frames| - 1].Done?
  }

  /** The current connection is done with exactly in the phases between connections. */
  predicate FitsPhase(s: Summary) {
    && (s.current.closed <==> s.phase.Broken? || s.phase.Granted? || s.phase.Reconnecting? || s.phase.Declined?)
    && (s.phase.Awaiting? ==> !s.current.ended)
    && (s.phase.Sentinel? <==> AtSentinel(s.current.frames))
  }

  /** Every connection left behind is closed and settled, and the current one is settled if it is closed. */
  predicate AllSettled(mode: FramingMode, s: Summary) {
    && Settles(mode, s.current) && FitsPhase(s)
    && forall k :: 0 <= k < |s.earlier| ==> s.earlier[k].closed && Settles(mode, s.earlier[k])
  }

  lemma EventKeepsSettled(c: Config, s: Summary, e: Event)
    requires AllSettled(c.mode, s) && MayFollow(c, s, e)
    ensures AllSettled(c.mode, After(s, e))
    ensures AllFrames(Connections(After(s, e))) == AllFrames(Connections(s)) + if e.Framed? then [e.frame] else []
  {
    hide BodyFrames, InProgress;
    var t := After(s, e);
    AllFramesLast(s.earlier, s.current);
    AllFramesLast(t.earlier, t.current);
    hide AllFrames;
    if !e.Opened? {
      assert t.earlier == s.earlier;
      assert t.current.frames == s.current.frames + if e.Framed? then [e.frame] else [];
    }
  }

  lemma AllFramesLast(earlier: seq<Connection>, current: Connection)
    ensures AllFrames(earlier + [current]) == AllFrames(earlier) + current.frames
  {
    assert (earlier + [current])[..|earlier|] == earlier;
  }

  /**
   * In a faithful run, the frames handed over are those of the connections in order, and every
   * connection left behind handed over exactly the frames of its own bytes: no frame spans two
   * connections, and none is lost or repeated.
   */
  lemma {:induction false} FaithfulRunsFramePerConnection(c: Config, run: seq<Event>)
    requires Faithful(c, run)
    ensures FramesHandedOver(run) == AllFrames(Connections(Summarize(c, run)))
    ensures AllSettled(c.mode, Summarize(c, run))
  {
    hide AllSettled, Connections, AllFrames, MayFollow, After;
    if run != [] {
      var before, e := run[..|run| - 1], run[|run| - 1];
      FaithfulRunsFramePerConnection(c, before);
      EventKeepsSettled(c, Summarize(c, before), e);
    } else {
      NothingSettled(c);
    }
  }

  lemma NothingSettled(c: Config)
    ensures AllSettled(c.mode, Start(c)) && AllFrames(Connections(Start(c))) == []
  {
    AllFramesLast([], FRESH);
    assert [] + [FRESH] == [FRESH];
  }

  /** The payloads of the items among `frames`, and whether each decodes. */
  function ItemFrames(c: Config, frames: seq<FramePoll>): seq<(Payload, bool)> {
    if frames == [] then []
    else
      var last := frames[|frames| - 1];
      ItemFrames(c, frames[..|frames| - 1]) + if last.Item? then [(last.payload, c.decodes(last.payload))] else []
  }

  /** The items handed over are those of the frames, each decoded when it decodes. */
  lemma {:induction false} ItemsAreItemFrames(c: Config, run: seq<Event>)
    requires Faithful(c, run)
    ensures Items(run) == ItemFrames(c, FramesHandedOver(run))
  {
    if run != [] {
      var before, e := run[..|run| - 1], run[|run| - 1];
      ItemsAreItemFrames(c, before);
      if e.Framed? {
        var frames := FramesHandedOver(before);
        assert (frames + [e.frame])[..|frames|] == frames;
      } else {
        assert FramesHandedOver(run) == FramesHandedOver(before);
      }
    }
  }
}
