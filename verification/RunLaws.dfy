/** What a faithful run says, told from its events alone: the ids replayed, the questions asked, what each connection received. */
module RunLaws {
  import opened Sequences
  import opened Framing
  import opened Runs

  // ----- The id that a reconnect sends -----

  /** The id that an event carries. */
  function IdOf(e: Event): Option<Bytes> {
    if e.Framed? && !e.frame.NeedMore? then e.frame.metadata.id else None
  }

  function RetryOf(e: Event): Option<nat> {
    if e.Framed? && !e.frame.NeedMore? then e.frame.metadata.retry else None
  }

  /** The last event before `k` that carries an id is the one at `j`, and that id is `id`. */
  predicate LastIdBefore(run: seq<Event>, k: nat, j: nat, id: Bytes)
    requires k <= |run|
  {
    j < k && IdOf(run[j]) == Some(id) && forall i :: j < i < k ==> IdOf(run[i]) == None
  }

  predicate NoIdBefore(run: seq<Event>, k: nat)
    requires k <= |run|
  {
    forall i :: 0 <= i < k ==> IdOf(run[i]) == None
  }

  /** What the last of the summarized frames with an id, or with a retry, left behind. */
  lemma {:induction false} SummaryRemembers(c: Config, run: seq<Event>, j: nat, id: Bytes, delay: nat)
    ensures LastIdBefore(run, |run|, j, id) ==> Summarize(c, run).lastId == Some(id)
    ensures NoIdBefore(run, |run|) ==> Summarize(c, run).lastId == InitialId(c)
    ensures LastRetryBefore(run, |run|, j, delay) ==> Summarize(c, run).lastRetry == Some(delay)
    ensures NoRetryBefore(run, |run|) ==> Summarize(c, run).lastRetry == None
  {
    if run != [] {
      var before, e := run[..|run| - 1], run[|run| - 1];
      SummaryRemembers(c, before, j, id, delay);
      assert forall i :: 0 <= i < |before| ==> before[i] == run[i];
      hide Summarize;
      assert Summarize(c, run) == After(Summarize(c, before), e) by {
        Extend(c, before, e);
        assert before + [e] == run;
      }
    }
  }

  predicate LastRetryBefore(run: seq<Event>, k: nat, j: nat, delay: nat)
    requires k <= |run|
  {
    j < k && RetryOf(run[j]) == Some(delay) && forall i :: j < i < k ==> RetryOf(run[i]) == None
  }

  predicate NoRetryBefore(run: seq<Event>, k: nat)
    requires k <= |run|
  {
    forall i :: 0 <= i < k ==> RetryOf(run[i]) == None
  }

  /** An event of a faithful run may follow what the events before it add up to. */
  lemma {:induction false} MayFollowAt(c: Config, run: seq<Event>, k: nat)
    requires Faithful(c, run) && k < |run|
    ensures Faithful(c, run[..k]) && MayFollow(c, Summarize(c, run[..k]), run[k])
    decreases |run|
  {
    hide MayFollow, Summarize;
    var before := run[..|run| - 1];
    if k < |before| {
      MayFollowAt(c, before, k);
      assert before[..k] == run[..k];
    }
  }

  /** A run that a reconnect is asked for in has a policy to ask. */
  lemma {:induction false} GrantedAsksPolicy(c: Config, run: seq<Event>)
    requires Faithful(c, run) && Summarize(c, run).phase.Granted?
    ensures c.reconnect.WithPolicy?
  {
    hide BodyFrames, InProgress;
  }

  /**
   * A reconnect sends the id of the last frame that carried one; an id that is empty, or that no
   * header can hold, has it send none. Where no frame carried an id it sends what the original
   * request did, unless that is empty or is read as text that no header can hold.
   */
  lemma RequestsReplay(c: Config, run: seq<Event>, k: nat)
    requires Faithful(c, run) && k < |run| && run[k].Requested?
    ensures forall j: nat, id: Bytes :: LastIdBefore(run, k, j, id) ==>
              run[k].header == if id != [] && c.sendable(id) then Some(id) else None
    ensures NoIdBefore(run, k) ==>
              match c.originalHeader
              case None => run[k].header == None
              case Some(sent) =>
                run[k].header == if c.readable(sent) && (sent == [] || !c.sendable(sent)) then None else Some(sent)
  {
    MayFollowAt(c, run, k);
    var before := run[..k];
    GrantedAsksPolicy(c, before);
    hide Faithful, Summarize;
    assert forall i :: 0 <= i < k ==> before[i] == run[i];
    forall j: nat, id: Bytes | LastIdBefore(run, k, j, id)
      ensures run[k].header == if id != [] && c.sendable(id) then Some(id) else None
    {
      assert LastIdBefore(before, k, j, id);
      SummaryRemembers(c, before, j, id, 0);
    }
    if NoIdBefore(run, k) {
      assert NoIdBefore(before, k);
      SummaryRemembers(c, before, 0, [], 0);
    }
  }

  // ----- The questions the policy is asked -----

  /** How often the policy accepted. */
  function Accepted(run: seq<Event>): nat {
    if run == [] then 0 else (if run[0].Asked? && run[0].accepted then 1 else 0) + Accepted(run[1..])
  }

  lemma {:induction false} AcceptedPush(run: seq<Event>, e: Event)
    ensures Accepted(run + [e]) == Accepted(run) + if e.Asked? && e.accepted then 1 else 0
  {
    if run == [] {
      assert [e][1..] == [] && run + [e] == [e];
    } else {
      AcceptedPush(run[1..], e);
      assert (run + [e])[1..] == run[1..] + [e];
    }
  }

  /** The last item decoded before `k` ends at `from`; 0 when there is none. */
  predicate DecodedUpto(run: seq<Event>, k: nat, from: nat)
    requires k <= |run|
  {
    && from <= k && (from > 0 ==> run[from - 1].Framed? && run[from - 1].decoded)
    && forall i :: from <= i < k ==> !(run[i].Framed? && run[i].decoded)
  }

  lemma CountsAfter(s: Summary, e: Event)
    ensures After(s, e).sinceDecoded
         == if e.Framed? && e.decoded then 0 else s.sinceDecoded + if e.Asked? && e.accepted then 1 else 0
  {
  }

  lemma NothingAccepted()
    ensures Accepted([]) == 0
  {
  }

  lemma {:induction false} SummaryCounts(c: Config, run: seq<Event>, from: nat)
    requires DecodedUpto(run, |run|, from)
    ensures Summarize(c, run).sinceDecoded == Accepted(run[from..])
  {
    if run == [] {
      assert run[from..] == [];
    } else {
      var before, e := run[..|run| - 1], run[|run| - 1];
      assert before + [e] == run;
      Extend(c, before, e);
      CountsAfter(Summarize(c, before), e);
      hide Summarize, After, Accepted;
      if from <= |before| {
        assert forall i :: 0 <= i < |before| ==> before[i] == run[i];
        SummaryCounts(c, before, from);
        assert run[from..] == before[from..] + [e];
        AcceptedPush(before[from..], e);
      } else {
        assert run[from..] == [];
        NothingAccepted();
      }
    }
  }

  /** What a question says is what the run before it adds up to. */
  lemma AskedAddsUp(c: Config, run: seq<Event>, k: nat)
    requires Faithful(c, run) && k < |run| && run[k].Asked?
    ensures var s := Summarize(c, run[..k]);
            && run[k].attempt == (if s.sinceDecoded <= 0xFFFF_FFFF then s.sinceDecoded else 0xFFFF_FFFF)
            && run[k].delay == s.lastRetry
  {
    MayFollowAt(c, run, k);
    hide Faithful, Summarize, BodyFrames, InProgress;
  }

  lemma DecodedBefore(run: seq<Event>, k: nat, from: nat)
    requires k <= |run| && DecodedUpto(run, k, from)
    ensures DecodedUpto(run[..k], k, from) && run[..k][from..] == run[from..k]
  {
  }

  /** The policy sees how many reconnects it accepted since the last decoded item, saturated at 32 bits. */
  lemma QuestionsCount(c: Config, run: seq<Event>, k: nat, from: nat)
    requires Faithful(c, run) && k < |run| && run[k].Asked? && DecodedUpto(run, k, from)
    ensures var accepted := Accepted(run[from..k]);
            run[k].attempt == if accepted <= 0xFFFF_FFFF then accepted else 0xFFFF_FFFF
  {
    hide *;
    AskedAddsUp(c, run, k);
    DecodedBefore(run, k, from);
    SummaryCounts(c, run[..k], from);
  }

  lemma RetriesBefore(run: seq<Event>, k: nat, j: nat, delay: nat)
    requires k <= |run|
    ensures LastRetryBefore(run, k, j, delay) <==> LastRetryBefore(run[..k], k, j, delay)
    ensures NoRetryBefore(run, k) <==> NoRetryBefore(run[..k], k)
  {
    hide RetryOf;
    assert forall i :: 0 <= i < k ==> run[..k][i] == run[i];
  }

  /** The policy sees the delay of the last frame that carried one. */
  lemma QuestionsTellDelay(c: Config, run: seq<Event>, k: nat)
    requires Faithful(c, run) && k < |run| && run[k].Asked?
    ensures forall j: nat, delay: nat :: LastRetryBefore(run, k, j, delay) ==> run[k].delay == Some(delay)
    ensures NoRetryBefore(run, k) ==> run[k].delay == None
  {
    hide *;
    AskedAddsUp(c, run, k);
    forall j: nat, delay: nat | LastRetryBefore(run, k, j, delay)
      ensures run[k].delay == Some(delay)
    {
      RetriesBefore(run, k, j, delay);
      SummaryRemembers(c, run[..k], j, [], delay);
    }
    RetriesBefore(run, k, 0, 0);
    SummaryRemembers(c, run[..k], 0, [], 0);
  }

  // ----- What each connection received -----

  /** The bytes received in `events`, in order. */
  function Bodies(events: seq<Event>): Bytes {
    if events == [] then [] else (if events[0].Received? then events[0].chunk else []) + Bodies(events[1..])
  }

  lemma {:induction false} BodiesPush(events: seq<Event>, e: Event)
    ensures Bodies(events + [e]) == Bodies(events) + if e.Received? then e.chunk else []
  {
    if events == [] {
      assert [e][1..] == [] && events + [e] == [e];
    } else {
      BodiesPush(events[1..], e);
      assert (events + [e])[1..] == events[1..] + [e];
    }
  }

  /** The connection current at `k` was opened at `from`: no other was between. */
  predicate OpenedAt(run: seq<Event>, k: nat, from: nat)
    requires k <= |run|
  {
    && from <= k && (from > 0 ==> run[from - 1].Opened?)
    && forall i :: from <= i < k ==> !run[i].Opened?
  }

  /** At every point the current connection is what the events since it was opened add up to: bytes received, frames handed over, the end seen. */
  lemma {:induction false} ConnectionReceives(c: Config, run: seq<Event>, from: nat)
    requires OpenedAt(run, |run|, from)
    ensures var current, events := Summarize(c, run).current, run[from..];
            && current.got == Bodies(events) && current.frames == FramesHandedOver(events)
            && (current.ended <==> Ended in events)
            && (current.closed <==> Closed(true) in events || Closed(false) in events)
  {
    if from == |run| {
      assert run[from..] == [];
      if run != [] {
        OpensFresh(Summarize(c, run[..|run| - 1]));
      }
    } else {
      var before, e := run[..|run| - 1], run[|run| - 1];
      assert before + [e] == run;
      Extend(c, before, e);
      assert forall i :: 0 <= i < |before| ==> before[i] == run[i];
      ConnectionReceives(c, before, from);
      var s, events := Summarize(c, before), before[from..];
      hide Summarize;
      assert run[from..] == events + [e];
      BodiesPush(events, e);
      assert (events + [e])[..|events|] == events;
      assert FramesHandedOver(events + [e]) == FramesHandedOver(events) + if e.Framed? then [e.frame] else [];
      hide Bodies, FramesHandedOver;
      EventChanges(s, e);
    }
  }

  lemma OpensFresh(s: Summary)
    ensures After(s, Opened).current == Connection([], [], false, false)
  {
  }

  /** What an event that opens no connection does to the current one. */
  lemma EventChanges(s: Summary, e: Event)
    requires !e.Opened?
    ensures var t := After(s, e).current;
            && t.got == s.current.got + (if e.Received? then e.chunk else [])
            && t.frames == s.current.frames + (if e.Framed? then [e.frame] else [])
            && (t.ended <==> s.current.ended || e == Ended)
            && (t.closed <==> s.current.closed || e == Closed(true) || e == Closed(false))
  {
  }
}
