/**
 What a channel does to its calls: none is lost on the way, and a connection that fails, a stream that
 cannot be created and HEADERS that are not taken each end a call as unavailable.
 */
module ChannelOutcomes {
  import opened Octets
  import opened Headers
  import opened Calls
  import opened CallSafety
  import opened Channels
  import opened ChannelSafety
  import Requests
  import Frames

  // ---------- no call is lost ----------

  /** How many of the first `k` handlers have a context. */
  function Rank(hs: seq<Handler>, k: nat): (r: nat)
    requires k <= |hs|
    ensures r <= k
  {
    if k == 0 then 0 else Rank(hs, k - 1) + if hs[k - 1].context then 1 else 0
  }

  lemma {:induction false} RankTail(hs: seq<Handler>, k: nat)
    requires 1 <= k <= |hs|
    ensures Rank(hs, k) == (if hs[0].context then 1 else 0) + Rank(hs[1..], k - 1)
    decreases k
  {
    if k > 1 {
      RankTail(hs, k - 1);
      assert hs[1..][k - 2] == hs[k - 1];
    }
  }

  /** A visit drops the handlers without a context, and keeps the others in their order. */
  lemma {:induction false} KeptInOrder(hs: seq<Handler>, k: nat)
    requires k < |hs| && hs[k].context
    ensures |WithContext(hs)| == Rank(hs, |hs|)
    ensures Rank(hs, k) < |WithContext(hs)| && WithContext(hs)[Rank(hs, k)] == hs[k]
    decreases |hs|
  {
    RankTail(hs, |hs|);
    if k == 0 {
      KeptCount(hs[1..]);
    } else {
      RankTail(hs, k);
      KeptInOrder(hs[1..], k - 1);
    }
  }

  lemma {:induction false} KeptCount(hs: seq<Handler>)
    ensures |WithContext(hs)| == Rank(hs, |hs|)
    decreases |hs|
  {
    if hs != [] {
      RankTail(hs, |hs|);
      KeptCount(hs[1..]);
    }
  }

  /** Handlers with the same contexts have the same ranks. */
  lemma {:induction false} SameRank(hs: seq<Handler>, gs: seq<Handler>, k: nat)
    requires |hs| == |gs| && k <= |hs|
    requires forall j :: 0 <= j < |hs| ==> hs[j].context == gs[j].context
    ensures Rank(hs, k) == Rank(gs, k)
    decreases k
  {
    if k > 0 {
      SameRank(hs, gs, k - 1);
    }
  }

  // ---------- a connection that fails ----------

  /** The call stands at this place now, finished as unavailable and without a stream. */
  predicate Unavailable(h: Handler, now: seq<Handler>, at: nat) {
    && at < |now| && now[at].state.Finished? && now[at].stream.NoStream?
    && now[at].past.raised == h.past.raised + [UNAVAILABLE]
  }

  /** After a socket error every call that was heard has ended without a stream: as unavailable, unless
      it had finished before. */
  lemma SocketErrorEnds(c: Channel, k: nat)
    requires k < |c.handlers| && c.handlers[k].context
    ensures var h, r := c.handlers[k], ChannelStep(c, SocketError);
            && Rank(c.handlers, k) < |r.handlers|
            && var g := r.handlers[Rank(c.handlers, k)];
            && g.state.Terminal() && g.stream.NoStream? && g.context
            && g.past.raised == h.past.raised + (if h.state.Finished? then [] else [UNAVAILABLE])
            && (Live(h) ==> Unavailable(h, r.handlers, Rank(c.handlers, k)))
  {
    KeptInOrder(c.handlers, k);
    CutOffRaises(c.handlers[k]);
    assert c.handlers[k].past.raised + [] == c.handlers[k].past.raised;
  }

  lemma SocketErrorEndsAll(c: Channel)
    ensures forall k :: 0 <= k < |c.handlers| && Live(c.handlers[k]) ==>
              Unavailable(c.handlers[k], OnSocketError(c).handlers, Rank(c.handlers, k))
  {
    hide Unavailable, Rank, OnSocketError;
    forall k | 0 <= k < |c.handlers| && Live(c.handlers[k])
      ensures Unavailable(c.handlers[k], OnSocketError(c).handlers, Rank(c.handlers, k))
    {
      SocketErrorEnds(c, k);
    }
  }

  lemma CutOffRaises(h: Handler)
    requires h.context
    ensures var g := CutOff(h);
            && g.state.Terminal() && g.stream.NoStream? && g.context
            && g.past.raised == h.past.raised + (if h.state.Finished? then [] else [UNAVAILABLE])
            && (Live(h) ==> g.state.Finished?)
  {
    assert h.past.raised + [] == h.past.raised;
  }

  // ---------- a stream or HEADERS that are refused ----------

  /** The call is to end as unavailable, and will when its turn comes. */
  predicate EndScheduled(h: Handler) {
    && h.context && !h.state.Terminal() && h.pendingFinish == [UNAVAILABLE]
    && Enabled(h, FinishFires)
    && Step(h, FinishFires).state.Finished?
    && Step(h, FinishFires).past.raised == h.past.raised + [UNAVAILABLE]
  }

  lemma Scheduled(h: Handler)
    requires h.context && !h.state.Terminal() && h.pendingFinish == []
    ensures EndScheduled(OnAsyncFinish(h, UNAVAILABLE))
  {
  }

  /** When the socket connects, each waiting call gets its stream, or is to end. */
  lemma ConnectedOrScheduled(events: seq<ChannelEvent>, createds: nat -> bool, k: nat)
    requires ChannelLegal(OPENED, events) && ChannelEnabled(Opened(events), SocketConnected(createds))
    requires k < |Opened(events).handlers| && Live(Opened(events).handlers[k])
    ensures var c := Opened(events);
            var h, r := c.handlers[k], ChannelStep(c, SocketConnected(createds));
            && Rank(c.handlers, k) < |r.handlers|
            && var g := r.handlers[Rank(c.handlers, k)];
            if createds(k) then g == h.(stream := Stream(None, false)) else EndScheduled(g)
  {
    hide EndScheduled, Sound, Awake, OnAsyncFinish;
    var c := Opened(events);
    ChannelRunKeeps(OPENED, events);
    assert Placed(c.state, c.streamsCreated, c.handlers[k]);
    var made := CreateStreams(c.handlers, createds);
    forall j | 0 <= j < |made| ensures made[j].context == c.handlers[j].context {
      MadeContext(c.handlers[j], createds(j));
    }
    SameRank(c.handlers, made, k);
    KeptInOrder(made, k);
    Scheduled(c.handlers[k]);
  }

  /** When the first SETTINGS come, each live call that has its stream sends its HEADERS, or is to end. */
  lemma RequestedOrScheduled(events: seq<ChannelEvent>, takens: nat -> bool, replies: nat -> seq<Answer>, k: nat)
    requires ChannelLegal(OPENED, events) && ChannelEnabled(Opened(events), SettingsFrame(takens, replies))
    requires k < |Opened(events).handlers| && Live(Opened(events).handlers[k])
    requires Opened(events).state.Connected?
    ensures var c := Opened(events);
            var h, r := c.handlers[k], ChannelStep(c, SettingsFrame(takens, replies));
            && Rank(c.handlers, k) < |r.handlers|
            && var g := r.handlers[Rank(c.handlers, k)];
            if takens(k) then g.state.RequestHeadersSent? && g.past.headers == 1 && g.past.accepted == h.past.accepted
            else EndScheduled(g)
  {
    hide EndScheduled, Awake, OnAsyncFinish, Conserves, Ends, Counted, Shaped, ProcessQueue;
    var c := Opened(events);
    ChannelRunKeeps(OPENED, events);
    assert Placed(c.state, c.streamsCreated, c.handlers[k]);
    var sent := SendInitialRequests(c.handlers, takens, replies);
    forall j | 0 <= j < |sent| ensures sent[j].context == c.handlers[j].context {
      RequestContext(c.handlers[j], takens(j), replies(j));
    }
    SameRank(c.handlers, sent, k);
    KeptInOrder(sent, k);
    Scheduled(c.handlers[k]);
    RequestSent(c.handlers[k], replies(k));
  }

  lemma RequestContext(h: Handler, taken: bool, answers: seq<Answer>)
    ensures OnSendInitialRequest(h, taken, answers).context == h.context
  {
    hide ProcessQueue;
    ProcessPlace(h.(state := RequestHeadersSent, past := h.past.(headers := h.past.headers + 1)), answers);
  }

  lemma {:induction false} DrainKeepsHeaders(h: Handler, answers: seq<Answer>)
    requires h.stream.Stream? && h.stream.upload.None?
    ensures DrainQueue(h, answers).past.headers == h.past.headers
    decreases |h.queue|
  {
    if h.queue != [] && (if answers == [] then Stalled(0) else answers[0]).Sent? {
      DrainKeepsHeaders(HandOver(h, Sent), answers[1..]);
    }
  }

  lemma RequestSent(h: Handler, answers: seq<Answer>)
    requires !h.state.Terminal()
    ensures var g := OnSendInitialRequest(h, true, answers);
            && g.state.RequestHeadersSent? && g.past.headers == h.past.headers + 1
            && g.past.accepted == h.past.accepted
  {
    hide DrainQueue;
    var sent := h.(state := RequestHeadersSent, past := h.past.(headers := h.past.headers + 1));
    Requests.ProcessFrame(sent, answers);
    if h.stream.Stream? && !h.Uploading() {
      DrainKeepsHeaders(sent, answers);
    }
  }

  predicate OnlyUnavailable(h: Handler) {
    forall i :: 0 <= i < |h.pendingFinish| ==> h.pendingFinish[i] == UNAVAILABLE
  }

  predicate AllUnavailable(c: Channel) {
    forall k :: 0 <= k < |c.handlers| ==> OnlyUnavailable(c.handlers[k])
  }

  lemma SendingPending(h: Handler, e: Event)
    requires Enabled(h, e) && (e.Write? || e.WritesDone? || e.SendInitialRequest? || e.UploadFinished?)
    requires OnlyUnavailable(h)
    ensures OnlyUnavailable(Step(h, e))
  {
    hide ProcessQueue, Frames.Framed;
    match e
    case Write(data, answers) => ProcessPlace(Enqueue(h, Message(data)), answers);
    case WritesDone(answers) => ProcessPlace(Enqueue(h.(writesDoneSent := true), []), answers);
    case SendInitialRequest(_, answers) =>
      ProcessPlace(h.(state := RequestHeadersSent, past := h.past.(headers := h.past.headers + 1)), answers);
    case UploadFinished(answers) =>
      var close := h.stream.upload.value.endStream;
      var freed := h.(stream := h.stream.(upload := None, closed := h.stream.closed || close));
      ProcessPlace(Completed(freed, !h.inFlightUserWrite), answers);
  }

  lemma StepPending(h: Handler, e: Event)
    requires Enabled(h, e) && Local(e) && OnlyUnavailable(h)
    ensures OnlyUnavailable(Step(h, e))
  {
    if e.Write? || e.WritesDone? || e.UploadFinished? {
      hide Step;
      SendingPending(h, e);
    } else if e.HeadersReceived? || e.DataReceived? {
      hide Judge, Consume, PhaseOf;
    } else {
      hide ProcessQueue, OnHeaders, OnData, OnWrite, OnWritesDone, OnUploadFinished, OnSendInitialRequest;
    }
  }

  lemma CreatedPending(h: Handler, created: bool)
    requires OnlyUnavailable(h)
    ensures OnlyUnavailable(CreateStream(h, created))
  {
  }

  lemma StartedPending(c: Channel, e: ChannelEvent)
    requires AllUnavailable(c) && e.StartCall?
    ensures AllUnavailable(OnStartCall(c, e.call, e.writable, e.created, e.taken, e.answers))
  {
    hide New, OnSendInitialRequest, CreateStream, OnlyUnavailable;
    var h := New(e.call.data, e.call.endStream, e.call.maxReceiveSize);
    NewPlace(e.call.data, e.call.endStream, e.call.maxReceiveSize);
    NothingPending(h);
    CreatedPending(h, e.created);
    var streamed := if c.connection then CreateStream(h, e.created) else h;
    InitialPending(streamed, e.taken, e.answers);
  }

  lemma NothingPending(h: Handler)
    requires h.pendingFinish == []
    ensures OnlyUnavailable(h)
  {
  }

  lemma InitialPending(h: Handler, taken: bool, answers: seq<Answer>)
    requires OnlyUnavailable(h)
    ensures OnlyUnavailable(OnSendInitialRequest(h, taken, answers))
  {
    hide ProcessQueue;
    ProcessPlace(h.(state := RequestHeadersSent, past := h.past.(headers := h.past.headers + 1)), answers);
  }

  lemma CutOffPending(h: Handler)
    requires OnlyUnavailable(h)
    ensures OnlyUnavailable(CutOff(h))
  {
  }

  lemma ChannelStepPending(c: Channel, e: ChannelEvent)
    requires AllUnavailable(c) && ChannelEnabled(c, e)
    ensures AllUnavailable(ChannelStep(c, e))
  {
    hide OnlyUnavailable, CreateStream, OnSendInitialRequest, CutOff, Step, OnStartCall;
    match e
    case StartCall(_, _, _, _, _) => StartedPending(c, e);
    case ReconnectTimeout =>
    case SocketConnected(createds) =>
      var made := CreateStreams(c.handlers, createds);
      forall k | 0 <= k < |made| ensures OnlyUnavailable(made[k]) {
        CreatedPending(c.handlers[k], createds(k));
      }
    case SettingsFrame(takens, replies) =>
      var sent := SendInitialRequests(c.handlers, takens, replies);
      forall k | 0 <= k < |sent| ensures OnlyUnavailable(sent[k]) {
        InitialPending(c.handlers[k], takens(k), replies(k));
      }
    case SocketError =>
      var kept := WithContext(c.handlers);
      forall k | 0 <= k < |kept| ensures OnlyUnavailable(CutOff(kept[k])) {
        CutOffPending(kept[k]);
      }
    case OnHandler(k, he) => StepPending(c.handlers[k], he);
    case Delete(k) =>
  }

  lemma {:induction false} RunPending(c: Channel, events: seq<ChannelEvent>)
    requires AllUnavailable(c) && ChannelLegal(c, events)
    ensures AllUnavailable(ChannelRun(c, events))
    decreases |events|
  {
    hide AllUnavailable, ChannelStep;
    if events != [] {
      ChannelStepPending(c, events[0]);
      RunPending(ChannelStep(c, events[0]), events[1..]);
    }
  }

  /** Whenever, in whatever run, the scheduled end of a live call comes, it ends as unavailable. */
  lemma ScheduledEnds(events: seq<ChannelEvent>, k: nat)
    requires ChannelLegal(OPENED, events) && k < |Opened(events).handlers|
    requires Live(Opened(events).handlers[k]) && Opened(events).handlers[k].pendingFinish != []
    ensures var h := Opened(events).handlers[k];
            && Enabled(h, FinishFires)
            && Step(h, FinishFires).state.Finished?
            && Step(h, FinishFires).past.raised == h.past.raised + [UNAVAILABLE]
  {
    RunPending(OPENED, events);
    assert OnlyUnavailable(Opened(events).handlers[k]);
  }

  // ---------- a call that is started ----------

  /** Unless its socket is found unwritable on a fresh connection, a started call joins the handlers with
      its first message in its request; without a stream or HEADERS it is to end as unavailable. */
  lemma StartedJoins(c: Channel, call: CallStart, writable: bool, created: bool, taken: bool, answers: seq<Answer>)
    requires |call.data| <= Frames.MAX_PAYLOAD_SIZE
    ensures var r := OnStartCall(c, call, writable, created, taken, answers);
            if !writable && c.state.Connected? then r == c
            else
              && |r.handlers| == |c.handlers| + 1 && r.handlers[..|c.handlers|] == c.handlers
              && var g := r.handlers[|c.handlers|];
              && |g.past.accepted| == 1 && Requests.Carries(g.past.accepted[0], call.data) && Live(g)
              && (c.connection && !created ==> EndScheduled(g))
              && (c.state.SettingsReceived? && (c.connection ==> created) && !taken ==> EndScheduled(g))
              && (c.connection && created ==> g.stream.Stream?)
  {
    hide EndScheduled, Message, OnSendInitialRequest, OnAsyncFinish, Requests.Carries, OnWrite;
    var h := New(call.data, call.endStream, call.maxReceiveSize);
    NewAccepts(call.data, call.endStream, call.maxReceiveSize);
    Scheduled(h);
    AsyncKeeps(h);
    var streamed := h.(stream := Stream(None, false));
    var joining := if c.connection then streamed else h;
    Scheduled(streamed);
    RequestKeeps(joining, taken, answers);
  }

  lemma NewAccepts(data: Octets, endStream: bool, maxReceiveSize: nat)
    requires |data| <= Frames.MAX_PAYLOAD_SIZE
    ensures var h := New(data, endStream, maxReceiveSize);
            && |h.past.accepted| == 1 && Requests.Carries(h.past.accepted[0], data)
            && h.context && h.state.Idle? && h.pendingFinish == []
  {
    hide Requests.Carries, Message, ProcessQueue;
    Requests.WriteAccepted(Blank(endStream, maxReceiveSize), data, []);
    ProcessPlace(Enqueue(Blank(endStream, maxReceiveSize), Message(data)), []);
  }

  lemma AsyncKeeps(h: Handler)
    requires h.context
    ensures var g := OnAsyncFinish(h, UNAVAILABLE);
            g.past == h.past && g.state == h.state && g.context
  {
  }

  lemma RequestKeeps(h: Handler, taken: bool, answers: seq<Answer>)
    requires Live(h)
    ensures var g := OnSendInitialRequest(h, taken, answers);
            && g.past.accepted == h.past.accepted && Live(g) && g.stream.Stream? == h.stream.Stream?
            && (!taken ==> g == OnAsyncFinish(h, UNAVAILABLE))
  {
    hide ProcessQueue;
    var sent := h.(state := RequestHeadersSent, past := h.past.(headers := h.past.headers + 1));
    Requests.ProcessFrame(sent, answers);
    ProcessPlace(sent, answers);
  }

  // ---------- a channel is never stuck ----------

  /** A channel that is connecting is about to: its socket has been told to connect, or the timer that
      will tell it to runs. */
  predicate Trying(c: Channel) {
    c.state.Connecting? ==> c.attempting || c.reconnecting
  }

  lemma StepTries(c: Channel, e: ChannelEvent)
    requires Trying(c) && InOrder(c) && ChannelEnabled(c, e)
    ensures Trying(ChannelStep(c, e))
  {
    hide Placed, New, OnSendInitialRequest, CreateStream, WithContext, CutOffAll, Step;
  }

  lemma {:induction false} RunTries(c: Channel, events: seq<ChannelEvent>)
    requires Trying(c) && InOrder(c) && ChannelLegal(c, events)
    ensures Trying(ChannelRun(c, events))
    decreases |events|
  {
    hide InOrder, ChannelStep, Trying;
    if events != [] {
      StepTries(c, events[0]);
      ChannelStepKeeps(c, events[0]);
      RunTries(ChannelStep(c, events[0]), events[1..]);
    }
  }

  /** In every run. So a call that waits for a connection waits for an event that can come. */
  lemma NeverStuck(events: seq<ChannelEvent>, createds: nat -> bool)
    requires ChannelLegal(OPENED, events) && Opened(events).state.Connecting?
    ensures ChannelEnabled(Opened(events), ReconnectTimeout)
            || ChannelEnabled(Opened(events), SocketConnected(createds))
  {
    RunTries(OPENED, events);
  }
}
