/** What holds in every run of a channel. */
module ChannelSafety {
  import opened Octets
  import opened Headers
  import opened Calls
  import opened CallSafety
  import opened Channels
  import Frames

  // ---------- one handler ----------

  lemma {:induction false} DrainPlace(h: Handler, answers: seq<Answer>)
    requires h.stream.Stream? && h.stream.upload.None?
    ensures var r := DrainQueue(h, answers);
            r.state == h.state && r.context == h.context && r.pendingFinish == h.pendingFinish && r.stream.Stream?
    decreases |h.queue|
  {
    if h.queue != [] && (if answers == [] then Stalled(0) else answers[0]).Sent? {
      DrainPlace(HandOver(h, Sent), answers[1..]);
    }
  }

  lemma ProcessPlace(h: Handler, answers: seq<Answer>)
    ensures var r := ProcessQueue(h, answers);
            && r.state == h.state && r.context == h.context && r.pendingFinish == h.pendingFinish
            && r.stream.Stream? == h.stream.Stream?
  {
    hide DrainQueue;
    if h.stream.Stream? && !h.state.Idle? && !h.Uploading() {
      DrainPlace(h, answers);
    }
  }

  /** An event between a handler and its stream or user neither gives it a stream nor takes one, and
      does not move it past Idle; a call that can still do something could do so before. */
  predicate KeepsPlace(h: Handler, r: Handler) {
    && r.stream.Stream? == h.stream.Stream?
    && (r.context ==> h.context)
    && (Live(r) ==> Live(h) && r.pendingFinish == h.pendingFinish && (r.state.Idle? <==> h.state.Idle?))
  }

  lemma SendingKeepsPlace(h: Handler, e: Event)
    requires Enabled(h, e) && (e.Write? || e.WritesDone? || e.UploadFinished?)
    ensures KeepsPlace(h, Step(h, e))
  {
    hide ProcessQueue, Message;
    match e
    case Write(data, answers) => ProcessPlace(Enqueue(h, Message(data)), answers);
    case WritesDone(answers) => ProcessPlace(Enqueue(h.(writesDoneSent := true), []), answers);
    case UploadFinished(answers) =>
      var close := h.stream.upload.value.endStream;
      var freed := h.(stream := h.stream.(upload := None, closed := h.stream.closed || close));
      ProcessPlace(Completed(freed, !h.inFlightUserWrite), answers);
  }

  lemma LocalKeepsPlace(h: Handler, e: Event)
    requires Enabled(h, e) && Local(e)
    ensures KeepsPlace(h, Step(h, e))
  {
    if e.Write? || e.WritesDone? || e.UploadFinished? {
      SendingKeepsPlace(h, e);
    } else if e.HeadersReceived? || e.DataReceived? {
      ReceivingKeepsPlace(h, e);
    } else {
      hide ProcessQueue, OnHeaders, OnData, OnWrite, OnWritesDone, OnUploadFinished, OnSendInitialRequest;
    }
  }

  lemma ReceivingKeepsPlace(h: Handler, e: Event)
    requires Enabled(h, e) && (e.HeadersReceived? || e.DataReceived?)
    ensures KeepsPlace(h, Step(h, e))
  {
    hide Judge, Consume;
  }

  lemma LocalPlaced(c: Channel, h: Handler, e: Event)
    requires Placed(c.state, c.streamsCreated, h) && Enabled(h, e) && Local(e)
    ensures Placed(c.state, c.streamsCreated, Step(h, e))
  {
    hide Sound, Awake, Step;
    StepKeeps(h, e);
    LocalKeepsPlace(h, e);
  }

  lemma NewPlace(data: Octets, endStream: bool, maxReceiveSize: nat)
    ensures var h := New(data, endStream, maxReceiveSize);
            && Sound(h) && Awake(h) && h.context && h.stream.NoStream? && h.pendingFinish == []
            && (h.state.Idle? || h.state.Finished?)
  {
    hide Message;
    NewSound(data, endStream, maxReceiveSize);
  }

  /** A handler that waits for a connection, or one that an error has left behind, is offered a stream. */
  lemma CreatePlaced(state: ConnectionState, h: Handler, created: bool, flag: bool)
    requires Placed(state, flag, h) && h.context && (state.Connecting? || state.Error?)
    ensures Placed(Connected, created, CreateStream(h, created))
  {
    hide Sound, Awake;
    var e := if created then Attach else AsyncFinish(UNAVAILABLE);
    assert CreateStream(h, created) == Step(h, e);
    StepKeeps(h, e);
  }

  /** A new call on a connection is offered a stream. */
  lemma NewCreatedPlaced(state: ConnectionState, h: Handler, created: bool, flag: bool)
    requires state.Connected? || state.SettingsReceived?
    requires Sound(h) && Awake(h) && h.context && h.stream.NoStream? && h.pendingFinish == []
    requires h.state.Idle? || h.state.Finished?
    ensures created ==> Placed(Connected, flag, CreateStream(h, true))
    ensures !created ==> Placed(state, false, CreateStream(h, false))
  {
    hide Sound, Awake;
    var e := if created then Attach else AsyncFinish(UNAVAILABLE);
    assert CreateStream(h, created) == Step(h, e);
    StepKeeps(h, e);
  }

  lemma InitialPlaced(h: Handler, flag: bool, taken: bool, answers: seq<Answer>)
    requires Placed(Connected, flag, h) && h.context && h.stream.Stream?
    ensures Placed(SettingsReceived, flag, OnSendInitialRequest(h, taken, answers))
  {
    hide Sound, Awake, ProcessQueue;
    var e := SendInitialRequest(taken, answers);
    assert Enabled(h, e) && OnSendInitialRequest(h, taken, answers) == Step(h, e);
    StepKeeps(h, e);
    ProcessPlace(h.(state := RequestHeadersSent, past := h.past.(headers := h.past.headers + 1)), answers);
  }

  lemma CutOffPlaced(state: ConnectionState, flag: bool, h: Handler)
    requires Placed(state, flag, h) && h.context
    ensures Placed(Error, flag, CutOff(h))
  {
    hide Sound, Awake, Abandoned;
    StepKeeps(h, Finish(UNAVAILABLE));
    var ended := Finishing(h, UNAVAILABLE);
    assert ended.state.Terminal();
    if ended.stream.Stream? {
      StepKeeps(ended, StreamDestroyed);
      AbandonedPlace(ended);
    }
  }

  lemma AbandonedPlace(h: Handler)
    ensures Abandoned(h, NoStream).stream == NoStream && Abandoned(h, NoStream).state == h.state
  {
  }

  // ---------- the channel ----------

  /** A call that is started at most joins the handlers. */
  lemma StartCallKeeps(c: Channel, e: ChannelEvent)
    requires InOrder(c) && e.StartCall?
    ensures InOrder(OnStartCall(c, e.call, e.writable, e.created, e.taken, e.answers))
    ensures var r := OnStartCall(c, e.call, e.writable, e.created, e.taken, e.answers);
            c.handlers <= r.handlers && |r.handlers| <= |c.handlers| + 1
  {
    hide Sound, Awake, New, OnSendInitialRequest, CreateStream;
    var h := New(e.call.data, e.call.endStream, e.call.maxReceiveSize);
    NewPlace(e.call.data, e.call.endStream, e.call.maxReceiveSize);
    if c.connection {
      NewCreatedPlaced(c.state, h, e.created, c.streamsCreated);
      FlagDropped(c);
      CreatedStream(h, e.created);
      if e.created && c.state.SettingsReceived? {
        InitialPlaced(CreateStream(h, true), c.streamsCreated, e.taken, e.answers);
      }
    }
  }

  /** Forgetting that all streams could be created keeps every handler in place. */
  lemma FlagDropped(c: Channel)
    requires InOrder(c)
    ensures InOrder(c.(streamsCreated := false))
  {
    hide Sound, Awake;
  }

  lemma CreatedStream(h: Handler, created: bool)
    requires h.context
    ensures CreateStream(h, created).context
    ensures created ==> CreateStream(h, created).stream.Stream?
    ensures !created ==> CreateStream(h, created).pendingFinish != []
  {
  }

  lemma SocketConnectedKeeps(c: Channel, createds: nat -> bool)
    requires InOrder(c) && c.attempting
    ensures InOrder(OnSocketConnected(c, createds))
  {
    hide Placed, CreateStream, CreateStreams;
    var r := OnSocketConnected(c, createds);
    var made := CreateStreams(c.handlers, createds);
    forall k | 0 <= k < |made| && made[k].context
      ensures Placed(Connected, r.streamsCreated, made[k])
    {
      MadeContext(c.handlers[k], createds(k));
      CreatePlaced(c.state, c.handlers[k], createds(k), c.streamsCreated);
      PlacedWeaker(Connected, createds(k), r.streamsCreated, made[k]);
    }
  }

  lemma MadeContext(h: Handler, created: bool)
    ensures CreateStream(h, created).context == h.context
  {
  }

  lemma PlacedWeaker(state: ConnectionState, flag: bool, weaker: bool, h: Handler)
    requires Placed(state, flag, h) && (weaker ==> flag)
    ensures Placed(state, weaker, h)
  {
  }

  lemma SettingsFrameKeeps(c: Channel, takens: nat -> bool, replies: nat -> seq<Answer>)
    requires InOrder(c) && ChannelEnabled(c, SettingsFrame(takens, replies))
    ensures InOrder(OnSettingsFrame(c, takens, replies))
  {
    hide Placed, OnSendInitialRequest;
    if c.state.Connected? {
      var sent := SendInitialRequests(c.handlers, takens, replies);
      forall k | 0 <= k < |sent| && sent[k].context
        ensures Placed(SettingsReceived, c.streamsCreated, sent[k])
      {
        if c.handlers[k].context {
          InitialPlaced(c.handlers[k], c.streamsCreated, takens(k), replies(k));
        }
      }
    }
  }

  lemma SocketErrorKeeps(c: Channel)
    requires InOrder(c)
    ensures InOrder(OnSocketError(c))
  {
    hide Placed, CutOff;
    var kept := WithContext(c.handlers);
    forall k | 0 <= k < |kept| ensures Placed(Error, c.streamsCreated, CutOff(kept[k])) {
      CutOffPlaced(c.state, c.streamsCreated, kept[k]);
    }
  }

  lemma ChannelStepKeeps(c: Channel, e: ChannelEvent)
    requires InOrder(c) && ChannelEnabled(c, e)
    ensures InOrder(ChannelStep(c, e))
  {
    match e
    case StartCall(_, _, _, _, _) => StartCallKeeps(c, e);
    case ReconnectTimeout => hide Placed;
    case SocketConnected(createds) => SocketConnectedKeeps(c, createds);
    case SettingsFrame(takens, replies) => SettingsFrameKeeps(c, takens, replies);
    case SocketError => SocketErrorKeeps(c);
    case OnHandler(k, he) =>
      hide Placed, Step;
      LocalPlaced(c, c.handlers[k], he);
    case Delete(k) => hide Placed;
  }

  lemma {:induction false} ChannelRunKeeps(c: Channel, events: seq<ChannelEvent>)
    requires InOrder(c) && ChannelLegal(c, events)
    ensures InOrder(ChannelRun(c, events))
    decreases |events|
  {
    hide InOrder, ChannelStep;
    if events != [] {
      ChannelStepKeeps(c, events[0]);
      ChannelRunKeeps(ChannelStep(c, events[0]), events[1..]);
    }
  }

  // ---------- the promises ----------

  /** The channel after a run from its construction. */
  function Opened(events: seq<ChannelEvent>): Channel
    requires ChannelLegal(OPENED, events)
  {
    ChannelRun(OPENED, events)
  }

  /** A connection exists exactly when the state says so, and no socket is about to connect then: none
      is ever made over another. */
  lemma OneConnection(events: seq<ChannelEvent>)
    requires ChannelLegal(OPENED, events)
    ensures var c := Opened(events);
            && (c.connection <==> c.state.Connected? || c.state.SettingsReceived?)
            && forall createds :: ChannelEnabled(c, SocketConnected(createds)) ==> !c.connection
  {
    hide Placed;
    ChannelRunKeeps(OPENED, events);
  }

  /** Where the live calls of a channel stand; nothing has been sent for those still Idle, and no call
      ever sends its HEADERS twice. */
  lemma CallsInPlace(events: seq<ChannelEvent>, k: nat)
    requires ChannelLegal(OPENED, events) && k < |Opened(events).handlers|
    ensures var c := Opened(events);
            var h := c.handlers[k];
            && h.past.headers <= 1
            && (Live(h) && c.state.Connecting? ==> h.state.Idle? && h.stream.NoStream? && h.pendingFinish == [])
            && (Live(h) && c.state.Connected? ==> h.state.Idle? && (h.stream.Stream? <==> h.pendingFinish == []))
            && (Live(h) && c.state.SettingsReceived? ==> (h.state.Idle? <==> h.pendingFinish != []))
            && (c.state.Error? ==> !Live(h))
            && (h.state.Idle? ==> h.past.headers == 0 && h.past.handed == [])
  {
    hide Total, RefusedBytes, UserWrites, Messages, Conserves, Ends, Counted, Shaped, Awake;
    ChannelRunKeeps(OPENED, events);
  }

  /** When SETTINGS come, sendInitialRequest finds a live call Idle, as it asserts, and with the stream
      it asserts exactly when the call has not been refused one. */
  lemma InitialRequestsAllowed(events: seq<ChannelEvent>, k: nat)
    requires ChannelLegal(OPENED, events) && k < |Opened(events).handlers|
    requires Opened(events).state.Connected? && Live(Opened(events).handlers[k])
    ensures var h := Opened(events).handlers[k];
            h.state.Idle? && (h.stream.Stream? <==> h.pendingFinish == [])
  {
    hide Sound, Awake;
    ChannelRunKeeps(OPENED, events);
  }

  /** A call that has ended but still has its context is visited too: it has a stream if the present
      connection has refused none. */
  lemma EndedCallsHaveStreams(events: seq<ChannelEvent>, k: nat)
    requires ChannelLegal(OPENED, events) && k < |Opened(events).handlers|
    requires Opened(events).state.Connected? && Opened(events).handlers[k].context
    ensures Opened(events).streamsCreated ==> Opened(events).handlers[k].stream.Stream?
  {
    hide Sound, Awake;
    ChannelRunKeeps(OPENED, events);
  }

  /** When the socket connects, no handler has a stream yet, as attachStream asserts. */
  lemma StreamsUnattached(events: seq<ChannelEvent>, k: nat)
    requires ChannelLegal(OPENED, events) && k < |Opened(events).handlers|
    requires Opened(events).attempting
    ensures Opened(events).handlers[k].stream.NoStream?
  {
    hide Sound, Awake;
    ChannelRunKeeps(OPENED, events);
  }

  function NoneCreated(k: nat): bool {
    false
  }

  lemma ChannelRunCons(c: Channel, e: ChannelEvent, events: seq<ChannelEvent>)
    requires ChannelEnabled(c, e) && ChannelLegal(ChannelStep(c, e), events)
    ensures ChannelLegal(c, [e] + events) && ChannelRun(c, [e] + events) == ChannelRun(ChannelStep(c, e), events)
  {
    assert ([e] + events)[1..] == events;
  }

  lemma OneVisited(h: Handler, created: bool, createds: nat -> bool)
    requires createds(0) == created && h.context
    ensures WithContext(CreateStreams([h], createds)) == [CreateStream(h, created)]
  {
    hide CreateStream;
    var made := CreateStream(h, created);
    MadeContext(h, created);
    assert CreateStreams([h], createds) == [made];
    assert WithContext([made]) == [made] + WithContext([]);
  }

  /** A call started before the channel has connected waits; on a connection that creates no stream
      it is left without one. */
  lemma StreamRefused(call: CallStart)
    ensures var c := OnStartCall(OPENED, call, true, true, true, []);
            && c == OPENED.(handlers := c.handlers)
            && var d := OnSocketConnected(c, NoneCreated);
            && |d.handlers| == 1 && d.handlers[0].context && d.handlers[0].stream.NoStream?
  {
    hide New, CreateStreams, WithContext, Sound, Awake;
    NewPlace(call.data, call.endStream, call.maxReceiveSize);
    var h := New(call.data, call.endStream, call.maxReceiveSize);
    assert OnStartCall(OPENED, call, true, true, true, []).handlers == [h];
    OneVisited(h, false, NoneCreated);
  }

  /** If a stream could not be created, SETTINGS may find a handler without one: the assertion in
      sendInitialRequest does not allow for it. */
  lemma StreamMissing(call: CallStart)
    ensures var events := [StartCall(call, true, true, true, [])] + ([SocketConnected(NoneCreated)] + []);
            && ChannelLegal(OPENED, events)
            && Opened(events).state.Connected?
            && !StreamsReady(Opened(events))
  {
    hide OnStartCall, CreateStreams, WithContext;
    var start, connected := StartCall(call, true, true, true, []), SocketConnected(NoneCreated);
    StreamRefused(call);
    var c := ChannelStep(OPENED, start);
    ChannelRunCons(c, connected, []);
    ChannelRunCons(OPENED, start, [connected] + []);
  }
}
