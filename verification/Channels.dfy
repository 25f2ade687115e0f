/**
 A channel: one connection at a time, and the handlers of the calls it carries. Handlers that wait
 for a connection get their streams when it is made and send their requests once the server's
 SETTINGS have come; a socket error ends them all.
 */
module Channels {
  import opened Octets
  import opened Headers
  import opened Calls
  import opened CallSafety

  datatype ConnectionState = Connecting | Connected | SettingsReceived | Error

  /** `reconnecting`: the timer runs; `attempting`: the socket has been told to connect;
      `streamsCreated`: the present connection has not failed to create a stream. */
  datatype Channel = Channel(
    state: ConnectionState,
    connection: bool,
    reconnecting: bool,
    attempting: bool,
    handlers: seq<Handler>,
    streamsCreated: bool)

  datatype CallStart = CallStart(data: Octets, endStream: bool, maxReceiveSize: nat)

  /** The transport's answers are functions of the handler's position. */
  datatype ChannelEvent =
    | StartCall(call: CallStart, writable: bool, created: bool, taken: bool, answers: seq<Answer>)
    | ReconnectTimeout
    | SocketConnected(createds: nat -> bool)
    | SettingsFrame(takens: nat -> bool, replies: nat -> seq<Answer>)
    | SocketError
    | OnHandler(k: nat, e: Event)
    | Delete(k: nat)

  /** A call that can still do something: it has a context and has not ended. */
  predicate Live(h: Handler) {
    h.context && !h.state.Terminal()
  }

  /** What a handler goes through without the channel. */
  predicate Local(e: Event) {
    !e.Attach? && !e.SendInitialRequest? && !e.StreamDestroyed? && !e.AsyncFinish?
  }

  // ---------- loops over the handlers ----------

  function WithContext(hs: seq<Handler>): (r: seq<Handler>)
    ensures forall k :: 0 <= k < |r| ==> r[k] in hs && r[k].context
  {
    if hs == [] then []
    else (if hs[0].context then [hs[0]] else []) + WithContext(hs[1..])
  }

  function CreateStream(h: Handler, created: bool): Handler {
    if created then h.(stream := Stream(None, false)) else OnAsyncFinish(h, UNAVAILABLE)
  }

  function CreateStreams(hs: seq<Handler>, createds: nat -> bool): (r: seq<Handler>)
    ensures |r| == |hs|
    ensures forall k :: 0 <= k < |r| ==> r[k] == if hs[k].context then CreateStream(hs[k], createds(k)) else hs[k]
  {
    seq(|hs|, k requires 0 <= k < |hs| => if hs[k].context then CreateStream(hs[k], createds(k)) else hs[k])
  }

  function SendInitialRequests(hs: seq<Handler>, takens: nat -> bool, replies: nat -> seq<Answer>): (r: seq<Handler>)
    ensures |r| == |hs|
    ensures forall k :: 0 <= k < |r| ==>
              r[k] == if hs[k].context then OnSendInitialRequest(hs[k], takens(k), replies(k)) else hs[k]
  {
    seq(|hs|, k requires 0 <= k < |hs| =>
          if hs[k].context then OnSendInitialRequest(hs[k], takens(k), replies(k)) else hs[k])
  }

  /** The handler is finished, and then loses its stream with the connection. */
  function CutOff(h: Handler): Handler {
    var ended := Finishing(h, UNAVAILABLE);
    if ended.stream.Stream? then Abandoned(ended, NoStream) else ended
  }

  function CutOffAll(hs: seq<Handler>): (r: seq<Handler>)
    ensures |r| == |hs| && forall k :: 0 <= k < |r| ==> r[k] == CutOff(hs[k])
  {
    seq(|hs|, k requires 0 <= k < |hs| => CutOff(hs[k]))
  }

  // ---------- steps ----------

  /** sendInitialRequest asserts that the handler has its stream, before it looks at anything else. */
  predicate StreamsReady(c: Channel) {
    forall k :: 0 <= k < |c.handlers| && c.handlers[k].context ==> c.handlers[k].stream.Stream?
  }

  predicate ChannelEnabled(c: Channel, e: ChannelEvent) {
    match e
    case StartCall(_, _, _, _, _) => true
    case ReconnectTimeout => c.reconnecting
    case SocketConnected(_) => c.attempting
    case SettingsFrame(_, _) => c.connection && (c.state.Connected? ==> StreamsReady(c))
    case SocketError => true
    case OnHandler(k, he) => k < |c.handlers| && Local(he) && Enabled(c.handlers[k], he)
    case Delete(k) => k < |c.handlers| && !Live(c.handlers[k])
  }

  /** processOperation. */
  function OnStartCall(c: Channel, call: CallStart, writable: bool, created: bool, taken: bool,
                       answers: seq<Answer>): Channel
  {
    if !writable && c.state.Connected? then c
    else
      var h := New(call.data, call.endStream, call.maxReceiveSize);
      var streamed := if c.connection then CreateStream(h, created) else h;
      if c.connection && !created then c.(handlers := c.handlers + [streamed], streamsCreated := false)
      else
        var started := if c.state.SettingsReceived? then OnSendInitialRequest(streamed, taken, answers) else streamed;
        var joined := c.(handlers := c.handlers + [started]);
        if c.state.Error? then joined.(state := Connecting, reconnecting := true) else joined
  }

  /** attemptConnect: a socket that is connected already is left alone. */
  function OnReconnectTimeout(c: Channel): Channel {
    c.(reconnecting := false, attempting := !c.connection)
  }

  /** createHttp2Connection. */
  function OnSocketConnected(c: Channel, createds: nat -> bool): Channel {
    c.(state := Connected, connection := true, attempting := false,
       handlers := WithContext(CreateStreams(c.handlers, createds)),
       streamsCreated := forall k :: 0 <= k < |c.handlers| && c.handlers[k].context ==> createds(k))
  }

  function OnSettingsFrame(c: Channel, takens: nat -> bool, replies: nat -> seq<Answer>): Channel {
    if c.state.SettingsReceived? then c
    else c.(state := SettingsReceived,
            handlers := WithContext(SendInitialRequests(c.handlers, takens, replies)))
  }

  /** handleSocketError. */
  function OnSocketError(c: Channel): Channel {
    c.(state := Error, connection := false, attempting := false, handlers := CutOffAll(WithContext(c.handlers)))
  }

  function ChannelStep(c: Channel, e: ChannelEvent): Channel
    requires ChannelEnabled(c, e)
  {
    match e
    case StartCall(call, writable, created, taken, answers) => OnStartCall(c, call, writable, created, taken, answers)
    case ReconnectTimeout => OnReconnectTimeout(c)
    case SocketConnected(createds) => OnSocketConnected(c, createds)
    case SettingsFrame(takens, replies) => OnSettingsFrame(c, takens, replies)
    case SocketError => OnSocketError(c)
    case OnHandler(k, he) => c.(handlers := c.handlers[k := Step(c.handlers[k], he)])
    case Delete(k) => c.(handlers := c.handlers[..k] + c.handlers[k + 1..])
  }

  /** The constructor starts the first attempt. */
  const OPENED: Channel := Channel(Connecting, false, false, true, [], true)

  predicate ChannelLegal(c: Channel, events: seq<ChannelEvent>)
    decreases |events|
  {
    events == [] || (ChannelEnabled(c, events[0]) && ChannelLegal(ChannelStep(c, events[0]), events[1..]))
  }

  function ChannelRun(c: Channel, events: seq<ChannelEvent>): Channel
    requires ChannelLegal(c, events)
    decreases |events|
  {
    if events == [] then c else ChannelRun(ChannelStep(c, events[0]), events[1..])
  }

  // ---------- what is kept ----------

  /** Where a handler stands, by the state of its channel. A live call that has been refused a stream
      or its HEADERS is about to end: a finish is pending. */
  predicate Placed(state: ConnectionState, streamsCreated: bool, h: Handler) {
    && Sound(h) && Awake(h)
    && (state.Connecting? || state.Error? ==> h.stream.NoStream?)
    && (state.Connecting? && Live(h) ==> h.state.Idle? && h.pendingFinish == [])
    && (state.Connected? && Live(h) ==> h.state.Idle? && (h.stream.NoStream? <==> h.pendingFinish != []))
    && (state.SettingsReceived? && Live(h) ==> (h.state.Idle? <==> h.pendingFinish != []))
    && (state.Error? ==> !Live(h))
    && ((state.Connected? || state.SettingsReceived?) && streamsCreated && h.context ==> h.stream.Stream?)
  }

  predicate InOrder(c: Channel) {
    && (c.connection <==> c.state.Connected? || c.state.SettingsReceived?)
    && (c.attempting ==> !c.connection)
    && forall k :: 0 <= k < |c.handlers| ==> Placed(c.state, c.streamsCreated, c.handlers[k])
  }
}
