/**
 One call on an HTTP/2 stream: the state of its handler, and what each event makes of it.

 The answers of the transport (whether a frame is taken, how much of it goes out at once) come with
 the event. `past` records what went on, for the statements about whole runs; no step looks at it.
 */
module Calls {
  import opened Octets
  import opened Frames
  import opened Headers

  datatype State = Idle | RequestHeadersSent | Active | Cancelled | Finished
  {
    predicate Terminal() {
      Cancelled? || Finished?
    }
  }

  /** A message on its way: the octets not yet written, and whether it ends the stream. */
  datatype Upload = Upload(remaining: nat, endStream: bool)

  datatype Stream =
    | NoStream
    | Stream(upload: Option<Upload>, closed: bool)   // closed: for sending

  /** How sendDATA goes: not taken, written and reported finished at once, or stalled half-way. */
  datatype Answer = Refused | Sent | Stalled(written: nat)

  datatype Handed = Handed(message: Octets, endStream: bool, refused: bool)

  datatype Past = Past(
    accepted: seq<Octets>,       // what was queued
    handed: seq<Handed>,         // what was given to sendDATA
    headers: nat,                // request HEADERS sent
    completed: nat,              // messages that did not end the stream, written completely
    abandoned: nat,              // octets of a message given up with its stream
    abandonedWrites: nat,        // messages given up that did not end the stream
    delivered: nat,              // messageWritten emitted
    suppressed: nat,             // messageWritten not emitted any more
    phases: seq<Phase>,
    received: seq<Octets>,
    raised: seq<nat>)            // finished emitted on the context, with its code

  datatype Handler = Handler(
    context: bool,
    state: State,
    stream: Stream,
    queue: seq<Octets>,
    endStreamAtFirstData: bool,
    writesDoneSent: bool,
    inFlightUserWrite: bool,
    queuedBytes: int,
    bytesToWrite: int,
    container: Octets,
    maxReceiveSize: nat,
    pendingWritten: nat,         // messageWritten invocations in the event queue
    pendingFinish: seq<nat>,     // finishes in the event queue
    past: Past)
  {
    predicate ClosedForSending() {
      stream.Stream? && stream.closed
    }

    predicate Uploading() {
      stream.Stream? && stream.upload.Some?
    }
  }

  datatype Event =
    | Write(data: Octets, answers: seq<Answer>)
    | WritesDone(answers: seq<Answer>)
    | Attach
    | SendInitialRequest(taken: bool, answers: seq<Answer>)
    | BytesWritten(count: nat)
    | UploadFinished(answers: seq<Answer>)
    | HeadersReceived(headers: seq<Header>, endStream: bool)
    | DataReceived(data: Octets, endStream: bool)
    | Cancel(code: nat)             // by the user or the deadline
    | Finish(code: nat)             // a stream or socket error
    | AsyncFinish(code: nat)
    | FinishFires
    | WrittenFires
    | ContextDestroyed
    | StreamClosed
    | StreamDestroyed

  // ---------- sending ----------

  function Message(data: Octets): (m: Octets)
    ensures |m| == HEADER_SIZE + |data|
  {
    Framed(Frame(0, data))
  }

  function Enqueue(h: Handler, m: Octets): Handler {
    h.(queue := h.queue + [m], queuedBytes := h.queuedBytes + |m|, bytesToWrite := h.bytesToWrite + |m|,
       past := h.past.(accepted := h.past.accepted + [m]))
  }

  predicate Closes(h: Handler)
    requires h.queue != []
  {
    h.queue[0] == [] || h.endStreamAtFirstData
  }

  /** The message at the head of the queue is taken off it. */
  function TakeOff(h: Handler, refused: bool): Handler
    requires h.queue != []
  {
    h.(queue := h.queue[1..], queuedBytes := h.queuedBytes - |h.queue[0]|, inFlightUserWrite := !Closes(h),
       past := h.past.(handed := h.past.handed + [Handed(h.queue[0], Closes(h), refused)]))
  }

  /** The transport answers for a message of the given size. */
  function Answered(h: Handler, size: nat, close: bool, answer: Answer): Handler
    requires h.stream.Stream?
  {
    match answer
    case Refused => h.(inFlightUserWrite := false)
    case Stalled(written) =>
      var n := if written <= size then written else size;
      h.(bytesToWrite := h.bytesToWrite - n, stream := h.stream.(upload := Some(Upload(size - n, close))))
    case Sent =>
      Completed(h.(bytesToWrite := h.bytesToWrite - size,
                   stream := h.stream.(upload := None, closed := h.stream.closed || close)), close)
  }

  /** The message at the head of the queue is given to the transport. */
  function HandOver(h: Handler, answer: Answer): (r: Handler)
    requires h.stream.Stream? && h.queue != []
    ensures r.queue == h.queue[1..] && r.stream.Stream?
  {
    Answered(TakeOff(h, answer.Refused?), |h.queue[0]|, Closes(h), answer)
  }

  /** A message has been written completely. */
  function Completed(h: Handler, close: bool): Handler {
    if close then h.(inFlightUserWrite := false)
    else h.(inFlightUserWrite := false, pendingWritten := h.pendingWritten + 1,
            past := h.past.(completed := h.past.completed + 1))
  }

  /** Messages are handed over until one is refused or stalls. Beyond the answers given, they stall. */
  function DrainQueue(h: Handler, answers: seq<Answer>): (r: Handler)
    requires h.stream.Stream? && h.stream.upload.None?
    ensures r.stream.Stream?
    decreases |h.queue|
  {
    if h.queue == [] then h
    else
      var answer, rest := if answers == [] then Stalled(0) else answers[0], if answers == [] then [] else answers[1..];
      if answer.Sent? then DrainQueue(HandOver(h, answer), rest) else HandOver(h, answer)
  }

  function ProcessQueue(h: Handler, answers: seq<Answer>): Handler {
    if h.stream.NoStream? || h.state.Idle? || h.Uploading() then h else DrainQueue(h, answers)
  }

  // ---------- ending ----------

  function Expired(h: Handler): Handler {
    h.(state := Cancelled)
  }

  function Finishing(h: Handler, code: nat): Handler {
    if !h.context then Expired(h)
    else if h.state.Finished? then h
    else h.(state := if h.state.Cancelled? then Cancelled else Finished,
            past := h.past.(raised := h.past.raised + [code]))
  }

  // ---------- receiving ----------

  /** What the data handler makes of its buffer: payloads, the rest, and the error that stopped it. */
  datatype Consumed = Consumed(payloads: seq<Octets>, rest: Octets, failure: Option<nat>)

  /** A compressed frame is an error, as no encoding has been negotiated. */
  function Consume(d: Octets, limit: nat): Consumed
    decreases |d|
  {
    match ParseNext(d, limit)
    case NeedMoreData => Consumed([], d, None)
    case Oversize(_) => Consumed([], [], Some(RESOURCE_EXHAUSTED))
    case Parsed(f, size) =>
      if f.IsCompressed() then Consumed([], d[size..], Some(INTERNAL))
      else
        var more := Consume(d[size..], limit);
        more.(payloads := [f.payload] + more.payloads)
  }

  function PhaseOf(state: State, endStream: bool): Option<Phase> {
    if state.RequestHeadersSent? then Some(if endStream then TrailersOnly else Initial)
    else if state.Active? && endStream then Some(Trailers)
    else None
  }

  function OnHeaders(h: Handler, headers: seq<Header>, endStream: bool): Handler {
    if h.state.Terminal() then h
    else match PhaseOf(h.state, endStream)
      case None => h
      case Some(phase) =>
        var active := h.(state := Active, past := h.past.(phases := h.past.phases + [phase]));
        if !h.context then Expired(active)
        else match Judge(headers, phase)
          case Continue => active
          case End(code) => Finishing(active, code)
  }

  function OnData(h: Handler, data: Octets, endStream: bool): Handler {
    if h.state.Cancelled? then h
    else
      var c := Consume(h.container + data, h.maxReceiveSize);
      var got := h.(container := c.rest, past := h.past.(received := h.past.received + c.payloads));
      if c.failure.Some? then Finishing(got, c.failure.value)
      else if endStream then Finishing(got, if c.rest == [] then OK else DATA_LOSS)
      else got
  }

  // ---------- steps ----------

  function OnWrite(h: Handler, data: Octets, answers: seq<Answer>): Handler {
    if h.writesDoneSent || h.state.Terminal() || h.ClosedForSending() then h
    else if |data| > MAX_PAYLOAD_SIZE then Finishing(h, RESOURCE_EXHAUSTED)
    else ProcessQueue(Enqueue(h, Message(data)), answers)
  }

  function OnWritesDone(h: Handler, answers: seq<Answer>): Handler {
    if h.writesDoneSent || h.state.Terminal() then h
    else
      var done := h.(writesDoneSent := true);
      if h.ClosedForSending() then done else ProcessQueue(Enqueue(done, []), answers)
  }

  function OnSendInitialRequest(h: Handler, taken: bool, answers: seq<Answer>): Handler {
    if h.state.Terminal() then h
    else if !taken then OnAsyncFinish(h, UNAVAILABLE)
    else ProcessQueue(h.(state := RequestHeadersSent, past := h.past.(headers := h.past.headers + 1)), answers)
  }

  function OnAsyncFinish(h: Handler, code: nat): Handler {
    if h.context then h.(pendingFinish := h.pendingFinish + [code]) else Expired(h)
  }

  function OnBytesWritten(h: Handler, count: nat): Handler
    requires h.Uploading() && count <= h.stream.upload.value.remaining
  {
    var u := h.stream.upload.value;
    h.(bytesToWrite := h.bytesToWrite - count,
       stream := h.stream.(upload := Some(u.(remaining := u.remaining - count))))
  }

  function OnUploadFinished(h: Handler, answers: seq<Answer>): Handler
    requires h.Uploading()
  {
    var close := h.stream.upload.value.endStream;
    var freed := h.(stream := h.stream.(upload := None, closed := h.stream.closed || close));
    ProcessQueue(Completed(freed, !h.inFlightUserWrite), answers)
  }

  function OnCancel(h: Handler, code: nat): Handler {
    if h.state.Terminal() then h else Finishing(h.(state := Cancelled), code)
  }

  function OnFinishFires(h: Handler): Handler
    requires h.pendingFinish != []
  {
    Finishing(h.(pendingFinish := h.pendingFinish[1..]), h.pendingFinish[0])
  }

  /** A deferred messageWritten is emitted unless the call has ended meanwhile. */
  function OnWrittenFires(h: Handler): Handler
    requires h.pendingWritten > 0
  {
    var fired := h.(pendingWritten := h.pendingWritten - 1);
    if h.context && !h.state.Terminal() then fired.(past := h.past.(delivered := h.past.delivered + 1))
    else fired.(past := h.past.(suppressed := h.past.suppressed + 1))
  }

  /** What the stream had in transmission is given up. */
  function Abandoned(h: Handler, stream: Stream): Handler {
    if h.Uploading() then
      var u := h.stream.upload.value;
      h.(stream := stream,
         past := h.past.(abandoned := h.past.abandoned + u.remaining,
                         abandonedWrites := h.past.abandonedWrites + if u.endStream then 0 else 1))
    else h.(stream := stream)
  }

  /** What may happen: the context's signals need the context, the stream's signals the stream. The
      context asserts that neither write signal is used on a call with a single request message. */
  predicate Enabled(h: Handler, e: Event) {
    match e
    case Write(_, _) => h.context && !h.endStreamAtFirstData
    case WritesDone(_) => h.context && !h.endStreamAtFirstData
    case Attach => h.stream.NoStream?
    case SendInitialRequest(_, _) => h.stream.Stream? && (h.state.Idle? || h.state.Terminal())
    case BytesWritten(count) => h.Uploading() && count <= h.stream.upload.value.remaining
    case UploadFinished(_) => h.Uploading() && h.stream.upload.value.remaining == 0
    case HeadersReceived(_, _) => h.stream.Stream?
    case DataReceived(_, _) => h.stream.Stream? && h.context
    case FinishFires => h.pendingFinish != [] && h.context
    case WrittenFires => h.pendingWritten > 0
    case StreamClosed => h.stream.Stream?
    case StreamDestroyed => h.stream.Stream? && h.state.Terminal()
    case _ => true
  }

  function Step(h: Handler, e: Event): Handler
    requires Enabled(h, e)
  {
    match e
    case Write(data, answers) => OnWrite(h, data, answers)
    case WritesDone(answers) => OnWritesDone(h, answers)
    case Attach => h.(stream := Stream(None, false))
    case SendInitialRequest(taken, answers) => OnSendInitialRequest(h, taken, answers)
    case BytesWritten(count) => OnBytesWritten(h, count)
    case UploadFinished(answers) => OnUploadFinished(h, answers)
    case HeadersReceived(headers, endStream) => OnHeaders(h, headers, endStream)
    case DataReceived(data, endStream) => OnData(h, data, endStream)
    case Cancel(code) => OnCancel(h, code)
    case Finish(code) => Finishing(h, code)
    case AsyncFinish(code) => OnAsyncFinish(h, code)
    case FinishFires => OnFinishFires(h)
    case WrittenFires => OnWrittenFires(h)
    case ContextDestroyed => h.(context := false)
    case StreamClosed => Abandoned(h, Stream(None, true))
    case StreamDestroyed => Abandoned(h, NoStream)
  }

  // ---------- runs ----------

  function Blank(endStream: bool, maxReceiveSize: nat): Handler {
    Handler(true, Idle, NoStream, [], endStream, false, false, 0, 0, [], maxReceiveSize, 0, [],
            Past([], [], 0, 0, 0, 0, 0, 0, [], [], []))
  }

  /** The constructor queues the first message itself. */
  function New(data: Octets, endStream: bool, maxReceiveSize: nat): Handler {
    OnWrite(Blank(endStream, maxReceiveSize), data, [])
  }

  predicate Legal(h: Handler, events: seq<Event>)
    decreases |events|
  {
    events == [] || (Enabled(h, events[0]) && Legal(Step(h, events[0]), events[1..]))
  }

  function Run(h: Handler, events: seq<Event>): Handler
    requires Legal(h, events)
    decreases |events|
  {
    if events == [] then h else Run(Step(h, events[0]), events[1..])
  }
}
