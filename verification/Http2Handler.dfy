/**
 The handler of one call as the program runs it: slots that change its fields, a queue that is
 drained in a loop, and a transport that may report an upload as finished while sendDATA is still
 running. Each slot is the step of the same name.
 */
module Http2Handler {
  import opened Octets
  import opened Frames
  import opened Headers
  import opened Calls
  import opened CallSafety
  import CallStreams
  import Outcomes
  import Requests

  class Http2Handler {
    const endStreamAtFirstData: bool
    const parser: DataParser
    var context: bool
    var state: State
    var stream: Stream
    var queue: seq<Octets>
    var writesDoneSent: bool
    var drainingQueue: bool
    var inFlightUserWrite: bool
    var queuedBytes: int
    var bytesToWrite: int
    var pendingWritten: nat
    var pendingFinish: seq<nat>
    ghost var past: Past

    ghost function Value(): Handler
      reads this, parser
    {
      Handler(context, state, stream, queue, endStreamAtFirstData, writesDoneSent, inFlightUserWrite, queuedBytes,
              bytesToWrite, parser.container, parser.maxReceiveSize, pendingWritten, pendingFinish, past)
    }

    constructor (data: Octets, endStream: bool, maxReceiveSize: nat)
      requires maxReceiveSize <= MAX_PAYLOAD_SIZE
      ensures fresh(parser) && !drainingQueue && Value() == New(data, endStream, maxReceiveSize)
    {
      endStreamAtFirstData := endStream;
      parser := new DataParser(maxReceiveSize);
      context, state, stream, queue := true, Idle, NoStream, [];
      writesDoneSent, drainingQueue, inFlightUserWrite := false, false, false;
      queuedBytes, bytesToWrite, pendingWritten, pendingFinish := 0, 0, 0, [];
      past := Past([], [], 0, 0, 0, 0, 0, 0, [], [], []);
      new;
      WriteMessage(data, []);
    }

    // ---------- sending ----------

    method ScheduleMessageWritten()
      modifies this`pendingWritten, this`past
      ensures pendingWritten == old(pendingWritten) + 1 && past == old(past).(completed := old(past).completed + 1)
    {
      pendingWritten := pendingWritten + 1;
      past := past.(completed := past.completed + 1);
    }

    /** The uploadFinished slot. While the queue is being drained the loop there goes on by itself. */
    method UploadFinishedSlot(answers: seq<Answer>)
      requires drainingQueue || Conserves(Value())
      modifies this
      ensures drainingQueue == old(drainingQueue)
      ensures Value() == var done := Completed(old(Value()), !old(inFlightUserWrite));
                         if drainingQueue then done else Calls.ProcessQueue(done, answers)
      decreases if drainingQueue then 0 else 4
    {
      hide Total, RefusedBytes, Messages, Calls.ProcessQueue;
      if inFlightUserWrite {
        inFlightUserWrite := false;
        ScheduleMessageWritten();
      }
      if drainingQueue {
        return;
      }
      ProcessQueue(answers);
    }

    /** QHttp2Stream::sendDATA, as far as the handler can see it. */
    method SendData(message: Octets, close: bool, answer: Answer) returns (taken: bool)
      requires drainingQueue && stream.Stream? && inFlightUserWrite == !close
      modifies this
      ensures drainingQueue && taken == !answer.Refused?
      ensures if taken then Value() == Answered(old(Value()), |message|, close, answer) else Value() == old(Value())
      decreases 1
    {
      match answer {
        case Refused =>
          return false;
        case Stalled(written) =>
          var n := if written <= |message| then written else |message|;
          bytesToWrite := bytesToWrite - n;
          stream := stream.(upload := Some(Upload(|message| - n, close)));
        case Sent =>
          bytesToWrite := bytesToWrite - |message|;
          stream := stream.(upload := None, closed := stream.closed || close);
          UploadFinishedSlot([]);
      }
      return true;
    }

    method Dequeue(ghost refused: bool) returns (nextMessage: Octets, closeStream: bool)
      requires queue != [] && |queue[0]| <= queuedBytes
      modifies this`queue, this`queuedBytes, this`inFlightUserWrite, this`past
      ensures nextMessage == old(queue)[0] && closeStream == Closes(old(Value()))
      ensures Value() == TakeOff(old(Value()), refused)
    {
      nextMessage := queue[0];
      queue := queue[1..];
      assert |nextMessage| <= queuedBytes;
      queuedBytes := queuedBytes - |nextMessage|;
      closeStream := nextMessage == [] || endStreamAtFirstData;
      inFlightUserWrite := !closeStream;
      past := past.(handed := past.handed + [Handed(nextMessage, closeStream, refused)]);
    }

    /** The body of the loop in processQueue. */
    method SendNext(answer: Answer) returns (taken: bool)
      requires drainingQueue && stream.Stream? && stream.upload.None? && queue != [] && Conserves(Value())
      modifies this
      ensures drainingQueue && taken == !answer.Refused?
      ensures Value() == HandOver(old(Value()), answer) && Conserves(Value())
      decreases 2
    {
      hide Total, RefusedBytes, Messages;
      HandOverConserves(Value(), answer);
      HeadFits(Value());
      var nextMessage, closeStream := Dequeue(answer.Refused?);
      taken := SendData(nextMessage, closeStream, answer);
      if !taken {
        inFlightUserWrite := false;
      }
    }

    method ProcessQueue(answers: seq<Answer>)
      requires !drainingQueue && Conserves(Value())
      modifies this
      ensures !drainingQueue && Value() == Calls.ProcessQueue(old(Value()), answers)
      decreases 3
    {
      if stream.NoStream? {
        return;
      }
      if state.Idle? {
        return;
      }
      if stream.upload.Some? {
        return;
      }
      if queue == [] {
        return;
      }
      drainingQueue := true;
      var rest := answers;
      while true
        invariant drainingQueue && stream.Stream? && stream.upload.None? && queue != [] && Conserves(Value())
        invariant DrainQueue(old(Value()), answers) == DrainQueue(Value(), rest)
        decreases |queue|
      {
        var answer := if rest == [] then Stalled(0) else rest[0];
        rest := if rest == [] then [] else rest[1..];
        var taken := SendNext(answer);
        if !taken || stream.upload.Some? || queue == [] {
          break;
        }
      }
      drainingQueue := false;
    }

    // ---------- the user's slots ----------

    method WriteMessage(data: Octets, answers: seq<Answer>)
      requires !drainingQueue && Conserves(Value())
      modifies this
      ensures !drainingQueue && Value() == OnWrite(old(Value()), data, answers)
      ensures Requests.OpenForWriting(old(Value())) && |data| <= MAX_PAYLOAD_SIZE ==>
                |past.accepted| == |old(past.accepted)| + 1 && old(past.accepted) <= past.accepted
                && Requests.Carries(past.accepted[|old(past.accepted)|], data)
      ensures !Requests.OpenForWriting(old(Value())) ==> Value() == old(Value())
    {
      hide Calls.ProcessQueue, Message, Requests.Carries;
      Requests.WriteAccepted(Value(), data, answers);
      if writesDoneSent || state.Terminal() || (stream.Stream? && stream.closed) {
        return;
      }
      if |data| > MAX_PAYLOAD_SIZE {
        Finish(RESOURCE_EXHAUSTED);
        return;
      }
      EnqueueMessage(Message(data));
      ProcessQueue(answers);
    }

    method EnqueueMessage(m: Octets)
      requires Conserves(Value())
      modifies this`queue, this`queuedBytes, this`bytesToWrite, this`past
      ensures Value() == Enqueue(old(Value()), m) && Conserves(Value())
    {
      EnqueueConserves(Value(), m);
      queuedBytes := queuedBytes + |m|;
      bytesToWrite := bytesToWrite + |m|;
      queue := queue + [m];
      past := past.(accepted := past.accepted + [m]);
    }

    method WritesDone(answers: seq<Answer>)
      requires !drainingQueue && Conserves(Value())
      modifies this
      ensures !drainingQueue && Value() == OnWritesDone(old(Value()), answers)
    {
      hide Calls.ProcessQueue;
      if writesDoneSent || state.Terminal() {
        return;
      }
      writesDoneSent := true;
      if stream.Stream? && stream.closed {
        return;
      }
      EnqueueMessage([]);
      ProcessQueue(answers);
    }

    /** cancel() and deadlineTimeout(); the RST_STREAM frame is the transport's business. */
    method CancelWithStatus(code: nat)
      modifies this`state, this`past
      ensures Value() == OnCancel(old(Value()), code)
      ensures if old(state).Terminal() then Value() == old(Value()) else state.Cancelled?
    {
      if state.Terminal() {
        return;
      }
      state := Cancelled;
      Finish(code);
    }

    // ---------- the channel's calls ----------

    method AttachStream()
      requires stream.NoStream?
      modifies this`stream
      ensures Value() == old(Value()).(stream := Stream(None, false))
    {
      stream := Stream(None, false);
    }

    method SendInitialRequest(taken: bool, answers: seq<Answer>)
      requires !drainingQueue && Conserves(Value()) && stream.Stream? && (state.Idle? || state.Terminal())
      modifies this
      ensures !drainingQueue && Value() == OnSendInitialRequest(old(Value()), taken, answers)
    {
      hide Calls.ProcessQueue;
      if state.Terminal() {
        return;
      }
      if !taken {
        AsyncFinish(UNAVAILABLE);
        return;
      }
      past := past.(headers := past.headers + 1);
      state := RequestHeadersSent;
      ProcessQueue(answers);
    }

    // ---------- the end ----------

    method HandleContextExpired() returns (expired: bool)
      modifies this`state
      ensures expired == !context && state == if expired then Cancelled else old(state)
    {
      if context {
        return false;
      }
      state := Cancelled;
      return true;
    }

    /** Whatever was before, the call has ended; a status is raised unless one has been raised by a
        finished call or there is nobody left to hear it. */
    method Finish(code: nat)
      modifies this`state, this`past
      ensures Value() == Finishing(old(Value()), code)
      ensures state.Terminal() && (old(state).Cancelled? ==> state.Cancelled?)
      ensures past.raised == if context && !old(state).Finished? then old(past).raised + [code] else old(past).raised
      ensures past == old(past).(raised := past.raised)
    {
      var expired := HandleContextExpired();
      if expired {
        return;
      }
      if state.Finished? {
        return;
      }
      if !state.Cancelled? {
        state := Finished;
      }
      past := past.(raised := past.raised + [code]);
    }

    method AsyncFinish(code: nat)
      modifies this`state, this`pendingFinish
      ensures Value() == OnAsyncFinish(old(Value()), code)
    {
      var expired := HandleContextExpired();
      if !expired {
        pendingFinish := pendingFinish + [code];
      }
    }

    method FinishFires()
      requires pendingFinish != []
      modifies this`state, this`pendingFinish, this`past
      ensures Value() == OnFinishFires(old(Value()))
    {
      var code := pendingFinish[0];
      pendingFinish := pendingFinish[1..];
      Finish(code);
    }

    method WrittenFires()
      requires pendingWritten > 0
      modifies this`pendingWritten, this`past
      ensures Value() == OnWrittenFires(old(Value()))
    {
      pendingWritten := pendingWritten - 1;
      if context && !state.Terminal() {
        past := past.(delivered := past.delivered + 1);
      } else {
        past := past.(suppressed := past.suppressed + 1);
      }
    }

    // ---------- the stream's slots ----------

    method BytesWritten(count: nat)
      requires Value().Uploading() && count <= stream.upload.value.remaining && Conserves(Value())
      modifies this`bytesToWrite, this`stream
      ensures 0 <= bytesToWrite == old(bytesToWrite) - count
      ensures Value() == OnBytesWritten(old(Value()), count)
    {
      hide Total, RefusedBytes;
      assert count <= bytesToWrite;
      bytesToWrite := bytesToWrite - count;
      stream := stream.(upload := Some(stream.upload.value.(remaining := stream.upload.value.remaining - count)));
    }

    method UploadFinished(answers: seq<Answer>)
      requires !drainingQueue && Conserves(Value())
      requires Value().Uploading() && stream.upload.value.remaining == 0
      modifies this
      ensures !drainingQueue && Value() == OnUploadFinished(old(Value()), answers)
    {
      hide Calls.ProcessQueue, Total, RefusedBytes;
      stream := Stream(None, stream.closed || stream.upload.value.endStream);
      UploadFinishedSlot(answers);
    }

    method HeadersReceived(headers: seq<Header>, endStream: bool)
      modifies this`state, this`past
      ensures Value() == OnHeaders(old(Value()), headers, endStream)
      ensures old(Outcomes.Ongoing(Value()) && state.Active? && endStream) ==>
                (Outcomes.EndedWith(old(Value()), Value(), OK)
                 <==> Outcomes.NoneOffends(headers, Trailers)
                      && exists k: nat :: Outcomes.LastStatusAt(headers, k) && headers[k].parsed == Some(0))
    {
      hide Judge, Outcomes.NoneOffends;
      if context && state.Active? && endStream {
        Outcomes.TrailersOk(Value(), headers, Trailers);
      }
      if state.Terminal() {
        return;
      }
      var phase;
      if state.RequestHeadersSent? && endStream {
        phase := TrailersOnly;
      } else if state.RequestHeadersSent? && !endStream {
        phase := Initial;
      } else if state.Active? && endStream {
        phase := Trailers;
      } else {
        return;
      }
      state := Active;
      past := past.(phases := past.phases + [phase]);
      var expired := HandleContextExpired();
      if expired {
        return;
      }
      var verdict := HandleHeaders(headers, phase);
      if verdict.End? {
        Finish(verdict.code);
      }
    }

    /** The loop over the frames of a chunk; an error ends the call and the loop. */
    method ConsumeFrames(data: Octets) returns (stopped: bool)
      requires !state.Cancelled?
      modifies this`state, this`past, parser
      ensures stopped == Consume(old(parser.container) + data, parser.maxReceiveSize).failure.Some?
      ensures Value() == OnData(old(Value()), data, false)
    {
      hide ParseNext, Consume, CallStreams.Prepend;
      ghost var start := past.received;
      ghost var whole := Consume(parser.container + data, parser.maxReceiveSize);
      parser.Feed(data);
      ghost var got: seq<Octets> := [];
      CallStreams.PrependNothing(whole);
      while true
        invariant whole == CallStreams.Prepend(got, Consume(parser.container, parser.maxReceiveSize))
        invariant state == old(state) && past == old(past).(received := start + got)
        decreases |parser.container|
      {
        CallStreams.ConsumeStep(parser.container, parser.maxReceiveSize, got);
        var frame := parser.ParseNextFrame();
        if frame.NeedMoreData? {
          return false;
        } else if frame.Oversize? {
          Finish(RESOURCE_EXHAUSTED);
          return true;
        } else if frame.frame.IsCompressed() {
          Finish(INTERNAL);
          return true;
        }
        past := past.(received := past.received + [frame.frame.payload]);
        assert start + got + [frame.frame.payload] == start + (got + [frame.frame.payload]);
        got := got + [frame.frame.payload];
      }
    }

    method DataReceived(data: Octets, endStream: bool)
      modifies this`state, this`past, parser
      ensures Value() == OnData(old(Value()), data, endStream)
    {
      hide Consume;
      if state.Cancelled? {
        return;
      }
      var stopped := ConsumeFrames(data);
      if stopped {
        return;
      }
      if endStream {
        if parser.container != [] {
          Finish(DATA_LOSS);
          return;
        }
        Finish(OK);
      }
    }
  }
}
