/** What holds in every run of a call. */
module CallSafety {
  import opened Octets
  import opened Frames
  import opened Headers
  import opened Calls

  // ---------- what is kept ----------

  function Messages(handed: seq<Handed>): (r: seq<Octets>)
    ensures |r| == |handed| && forall i :: 0 <= i < |r| ==> r[i] == handed[i].message
  {
    seq(|handed|, i requires 0 <= i < |handed| => handed[i].message)
  }

  function Total(queue: seq<Octets>): nat {
    if queue == [] then 0 else |queue[0]| + Total(queue[1..])
  }

  function RefusedBytes(handed: seq<Handed>): nat {
    if handed == [] then 0
    else RefusedBytes(handed[..|handed| - 1])
         + if handed[|handed| - 1].refused then |handed[|handed| - 1].message| else 0
  }

  /** Messages the transport took that did not end the stream. */
  function UserWrites(handed: seq<Handed>): nat {
    if handed == [] then 0
    else UserWrites(handed[..|handed| - 1])
         + if handed[|handed| - 1].refused || handed[|handed| - 1].endStream then 0 else 1
  }

  function Remaining(h: Handler): nat {
    if h.Uploading() then h.stream.upload.value.remaining else 0
  }

  /** The octets of every accepted message are queued, on their way, written, refused or given up. */
  predicate Conserves(h: Handler) {
    && h.past.accepted == Messages(h.past.handed) + h.queue
    && h.queuedBytes == Total(h.queue)
    && h.bytesToWrite == Total(h.queue) + Remaining(h) + RefusedBytes(h.past.handed) + h.past.abandoned
  }

  predicate Ends(h: Handler) {
    && (forall i :: 0 <= i < |h.past.handed| ==>
          h.past.handed[i].endStream == (h.past.handed[i].message == [] || h.endStreamAtFirstData))
    && (forall i :: 0 <= i < |h.past.accepted| && h.past.accepted[i] == [] ==>
          h.writesDoneSent && i == |h.past.accepted| - 1)
    && (h.endStreamAtFirstData ==> !h.writesDoneSent && |h.past.accepted| <= 1)
  }

  predicate HeadersFirst(h: Handler) {
    && h.past.headers <= 1
    && (h.state.Idle? ==> h.past.headers == 0)
    && (h.past.headers == 0 ==> h.past.handed == [] && !h.Uploading())
    && (h.state.RequestHeadersSent? || h.state.Active? ==> h.past.headers == 1 && h.stream.Stream?)
  }

  predicate Counted(h: Handler) {
    && (h.Uploading() ==> h.inFlightUserWrite == !h.stream.upload.value.endStream)
    && UserWrites(h.past.handed)
       == h.past.completed + h.past.abandonedWrites
          + (if h.Uploading() && !h.stream.upload.value.endStream then 1 else 0)
    && h.past.completed == h.pendingWritten + h.past.delivered + h.past.suppressed
  }

  /** Response headers and then trailers, or trailers alone. */
  predicate LegalPhases(phases: seq<Phase>) {
    phases == [] || phases == [Initial] || phases == [Initial, Trailers] || phases == [TrailersOnly]
  }

  predicate Shaped(h: Handler) {
    && (h.state.Idle? || h.state.RequestHeadersSent? ==> h.past.phases == [])
    && (h.state.Active? ==> h.past.phases == [Initial])
    && (h.state.Terminal() ==>
          LegalPhases(h.past.phases))
    && (!h.state.Terminal() ==> h.past.raised == [])
    && (h.state.Finished? ==> |h.past.raised| == 1)
  }

  predicate Sound(h: Handler) {
    Conserves(h) && Ends(h) && HeadersFirst(h) && Counted(h) && Shaped(h)
  }

  predicate NothingRefused(h: Handler) {
    forall i :: 0 <= i < |h.past.handed| ==> !h.past.handed[i].refused
  }

  /** No lost wakeup: a queue that could move is being moved. */
  predicate Awake(h: Handler) {
    !h.state.Idle? && !h.state.Terminal() && !h.ClosedForSending() && h.queue != [] && NothingRefused(h)
    ==> h.Uploading()
  }

  // ---------- sending keeps it ----------

  lemma TotalMore(queue: seq<Octets>, m: Octets)
    ensures Total(queue + [m]) == Total(queue) + |m|
  {
    if queue != [] {
      assert (queue + [m])[1..] == queue[1..] + [m];
      TotalMore(queue[1..], m);
    }
  }

  lemma EnqueueSound(h: Handler, m: Octets)
    requires Sound(h) && (m == [] ==> h.writesDoneSent)
    requires forall i :: 0 <= i < |h.past.accepted| ==> h.past.accepted[i] != []
    requires h.endStreamAtFirstData ==> h.past.accepted == []
    ensures Sound(Enqueue(h, m))
  {
    EnqueueConserves(h, m);
    EnqueueEnds(h, m);
    assert HeadersFirst(Enqueue(h, m)) && Counted(Enqueue(h, m)) && Shaped(Enqueue(h, m)) by {
      hide Total, RefusedBytes, UserWrites, Conserves, Ends;
    }
  }

  lemma EnqueueConserves(h: Handler, m: Octets)
    requires Conserves(h)
    ensures Conserves(Enqueue(h, m))
  {
    hide RefusedBytes;
    TotalMore(h.queue, m);
    assert Enqueue(h, m).past.accepted == Messages(h.past.handed) + (h.queue + [m]);
  }

  lemma EnqueueEnds(h: Handler, m: Octets)
    requires Ends(h) && (m == [] ==> h.writesDoneSent)
    requires forall i :: 0 <= i < |h.past.accepted| ==> h.past.accepted[i] != []
    requires h.endStreamAtFirstData ==> h.past.accepted == []
    ensures Ends(Enqueue(h, m))
  {
  }

  lemma HandedMore(handed: seq<Handed>, x: Handed)
    ensures Messages(handed + [x]) == Messages(handed) + [x.message]
    ensures RefusedBytes(handed + [x]) == RefusedBytes(handed) + if x.refused then |x.message| else 0
    ensures UserWrites(handed + [x]) == UserWrites(handed) + if x.refused || x.endStream then 0 else 1
  {
    assert (handed + [x])[..|handed|] == handed;
  }

  lemma TotalStep(queue: seq<Octets>)
    requires queue != []
    ensures Total(queue) == |queue[0]| + Total(queue[1..])
  {
  }

  /** The message at the head of the queue, as it is given to the transport. */
  function Next(h: Handler, answer: Answer): Handed
    requires h.queue != []
  {
    Handed(h.queue[0], Closes(h), answer.Refused?)
  }

  lemma HandOverConserves(h: Handler, answer: Answer)
    requires Conserves(h) && h.stream.Stream? && h.stream.upload.None? && h.queue != []
    ensures Conserves(HandOver(h, answer))
  {
    hide Total, RefusedBytes, UserWrites;
    var r, x := HandOver(h, answer), Next(h, answer);
    HandedMore(h.past.handed, x);
    TotalStep(h.queue);
    assert r.past.handed == h.past.handed + [x];
    assert Messages(h.past.handed) + h.queue == Messages(r.past.handed) + r.queue;
  }

  lemma HeadFits(h: Handler)
    requires Conserves(h) && h.queue != []
    ensures |h.queue[0]| <= h.queuedBytes
  {
  }

  lemma HandOverEnds(h: Handler, answer: Answer)
    requires Ends(h) && h.stream.Stream? && h.queue != []
    ensures Ends(HandOver(h, answer))
  {
    assert HandOver(h, answer).past.handed == h.past.handed + [Next(h, answer)];
  }

  lemma HandOverCounted(h: Handler, answer: Answer)
    requires Counted(h) && h.stream.Stream? && h.stream.upload.None? && h.queue != []
    ensures Counted(HandOver(h, answer))
  {
    hide UserWrites;
    HandedMore(h.past.handed, Next(h, answer));
    assert HandOver(h, answer).past.handed == h.past.handed + [Next(h, answer)];
  }

  lemma HandOverFrame(h: Handler, answer: Answer)
    requires h.stream.Stream? && h.queue != []
    ensures var r := HandOver(h, answer);
            && r.state == h.state && r.stream.Stream?
            && r.past.(handed := h.past.handed, completed := h.past.completed) == h.past
  {
  }

  lemma HandOverSound(h: Handler, answer: Answer)
    requires Sound(h) && h.stream.Stream? && h.stream.upload.None? && h.queue != [] && h.past.headers == 1
    ensures Sound(HandOver(h, answer)) && HandOver(h, answer).past.headers == 1
  {
    HandOverConserves(h, answer);
    HandOverEnds(h, answer);
    HandOverCounted(h, answer);
    HandOverFrame(h, answer);
    hide Conserves, Ends, Counted, HandOver;
  }

  lemma {:induction false} DrainQueueSound(h: Handler, answers: seq<Answer>)
    requires Sound(h) && h.stream.Stream? && h.stream.upload.None? && h.past.headers == 1
    ensures Sound(DrainQueue(h, answers)) && DrainQueue(h, answers).past.headers == 1
    ensures DrainQueue(h, answers).queue != [] && NothingRefused(DrainQueue(h, answers))
            ==> DrainQueue(h, answers).Uploading()
    decreases |h.queue|
  {
    hide Sound;
    if h.queue != [] {
      var answer, rest := if answers == [] then Stalled(0) else answers[0], if answers == [] then [] else answers[1..];
      HandOverSound(h, answer);
      if answer.Sent? {
        DrainQueueSound(HandOver(h, answer), rest);
      } else if answer.Refused? {
        assert HandOver(h, answer).past.handed[|h.past.handed|].refused;
      }
    }
  }

  lemma ProcessQueueSound(h: Handler, answers: seq<Answer>)
    requires Sound(h) && (h.state.Idle? || h.past.headers == 1)
    ensures Sound(ProcessQueue(h, answers)) && Awake(ProcessQueue(h, answers))
  {
    hide DrainQueue, Conserves, Ends, Counted;
    if h.stream.Stream? && !h.state.Idle? && !h.Uploading() {
      DrainQueueSound(h, answers);
    }
  }

  // ---------- every event keeps it ----------

  /** A call is ended at most once more, after a cancellation. */
  lemma FinishingKeeps(h: Handler, code: nat)
    requires Conserves(h) && Ends(h) && HeadersFirst(h) && Counted(h)
    requires LegalPhases(h.past.phases)
    requires !h.state.Terminal() ==> h.past.raised == []
    requires h.state.Finished? ==> |h.past.raised| == 1
    ensures Sound(Finishing(h, code)) && Finishing(h, code).state.Terminal()
    ensures h.state.Finished? ==> Finishing(h, code).past == h.past
    ensures h.state.Cancelled? ==> Finishing(h, code).state.Cancelled?
  {
    hide Total, RefusedBytes, UserWrites, Messages;
  }

  lemma WriteKeeps(h: Handler, data: Octets, answers: seq<Answer>)
    requires Sound(h) && Awake(h) && (h.endStreamAtFirstData ==> h.past.accepted == [])
    ensures Sound(OnWrite(h, data, answers)) && Awake(OnWrite(h, data, answers))
  {
    hide ProcessQueue, Enqueue, Finishing;
    if h.writesDoneSent || h.state.Terminal() || h.ClosedForSending() {
    } else if |data| > MAX_PAYLOAD_SIZE {
      FinishingKeeps(h, RESOURCE_EXHAUSTED);
    } else {
      EnqueueSound(h, Message(data));
      EnqueueFrame(h, Message(data));
      ProcessQueueSound(Enqueue(h, Message(data)), answers);
    }
  }

  lemma EnqueueFrame(h: Handler, m: Octets)
    ensures Enqueue(h, m).state == h.state && Enqueue(h, m).past.headers == h.past.headers
  {
  }

  lemma WritesDoneKeeps(h: Handler, answers: seq<Answer>)
    requires Sound(h) && Awake(h) && !h.endStreamAtFirstData
    ensures Sound(OnWritesDone(h, answers)) && Awake(OnWritesDone(h, answers))
  {
    hide ProcessQueue, Enqueue, Total, RefusedBytes, UserWrites, Messages;
    if !h.writesDoneSent && !h.state.Terminal() {
      var done := h.(writesDoneSent := true);
      assert Sound(done);
      if !h.ClosedForSending() {
        EnqueueSound(done, []);
        EnqueueFrame(done, []);
        ProcessQueueSound(Enqueue(done, []), answers);
      }
    }
  }

  lemma InitialRequestKeeps(h: Handler, taken: bool, answers: seq<Answer>)
    requires Sound(h) && Awake(h) && h.stream.Stream? && (h.state.Idle? || h.state.Terminal())
    ensures Sound(OnSendInitialRequest(h, taken, answers)) && Awake(OnSendInitialRequest(h, taken, answers))
  {
    hide ProcessQueue, Total, RefusedBytes, UserWrites, Messages;
    if h.state.Idle? && taken {
      ProcessQueueSound(h.(state := RequestHeadersSent, past := h.past.(headers := h.past.headers + 1)), answers);
    }
  }

  lemma UploadKeeps(h: Handler, e: Event)
    requires Sound(h) && Awake(h) && Enabled(h, e) && (e.BytesWritten? || e.UploadFinished?)
    ensures Sound(Step(h, e)) && Awake(Step(h, e))
  {
    hide ProcessQueue, Total, RefusedBytes, UserWrites, Messages;
    if e.UploadFinished? {
      var close := h.stream.upload.value.endStream;
      var freed := h.(stream := h.stream.(upload := None, closed := h.stream.closed || close));
      ProcessQueueSound(Completed(freed, close), e.answers);
    }
  }

  lemma HeadersKeep(h: Handler, headers: seq<Header>, endStream: bool)
    requires Sound(h) && Awake(h)
    ensures Sound(OnHeaders(h, headers, endStream)) && Awake(OnHeaders(h, headers, endStream))
  {
    hide Total, RefusedBytes, UserWrites, Messages, Judge, Finishing;
    if !h.state.Terminal() && PhaseOf(h.state, endStream).Some? {
      var phase := PhaseOf(h.state, endStream).value;
      var active := h.(state := Active, past := h.past.(phases := h.past.phases + [phase]));
      assert active.past.phases == if h.state.Active? then [Initial, Trailers] else [phase];
      TrailersEnd(headers, phase);
      match Judge(headers, phase)
      case End(code) => FinishingKeeps(active, code);
      case Continue =>
    }
  }

  lemma DataKeeps(h: Handler, data: Octets, endStream: bool)
    requires Sound(h) && Awake(h)
    ensures Sound(OnData(h, data, endStream)) && Awake(OnData(h, data, endStream))
  {
    hide Total, RefusedBytes, UserWrites, Messages, Consume, Finishing;
    if !h.state.Cancelled? {
      var c := Consume(h.container + data, h.maxReceiveSize);
      var got := h.(container := c.rest, past := h.past.(received := h.past.received + c.payloads));
      if c.failure.Some? {
        FinishingKeeps(got, c.failure.value);
      } else if endStream {
        FinishingKeeps(got, if c.rest == [] then OK else DATA_LOSS);
      }
    }
  }

  lemma EndingKeeps(h: Handler, e: Event)
    requires Sound(h) && Awake(h) && Enabled(h, e)
    requires e.Cancel? || e.Finish? || e.AsyncFinish? || e.FinishFires?
    ensures Sound(Step(h, e)) && Awake(Step(h, e))
  {
    hide Total, RefusedBytes, UserWrites, Messages, Finishing;
    match e
    case Cancel(code) =>
      if !h.state.Terminal() {
        FinishingKeeps(h.(state := Cancelled), code);
      }
    case Finish(code) => FinishingKeeps(h, code);
    case FinishFires => FinishingKeeps(h.(pendingFinish := h.pendingFinish[1..]), h.pendingFinish[0]);
    case _ =>
  }

  /** The steps that only book something. */
  lemma BookingKeeps(h: Handler, e: Event)
    requires Sound(h) && Awake(h) && Enabled(h, e)
    requires e.Attach? || e.WrittenFires? || e.ContextDestroyed?
    ensures Sound(Step(h, e)) && Awake(Step(h, e))
  {
    hide Total, RefusedBytes, UserWrites, Messages;
  }

  lemma AbandonedKeeps(h: Handler, stream: Stream)
    requires Sound(h) && h.stream.Stream?
    requires if h.state.Terminal() then stream == NoStream || stream == Stream(None, true)
             else stream == Stream(None, true)
    ensures Sound(Abandoned(h, stream)) && Awake(Abandoned(h, stream))
  {
    hide Total, RefusedBytes, UserWrites, Messages;
  }

  lemma StepKeeps(h: Handler, e: Event)
    requires Sound(h) && Awake(h) && Enabled(h, e)
    ensures Sound(Step(h, e)) && Awake(Step(h, e))
  {
    hide Sound, Awake;
    match e
    case Write(data, answers) => WriteKeeps(h, data, answers);
    case WritesDone(answers) => WritesDoneKeeps(h, answers);
    case SendInitialRequest(taken, answers) => InitialRequestKeeps(h, taken, answers);
    case BytesWritten(_) => UploadKeeps(h, e);
    case UploadFinished(_) => UploadKeeps(h, e);
    case HeadersReceived(headers, endStream) => HeadersKeep(h, headers, endStream);
    case DataReceived(data, endStream) => DataKeeps(h, data, endStream);
    case Attach => BookingKeeps(h, e);
    case WrittenFires => BookingKeeps(h, e);
    case ContextDestroyed => BookingKeeps(h, e);
    case StreamClosed => AbandonedKeeps(h, Stream(None, true));
    case StreamDestroyed => AbandonedKeeps(h, NoStream);
    case _ => EndingKeeps(h, e);
  }

  // ---------- every run ----------

  lemma NewSound(data: Octets, endStream: bool, maxReceiveSize: nat)
    ensures Sound(New(data, endStream, maxReceiveSize)) && Awake(New(data, endStream, maxReceiveSize))
  {
    WriteKeeps(Blank(endStream, maxReceiveSize), data, []);
  }

  lemma {:induction false} RunKeeps(h: Handler, events: seq<Event>)
    requires Sound(h) && Awake(h) && Legal(h, events)
    ensures Sound(Run(h, events)) && Awake(Run(h, events))
    decreases |events|
  {
    hide Sound, Awake, Step;
    if events != [] {
      StepKeeps(h, events[0]);
      RunKeeps(Step(h, events[0]), events[1..]);
    }
  }
}
