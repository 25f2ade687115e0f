/**
 What the user asks for, and what of it becomes part of the request: every write that comes while the
 call is open for writing is accepted, framed as it is, and nothing else is.
 */
module Requests {
  import opened Octets
  import opened Varint
  import opened Frames
  import opened Headers
  import opened Calls
  import opened CallSafety
  import opened CallTheorems
  import opened Outcomes

  // ---------- one write ----------

  /** A message that any parser takes as one plain frame with this payload, and nothing behind it. */
  predicate Carries(m: Octets, data: Octets) {
    ParseNext(m, MAX_PAYLOAD_SIZE) == Parsed(Frame(0, data), |m|)
  }

  predicate OpenForWriting(h: Handler) {
    !h.writesDoneSent && !h.state.Terminal() && !h.ClosedForSending()
  }

  lemma MessageCarries(data: Octets)
    requires |data| <= MAX_PAYLOAD_SIZE
    ensures Carries(Message(data), data) && Message(data) != []
  {
    hide Framed, ParseNext;
    ParseFramed(Frame(0, data), [], MAX_PAYLOAD_SIZE);
    assert Message(data) + [] == Message(data);
  }

  /** What handing messages over leaves alone. */
  predicate QueueFrame(h: Handler, r: Handler) {
    && r.past.accepted == h.past.accepted && r.past.suppressed == h.past.suppressed
    && r.writesDoneSent == h.writesDoneSent && r.endStreamAtFirstData == h.endStreamAtFirstData
    && r.state == h.state && r.context == h.context
  }

  lemma HandOverQueueFrame(h: Handler, answer: Answer)
    requires h.stream.Stream? && h.queue != []
    ensures QueueFrame(h, HandOver(h, answer))
  {
  }

  lemma {:induction false} DrainFrame(h: Handler, answers: seq<Answer>)
    requires h.stream.Stream? && h.stream.upload.None?
    ensures QueueFrame(h, DrainQueue(h, answers))
    decreases |h.queue|
  {
    hide HandOver;
    if h.queue != [] {
      var answer := if answers == [] then Stalled(0) else answers[0];
      HandOverQueueFrame(h, answer);
      if answer.Sent? {
        SentFrees(h);
        DrainFrame(HandOver(h, Sent), answers[1..]);
      }
    }
  }

  lemma SentFrees(h: Handler)
    requires h.stream.Stream? && h.queue != []
    ensures HandOver(h, Sent).stream.Stream? && HandOver(h, Sent).stream.upload.None?
  {
  }

  lemma ProcessFrame(h: Handler, answers: seq<Answer>)
    ensures QueueFrame(h, ProcessQueue(h, answers))
  {
    hide DrainQueue;
    if h.stream.Stream? && !h.state.Idle? && !h.Uploading() {
      DrainFrame(h, answers);
    }
  }

  /** A write on an open call adds exactly one message, which carries its data. One that is too large
      ends the call, and one on a call that is not open changes nothing. */
  lemma WriteAccepted(h: Handler, data: Octets, answers: seq<Answer>)
    ensures var r, n := OnWrite(h, data, answers), |h.past.accepted|;
            && (!OpenForWriting(h) ==> r == h)
            && (OpenForWriting(h) && |data| <= MAX_PAYLOAD_SIZE ==>
                  |r.past.accepted| == n + 1 && r.past.accepted[..n] == h.past.accepted
                  && Carries(r.past.accepted[n], data) && r.state == h.state)
            && (OpenForWriting(h) && |data| > MAX_PAYLOAD_SIZE ==>
                  r.past.accepted == h.past.accepted && r.state.Terminal()
                  && (h.context ==> EndedWith(h, r, RESOURCE_EXHAUSTED)))
  {
    hide ProcessQueue, Carries, Message;
    if OpenForWriting(h) && |data| <= MAX_PAYLOAD_SIZE {
      MessageCarries(data);
      ProcessFrame(Enqueue(h, Message(data)), answers);
    }
  }

  // ---------- every event ----------

  datatype Request = Data(data: Octets) | EndMark

  predicate Matches(m: Octets, r: Request) {
    match r
    case Data(data) => m != [] && Carries(m, data)
    case EndMark => m == []
  }

  predicate AllMatch(ms: seq<Octets>, rs: seq<Request>) {
    |ms| == |rs| && forall k :: 0 <= k < |ms| ==> Matches(ms[k], rs[k])
  }

  /** What an event asks for, as far as the call is open for it. */
  function Taken(h: Handler, e: Event): seq<Request> {
    match e
    case Write(data, _) => if OpenForWriting(h) && |data| <= MAX_PAYLOAD_SIZE then [Data(data)] else []
    case WritesDone(_) => if OpenForWriting(h) then [EndMark] else []
    case _ => []
  }

  function TakenIn(h: Handler, events: seq<Event>): seq<Request>
    requires Legal(h, events)
    decreases |events|
  {
    if events == [] then [] else Taken(h, events[0]) + TakenIn(Step(h, events[0]), events[1..])
  }

  lemma SendingFrame(h: Handler, e: Event)
    requires Enabled(h, e) && (e.SendInitialRequest? || e.UploadFinished?)
    ensures Step(h, e).past.accepted == h.past.accepted && Step(h, e).past.suppressed == h.past.suppressed
    ensures Step(h, e).writesDoneSent == h.writesDoneSent
    ensures Step(h, e).endStreamAtFirstData == h.endStreamAtFirstData
  {
    hide ProcessQueue;
    match e
    case SendInitialRequest(_, answers) =>
      ProcessFrame(h.(state := RequestHeadersSent, past := h.past.(headers := h.past.headers + 1)), answers);
    case UploadFinished(answers) =>
      var close := h.stream.upload.value.endStream;
      var freed := h.(stream := h.stream.(upload := None, closed := h.stream.closed || close));
      ProcessFrame(Completed(freed, !h.inFlightUserWrite), answers);
  }

  /** What a step leaves alone that is no request of the user. */
  predicate RequestKept(h: Handler, r: Handler) {
    && r.past.accepted == h.past.accepted && r.writesDoneSent == h.writesDoneSent
    && r.endStreamAtFirstData == h.endStreamAtFirstData
  }

  lemma ReceivingFrame(h: Handler, e: Event)
    requires Enabled(h, e) && (e.HeadersReceived? || e.DataReceived?)
    ensures RequestKept(h, Step(h, e))
  {
    hide Judge, Consume, PhaseOf;
  }

  lemma EndingFrame(h: Handler, e: Event)
    requires Enabled(h, e) && (e.Cancel? || e.Finish? || e.AsyncFinish? || e.FinishFires?)
    ensures RequestKept(h, Step(h, e))
  {
  }

  lemma BookingFrame(h: Handler, e: Event)
    requires Enabled(h, e)
    requires e.Attach? || e.BytesWritten? || e.WrittenFires? || e.ContextDestroyed? || e.StreamClosed?
             || e.StreamDestroyed?
    ensures RequestKept(h, Step(h, e))
  {
  }

  lemma OtherFrame(h: Handler, e: Event)
    requires Enabled(h, e) && !e.Write? && !e.WritesDone?
    ensures RequestKept(h, Step(h, e))
  {
    hide Step;
    if e.SendInitialRequest? || e.UploadFinished? {
      SendingFrame(h, e);
    } else if e.HeadersReceived? || e.DataReceived? {
      ReceivingFrame(h, e);
    } else if e.Cancel? || e.Finish? || e.AsyncFinish? || e.FinishFires? {
      EndingFrame(h, e);
    } else {
      BookingFrame(h, e);
    }
  }

  lemma DoneAccepted(h: Handler, answers: seq<Answer>)
    ensures var r := OnWritesDone(h, answers);
            && r.past.accepted == h.past.accepted + (if OpenForWriting(h) then [[]] else [])
            && r.writesDoneSent == (h.writesDoneSent || !h.state.Terminal())
            && r.endStreamAtFirstData == h.endStreamAtFirstData
  {
    hide ProcessQueue;
    ProcessFrame(Enqueue(h.(writesDoneSent := true), []), answers);
  }

  /** Each event makes part of the request what it asks for, and nothing else. */
  lemma StepTakes(h: Handler, e: Event)
    requires Enabled(h, e)
    ensures var n, r := |h.past.accepted|, Step(h, e);
            && h.past.accepted <= r.past.accepted && AllMatch(r.past.accepted[n..], Taken(h, e))
  {
    hide Carries, OnWrite, OnWritesDone, OpenForWriting;
    match e
    case Write(data, answers) =>
      WriteAccepted(h, data, answers);
      NotEmpty(h, data, answers);
    case WritesDone(answers) => DoneAccepted(h, answers);
    case _ =>
      hide Step;
      OtherFrame(h, e);
  }

  lemma NotEmpty(h: Handler, data: Octets, answers: seq<Answer>)
    ensures var r, n := OnWrite(h, data, answers), |h.past.accepted|;
            |r.past.accepted| == n + 1 ==> r.past.accepted[n] != []
  {
    hide ProcessQueue, OpenForWriting;
    ProcessFrame(Enqueue(h, Message(data)), answers);
  }

  /** Over a whole run the request grows by what was asked for while the call was open, in order. */
  lemma {:induction false} RunTakes(h: Handler, events: seq<Event>)
    requires Legal(h, events)
    ensures var n, r := |h.past.accepted|, Run(h, events);
            && h.past.accepted <= r.past.accepted && AllMatch(r.past.accepted[n..], TakenIn(h, events))
    decreases |events|
  {
    hide Step, Taken, Matches;
    if events != [] {
      var next := Step(h, events[0]);
      StepTakes(h, events[0]);
      RunTakes(next, events[1..]);
      var r := Run(h, events);
      assert r.past.accepted[|h.past.accepted|..]
             == next.past.accepted[|h.past.accepted|..] + r.past.accepted[|next.past.accepted|..];
    }
  }

  /** The request of a call, from its construction with the first message on. */
  lemma RequestIs(data: Octets, endStream: bool, maxReceiveSize: nat, events: seq<Event>)
    requires Legal(New(data, endStream, maxReceiveSize), events)
    ensures AllMatch(After(data, endStream, maxReceiveSize, events).past.accepted,
                     (if |data| <= MAX_PAYLOAD_SIZE then [Data(data)] else [])
                     + TakenIn(New(data, endStream, maxReceiveSize), events))
  {
    hide OnWrite, Step, Carries, TakenIn, Run;
    var blank := Blank(endStream, maxReceiveSize);
    WriteAccepted(blank, data, []);
    NotEmpty(blank, data, []);
    var h := New(data, endStream, maxReceiveSize);
    RunTakes(h, events);
    var accepted := Run(h, events).past.accepted;
    assert accepted == h.past.accepted + accepted[|h.past.accepted|..];
  }

  // ---------- the end of the stream ----------

  lemma {:induction false} FlagKept(h: Handler, events: seq<Event>)
    requires Legal(h, events)
    ensures Run(h, events).endStreamAtFirstData == h.endStreamAtFirstData
    decreases |events|
  {
    hide Step;
    if events != [] {
      StepDone(h, events[0]);
      FlagKept(Step(h, events[0]), events[1..]);
    }
  }

  /** A message handed over ends the stream exactly when it is the end mark, or the one message of a call
      that has no more. */
  lemma EndsIff(data: Octets, endStream: bool, maxReceiveSize: nat, events: seq<Event>, i: nat)
    requires Legal(New(data, endStream, maxReceiveSize), events)
    requires i < |After(data, endStream, maxReceiveSize, events).past.handed|
    ensures var x := After(data, endStream, maxReceiveSize, events).past.handed[i];
            x.endStream <==> endStream || x.message == []
  {
    hide OnWrite, Run, Total, RefusedBytes, UserWrites;
    WriteDone(Blank(endStream, maxReceiveSize), data, []);
    FlagKept(New(data, endStream, maxReceiveSize), events);
    AfterKeeps(data, endStream, maxReceiveSize, events);
  }

  // ---------- suppression ----------

  /** messageWritten is only ever suppressed for a call that has ended or that nobody listens to. */
  lemma SuppressedWhenOver(h: Handler, e: Event)
    requires Enabled(h, e) && h.context && !h.state.Terminal()
    ensures Step(h, e).past.suppressed == h.past.suppressed
  {
    hide ProcessQueue, Message;
    match e
    case Write(data, answers) => ProcessFrame(Enqueue(h, Message(data)), answers);
    case WritesDone(answers) => ProcessFrame(Enqueue(h.(writesDoneSent := true), []), answers);
    case SendInitialRequest(_, _) => SendingFrame(h, e);
    case UploadFinished(_) => SendingFrame(h, e);
    case _ => hide Judge, Consume, OnSendInitialRequest, OnUploadFinished, OnWrite, OnWritesDone;
  }

  // ---------- by the events alone ----------

  /** What a call is asked for until its writes are done. */
  function Asked(events: seq<Event>, done: bool): seq<Request> {
    if events == [] || done then []
    else match events[0]
      case Write(data, _) => [Data(data)] + Asked(events[1..], false)
      case WritesDone(_) => [EndMark]
      case _ => Asked(events[1..], false)
  }

  predicate NeverClosed(events: seq<Event>) {
    forall k :: 0 <= k < |events| ==> !events[k].StreamClosed?
  }

  /** Only the end mark closes the stream for sending, on its way or gone. */
  predicate ClosedLate(h: Handler) {
    && (h.ClosedForSending() ==> h.writesDoneSent)
    && (h.Uploading() && h.stream.upload.value.endStream ==> h.writesDoneSent)
    && forall k :: 0 <= k < |h.queue| && h.queue[k] == [] ==> h.writesDoneSent
  }

  lemma HandOverClosedLate(h: Handler, answer: Answer)
    requires h.stream.Stream? && h.queue != [] && !h.endStreamAtFirstData && ClosedLate(h)
    ensures ClosedLate(HandOver(h, answer)) && !HandOver(h, answer).endStreamAtFirstData
  {
  }

  lemma {:induction false} DrainClosedLate(h: Handler, answers: seq<Answer>)
    requires h.stream.Stream? && h.stream.upload.None? && !h.endStreamAtFirstData && ClosedLate(h)
    ensures ClosedLate(DrainQueue(h, answers))
    decreases |h.queue|
  {
    hide HandOver, ClosedLate;
    if h.queue != [] {
      var answer := if answers == [] then Stalled(0) else answers[0];
      HandOverClosedLate(h, answer);
      if answer.Sent? {
        SentFrees(h);
        DrainClosedLate(HandOver(h, Sent), answers[1..]);
      }
    }
  }

  lemma ProcessClosedLate(h: Handler, answers: seq<Answer>)
    requires !h.endStreamAtFirstData && ClosedLate(h)
    ensures ClosedLate(ProcessQueue(h, answers))
  {
    hide DrainQueue, ClosedLate;
    if h.stream.Stream? && !h.state.Idle? && !h.Uploading() {
      DrainClosedLate(h, answers);
    }
  }

  lemma SendingClosedLate(h: Handler, e: Event)
    requires Enabled(h, e) && !h.endStreamAtFirstData && ClosedLate(h)
    requires e.Write? || e.WritesDone? || e.SendInitialRequest? || e.UploadFinished?
    ensures ClosedLate(Step(h, e))
  {
    hide ProcessQueue, Message;
    match e
    case Write(data, answers) =>
      MessageNotEmpty(data);
      ProcessClosedLate(Enqueue(h, Message(data)), answers);
    case WritesDone(answers) => ProcessClosedLate(Enqueue(h.(writesDoneSent := true), []), answers);
    case SendInitialRequest(_, answers) =>
      ProcessClosedLate(h.(state := RequestHeadersSent, past := h.past.(headers := h.past.headers + 1)), answers);
    case UploadFinished(answers) =>
      var close := h.stream.upload.value.endStream;
      var freed := h.(stream := h.stream.(upload := None, closed := h.stream.closed || close));
      ProcessClosedLate(Completed(freed, !h.inFlightUserWrite), answers);
  }

  lemma MessageNotEmpty(data: Octets)
    ensures Message(data) != []
  {
  }

  lemma StepClosedLate(h: Handler, e: Event)
    requires Enabled(h, e) && !e.StreamClosed? && !h.endStreamAtFirstData && ClosedLate(h)
    ensures ClosedLate(Step(h, e))
  {
    if e.Write? || e.WritesDone? || e.SendInitialRequest? || e.UploadFinished? {
      SendingClosedLate(h, e);
    } else if e.HeadersReceived? || e.DataReceived? {
      hide Judge, Consume;
    } else {
      hide OnHeaders, OnData, OnWrite, OnWritesDone, OnSendInitialRequest, OnUploadFinished;
    }
  }

  lemma StepDone(h: Handler, e: Event)
    requires Enabled(h, e)
    ensures Step(h, e).writesDoneSent == (h.writesDoneSent || (e.WritesDone? && !h.state.Terminal()))
    ensures Step(h, e).endStreamAtFirstData == h.endStreamAtFirstData
  {
    hide OnWrite, OnWritesDone;
    match e
    case Write(data, answers) => WriteDone(h, data, answers);
    case WritesDone(answers) => DoneAccepted(h, answers);
    case _ =>
      hide Step;
      OtherFrame(h, e);
  }

  lemma WriteDone(h: Handler, data: Octets, answers: seq<Answer>)
    ensures OnWrite(h, data, answers).writesDoneSent == h.writesDoneSent
    ensures OnWrite(h, data, answers).endStreamAtFirstData == h.endStreamAtFirstData
  {
    hide ProcessQueue, Message;
    ProcessFrame(Enqueue(h, Message(data)), answers);
  }

  lemma {:induction false} DoneTakesNothing(h: Handler, events: seq<Event>)
    requires Legal(h, events) && h.writesDoneSent
    ensures TakenIn(h, events) == []
    decreases |events|
  {
    hide Step;
    if events != [] {
      StepDone(h, events[0]);
      DoneTakesNothing(Step(h, events[0]), events[1..]);
    }
  }

  /** A call of several messages that is still going on, with a stream that nobody has closed, has taken
      every write up to the end of its writes, and the end mark if that has come. */
  lemma {:induction false} TakenIsAsked(h: Handler, events: seq<Event>)
    requires Legal(h, events) && NeverClosed(events) && !h.endStreamAtFirstData && ClosedLate(h)
    requires !Run(h, events).state.Terminal()
    ensures TakenIn(h, events) == Asked(events, h.writesDoneSent)
    decreases |events|
  {
    hide Step, ClosedLate;
    if h.state.Terminal() {
      TerminalForever(h, events);
    } else if h.writesDoneSent {
      DoneTakesNothing(h, events);
    } else if events != [] {
      var e, next := events[0], Step(h, events[0]);
      StepDone(h, e);
      StepClosedLate(h, e);
      NotClosedYet(h);
      if next.state.Terminal() {
        TerminalForever(next, events[1..]);
      }
      assert NeverClosed(events[1..]);
      TakenIsAsked(next, events[1..]);
      if e.Write? && |e.data| > MAX_PAYLOAD_SIZE {
        TooLarge(h, e.data, e.answers);
      }
      if e.WritesDone? {
        DoneTakesNothing(next, events[1..]);
        assert [EndMark] + [] == [EndMark];
      }
      assert [] + TakenIn(next, events[1..]) == TakenIn(next, events[1..]);
    }
  }

  lemma NotClosedYet(h: Handler)
    requires ClosedLate(h) && !h.writesDoneSent
    ensures !h.ClosedForSending()
  {
  }

  lemma TooLarge(h: Handler, data: Octets, answers: seq<Answer>)
    requires OpenForWriting(h) && |data| > MAX_PAYLOAD_SIZE && Enabled(h, Write(data, answers))
    ensures Step(h, Write(data, answers)).state.Terminal()
  {
    hide OnWrite;
    WriteAccepted(h, data, answers);
  }

  /** So the request of such a call is its first message and all its writes, each carried by a message of
      its own, in order. */
  lemma RequestIsAsked(data: Octets, maxReceiveSize: nat, events: seq<Event>)
    requires Legal(New(data, false, maxReceiveSize), events) && NeverClosed(events)
    requires !After(data, false, maxReceiveSize, events).state.Terminal()
    ensures |data| <= MAX_PAYLOAD_SIZE
    ensures AllMatch(After(data, false, maxReceiveSize, events).past.accepted, [Data(data)] + Asked(events, false))
  {
    hide OnWrite, Step, Carries, TakenIn, Run, ProcessQueue, Message;
    var blank, h := Blank(false, maxReceiveSize), New(data, false, maxReceiveSize);
    WriteAccepted(blank, data, []);
    WriteDone(blank, data, []);
    assert ClosedLate(h) by {
      NewClosedLate(data, maxReceiveSize);
    }
    if h.state.Terminal() {
      TerminalForever(h, events);
    }
    RequestIs(data, false, maxReceiveSize, events);
    TakenIsAsked(h, events);
  }

  lemma NewClosedLate(data: Octets, maxReceiveSize: nat)
    ensures ClosedLate(New(data, false, maxReceiveSize))
  {
    hide ProcessQueue, Message;
    MessageNotEmpty(data);
    ProcessClosedLate(Enqueue(Blank(false, maxReceiveSize), Message(data)), []);
  }
}
