/** The promises of a call, over every legal run of its handler. */
module CallTheorems {
  import opened Octets
  import opened Frames
  import opened Headers
  import opened Calls
  import opened CallSafety

  /** The handler after a run. */
  function After(data: Octets, endStream: bool, maxReceiveSize: nat, events: seq<Event>): Handler
    requires Legal(New(data, endStream, maxReceiveSize), events)
  {
    Run(New(data, endStream, maxReceiveSize), events)
  }

  lemma AfterKeeps(data: Octets, endStream: bool, maxReceiveSize: nat, events: seq<Event>)
    requires Legal(New(data, endStream, maxReceiveSize), events)
    ensures var h := After(data, endStream, maxReceiveSize, events); Sound(h) && Awake(h)
  {
    NewSound(data, endStream, maxReceiveSize);
    RunKeeps(New(data, endStream, maxReceiveSize), events);
  }

  /** What was handed to the transport is a prefix of what was accepted, in order; the queue is the
      rest; and nothing was handed over before the request HEADERS, which are sent at most once. */
  lemma SentInOrder(data: Octets, endStream: bool, maxReceiveSize: nat, events: seq<Event>)
    requires Legal(New(data, endStream, maxReceiveSize), events)
    ensures var h := After(data, endStream, maxReceiveSize, events);
            && Messages(h.past.handed) <= h.past.accepted
            && h.past.accepted[|h.past.handed|..] == h.queue
            && h.past.headers <= 1
            && (h.past.handed != [] ==> h.past.headers == 1)
  {
    AfterKeeps(data, endStream, maxReceiveSize, events);
  }

  /** END_STREAM goes with the last message there will ever be. */
  lemma EndsOnce(data: Octets, endStream: bool, maxReceiveSize: nat, events: seq<Event>, i: nat)
    requires Legal(New(data, endStream, maxReceiveSize), events)
    requires i < |After(data, endStream, maxReceiveSize, events).past.handed|
    ensures var h := After(data, endStream, maxReceiveSize, events);
            h.past.handed[i].endStream ==> i == |h.past.accepted| - 1
  {
    hide Total, RefusedBytes, UserWrites;
    AfterKeeps(data, endStream, maxReceiveSize, events);
    var h := After(data, endStream, maxReceiveSize, events);
    assert h.past.accepted[i] == h.past.handed[i].message;
  }

  /** At rest, while the stream is open and every sendDATA has been taken: a message that could be
      sent means one is being sent. */
  lemma NoLostWakeup(data: Octets, endStream: bool, maxReceiveSize: nat, events: seq<Event>)
    requires Legal(New(data, endStream, maxReceiveSize), events)
    ensures var h := After(data, endStream, maxReceiveSize, events);
            (h.state.RequestHeadersSent? || h.state.Active?) && !h.ClosedForSending()
            && NothingRefused(h) && h.queue != []
            ==> h.Uploading()
  {
    hide Sound;
    AfterKeeps(data, endStream, maxReceiveSize, events);
  }

  lemma {:induction false} NothingRefusedBytes(handed: seq<Handed>)
    requires forall i :: 0 <= i < |handed| ==> !handed[i].refused
    ensures RefusedBytes(handed) == 0
    decreases |handed|
  {
    if handed != [] {
      NothingRefusedBytes(handed[..|handed| - 1]);
    }
  }

  /** Both counters, exactly: octets that were refused or given up stay counted as still to be
      written. Both assertions of the program about the counters follow. */
  lemma BytesConserved(data: Octets, endStream: bool, maxReceiveSize: nat, events: seq<Event>)
    requires Legal(New(data, endStream, maxReceiveSize), events)
    ensures var h := After(data, endStream, maxReceiveSize, events);
            && h.queuedBytes == Total(h.queue)
            && (h.queue != [] ==> |h.queue[0]| <= h.queuedBytes)
            && h.bytesToWrite
               == Total(h.queue) + Remaining(h) + RefusedBytes(h.past.handed) + h.past.abandoned
            && (NothingRefused(h) ==> RefusedBytes(h.past.handed) == 0)
  {
    AfterKeeps(data, endStream, maxReceiveSize, events);
    var h := After(data, endStream, maxReceiveSize, events);
    if NothingRefused(h) {
      NothingRefusedBytes(h.past.handed);
    }
  }

  /** One messageWritten is due per message that the transport took and finished and that did not
      end the stream: emitted, deferred, or suppressed because the call had ended. */
  lemma WrittenPerMessage(data: Octets, endStream: bool, maxReceiveSize: nat, events: seq<Event>)
    requires Legal(New(data, endStream, maxReceiveSize), events)
    ensures var h := After(data, endStream, maxReceiveSize, events);
            h.past.delivered + h.past.suppressed + h.pendingWritten + h.past.abandonedWrites
            + (if h.Uploading() && !h.stream.upload.value.endStream then 1 else 0)
            == UserWrites(h.past.handed)
  {
    hide Total, RefusedBytes, UserWrites;
    AfterKeeps(data, endStream, maxReceiveSize, events);
  }

  /** The header phases that reach the handler, and the end that trailers bring. */
  lemma ResponseShape(data: Octets, endStream: bool, maxReceiveSize: nat, events: seq<Event>)
    requires Legal(New(data, endStream, maxReceiveSize), events)
    ensures var h := After(data, endStream, maxReceiveSize, events);
            && LegalPhases(h.past.phases)
            && (Trailers in h.past.phases || TrailersOnly in h.past.phases ==> h.state.Terminal())
            && (h.past.raised != [] ==> h.state.Terminal())
            && (|h.past.raised| > 1 ==> h.state.Cancelled?)
  {
    hide Total, RefusedBytes, UserWrites;
    AfterKeeps(data, endStream, maxReceiveSize, events);
  }

  // ---------- after the end ----------

  /** What no event changes any more. */
  predicate Over(h: Handler, r: Handler) {
    && r.state.Terminal()
    && r.past.accepted == h.past.accepted
    && r.past.headers == h.past.headers
    && r.past.delivered == h.past.delivered
    && r.past.phases == h.past.phases
  }

  lemma {:induction false} DrainQueueOver(h: Handler, answers: seq<Answer>)
    requires h.stream.Stream? && h.stream.upload.None? && h.state.Terminal()
    ensures Over(h, DrainQueue(h, answers))
    decreases |h.queue|
  {
    if h.queue != [] {
      var answer := if answers == [] then Stalled(0) else answers[0];
      HandOverFrame(h, answer);
      var past := HandOver(h, answer).past;
      assert past.(handed := h.past.handed, completed := h.past.completed).accepted == h.past.accepted;
      if answer.Sent? {
        DrainQueueOver(HandOver(h, answer), answers[1..]);
      }
    }
  }

  lemma {:induction false} DrainKeepsRaised(h: Handler, answers: seq<Answer>)
    requires h.stream.Stream? && h.stream.upload.None?
    ensures DrainQueue(h, answers).past.raised == h.past.raised
    decreases |h.queue|
  {
    if h.queue != [] && (if answers == [] then Stalled(0) else answers[0]).Sent? {
      DrainKeepsRaised(HandOver(h, Sent), answers[1..]);
    }
  }

  lemma UploadFinishedOver(h: Handler, answers: seq<Answer>)
    requires h.state.Terminal() && h.Uploading()
    ensures Over(h, OnUploadFinished(h, answers))
    ensures OnUploadFinished(h, answers).past.raised == h.past.raised
  {
    hide DrainQueue;
    var close := h.stream.upload.value.endStream;
    var freed := h.(stream := h.stream.(upload := None, closed := h.stream.closed || close));
    var done := Completed(freed, !h.inFlightUserWrite);
    DrainQueueOver(done, answers);
    DrainKeepsRaised(done, answers);
  }

  lemma ReceivingOver(h: Handler, e: Event)
    requires h.state.Terminal() && Enabled(h, e) && (e.HeadersReceived? || e.DataReceived?)
    ensures Over(h, Step(h, e))
    ensures Step(h, e).past.raised != h.past.raised ==> h.state.Cancelled? && h.context
  {
    hide Judge, Consume;
  }

  /** One event of an ended call; finish() still lets a status through when the call was cancelled. */
  lemma StepOver(h: Handler, e: Event)
    requires h.state.Terminal() && Enabled(h, e)
    ensures Over(h, Step(h, e))
    ensures Step(h, e).past.raised != h.past.raised ==> h.state.Cancelled? && h.context
  {
    if e.UploadFinished? {
      hide OnUploadFinished;
      UploadFinishedOver(h, e.answers);
    } else if e.HeadersReceived? || e.DataReceived? {
      hide Step;
      ReceivingOver(h, e);
    } else {
      hide OnUploadFinished, OnHeaders, OnData, ProcessQueue, Message;
    }
  }

  /** Once a call has ended it stays ended: no message is accepted, no HEADERS are sent, no
      messageWritten is emitted and no response header is looked at ever after. */
  lemma {:induction false} TerminalForever(h: Handler, events: seq<Event>)
    requires h.state.Terminal() && Legal(h, events)
    ensures Over(h, Run(h, events))
    decreases |events|
  {
    hide Step;
    if events != [] {
      StepOver(h, events[0]);
      TerminalForever(Step(h, events[0]), events[1..]);
    }
  }

  /** A call that has raised a status can raise another one exactly when it was cancelled and its
      context is still there. */
  lemma RaisesAgainIff(data: Octets, endStream: bool, maxReceiveSize: nat, events: seq<Event>)
    requires Legal(New(data, endStream, maxReceiveSize), events)
    requires After(data, endStream, maxReceiveSize, events).past.raised != []
    ensures var h := After(data, endStream, maxReceiveSize, events);
            (exists e :: Enabled(h, e) && Step(h, e).past.raised != h.past.raised)
            <==> h.state.Cancelled? && h.context
  {
    hide Step, Sound, New, Run;
    AfterKeeps(data, endStream, maxReceiveSize, events);
    var h := After(data, endStream, maxReceiveSize, events);
    RaisedIsTerminal(h);
    if e :| Enabled(h, e) && Step(h, e).past.raised != h.past.raised {
      StepOver(h, e);
    }
    if h.state.Cancelled? && h.context {
      FinishRaises(h, INTERNAL);
    }
  }

  lemma RaisedIsTerminal(h: Handler)
    requires Sound(h) && h.past.raised != []
    ensures h.state.Terminal()
  {
    hide Conserves, Ends, HeadersFirst, Counted;
  }

  lemma FinishRaises(h: Handler, code: nat)
    requires h.state.Cancelled? && h.context
    ensures Enabled(h, Finish(code)) && Step(h, Finish(code)).past.raised == h.past.raised + [code]
  {
  }
}
