/**
 The user's side of a call. Its context passes on whatever status is raised, by the handler or by
 the operation itself; the operation emits `finished` for the first of them only.
 */
module Operations {
  import opened Octets
  import opened Headers
  import opened Calls
  import CallTheorems
  import Requests

  datatype Progress = Invalid | Valid | Finished

  datatype Operation = Operation(progress: Progress, emitted: seq<nat>)

  /** A call as a whole: `raised` are the statuses that the context has passed on. */
  datatype Rpc = Rpc(handler: Handler, operation: Operation, channelAlive: bool, raised: seq<nat>)

  datatype RpcEvent =
    | OnHandler(e: Event)
    | UserCancel
    | UserWrite(data: Octets, answers: seq<Answer>)
    | UserWriteFails(code: nat)          // the message does not serialize
    | UserWritesDone(answers: seq<Answer>)
    | ContextFinished(code: nat)         // raised past the handler
    | ChannelGone

  type Interceptor = nat -> nat

  /** The slot connected to the context's `finished`. */
  function OnFinished(op: Operation, code: nat, channelAlive: bool, intercept: Interceptor): Operation {
    if op.progress.Finished? then op
    else Operation(Progress.Finished, op.emitted + [if channelAlive then intercept(code) else code])
  }

  function Deliver(r: Rpc, codes: seq<nat>, intercept: Interceptor): Rpc
    decreases |codes|
  {
    if codes == [] then r
    else
      Deliver(r.(operation := OnFinished(r.operation, codes[0], r.channelAlive, intercept),
                 raised := r.raised + [codes[0]]),
              codes[1..], intercept)
  }

  /** The handler makes a step; what it raises meanwhile goes through the context. */
  function HandlerStep(r: Rpc, e: Event, intercept: Interceptor): Rpc
    requires Enabled(r.handler, e)
  {
    StepRaises(r.handler, e);
    var next := Step(r.handler, e);
    Deliver(r.(handler := next), next.past.raised[|r.handler.past.raised|..], intercept)
  }

  predicate RpcEnabled(r: Rpc, e: RpcEvent) {
    match e
    case OnHandler(he) => Enabled(r.handler, he) && !he.Write? && !he.WritesDone?
    case UserWrite(data, answers) => Enabled(r.handler, Write(data, answers))
    case UserWritesDone(answers) => Enabled(r.handler, WritesDone(answers))
    case _ => true
  }

  function RpcStep(r: Rpc, e: RpcEvent, intercept: Interceptor): Rpc
    requires RpcEnabled(r, e)
  {
    match e
    case OnHandler(he) => HandlerStep(r, he, intercept)
    case UserCancel =>
      if r.operation.progress.Finished? || !r.channelAlive then r
      else HandlerStep(r, Cancel(CANCELLED), intercept)
    case UserWrite(data, answers) =>
      if !r.channelAlive then r else HandlerStep(r, Write(data, answers), intercept)
    case UserWriteFails(code) =>
      if !r.channelAlive then r
      else HandlerStep(Deliver(r, [code], intercept), Cancel(CANCELLED), intercept)
    case UserWritesDone(answers) =>
      if !r.channelAlive then r else HandlerStep(r, WritesDone(answers), intercept)
    case ContextFinished(code) => Deliver(r, [code], intercept)
    case ChannelGone => r.(channelAlive := false)
  }

  predicate RpcLegal(r: Rpc, events: seq<RpcEvent>, intercept: Interceptor)
    decreases |events|
  {
    events == []
    || (RpcEnabled(r, events[0]) && RpcLegal(RpcStep(r, events[0], intercept), events[1..], intercept))
  }

  function RpcRun(r: Rpc, events: seq<RpcEvent>, intercept: Interceptor): Rpc
    requires RpcLegal(r, events, intercept)
    decreases |events|
  {
    if events == [] then r else RpcRun(RpcStep(r, events[0], intercept), events[1..], intercept)
  }

  // ---------- statuses are only ever added ----------

  lemma ProcessRaises(h: Handler, answers: seq<Answer>)
    ensures ProcessQueue(h, answers).past.raised == h.past.raised
  {
    if h.stream.Stream? && !h.state.Idle? && !h.Uploading() {
      CallTheorems.DrainKeepsRaised(h, answers);
    }
  }

  lemma SendingRaises(h: Handler, e: Event)
    requires Enabled(h, e) && (e.Write? || e.WritesDone? || e.SendInitialRequest? || e.UploadFinished?)
    ensures h.past.raised <= Step(h, e).past.raised
  {
    hide ProcessQueue, Message;
    match e
    case Write(data, answers) => ProcessRaises(Enqueue(h, Message(data)), answers);
    case WritesDone(answers) => ProcessRaises(Enqueue(h.(writesDoneSent := true), []), answers);
    case SendInitialRequest(_, answers) =>
      ProcessRaises(h.(state := RequestHeadersSent, past := h.past.(headers := h.past.headers + 1)), answers);
    case UploadFinished(answers) =>
      var close := h.stream.upload.value.endStream;
      var freed := h.(stream := h.stream.(upload := None, closed := h.stream.closed || close));
      ProcessRaises(Completed(freed, !h.inFlightUserWrite), answers);
  }

  lemma FinishingRaises(h: Handler, code: nat)
    ensures h.past.raised <= Finishing(h, code).past.raised
  {
  }

  lemma ReceivingRaises(h: Handler, e: Event)
    requires Enabled(h, e) && (e.HeadersReceived? || e.DataReceived?)
    ensures h.past.raised <= Step(h, e).past.raised
  {
    hide Judge, Consume, Finishing;
    match e
    case HeadersReceived(headers, endStream) =>
      var phase := PhaseOf(h.state, endStream);
      if !h.state.Terminal() && phase.Some? && Judge(headers, phase.value).End? {
        var active := h.(state := Active, past := h.past.(phases := h.past.phases + [phase.value]));
        FinishingRaises(active, Judge(headers, phase.value).code);
      }
    case DataReceived(data, endStream) =>
      var c := Consume(h.container + data, h.maxReceiveSize);
      var got := h.(container := c.rest, past := h.past.(received := h.past.received + c.payloads));
      FinishingRaises(got, if c.failure.Some? then c.failure.value else if c.rest == [] then OK else DATA_LOSS);
  }

  lemma StepRaises(h: Handler, e: Event)
    requires Enabled(h, e)
    ensures h.past.raised <= Step(h, e).past.raised
  {
    if e.Write? || e.WritesDone? || e.SendInitialRequest? || e.UploadFinished? {
      hide Step;
      SendingRaises(h, e);
    } else if e.HeadersReceived? || e.DataReceived? {
      hide Step;
      ReceivingRaises(h, e);
    } else {
      hide ProcessQueue, OnHeaders, OnData, OnWrite, OnWritesDone, OnSendInitialRequest, OnUploadFinished;
    }
  }

  // ---------- once only ----------

  /** Nothing emitted before anything is raised; then exactly the first status, seen through the
      interceptors if the channel was there. */
  predicate OnceOnly(r: Rpc, intercept: Interceptor) {
    && (r.raised == [] <==> !r.operation.progress.Finished?)
    && (if r.raised == [] then r.operation.emitted == []
        else r.operation.emitted == [r.raised[0]] || r.operation.emitted == [intercept(r.raised[0])])
    && (r.raised != [] && r.channelAlive ==> r.operation.emitted == [intercept(r.raised[0])])
  }

  lemma {:induction false} DeliverOnce(r: Rpc, codes: seq<nat>, intercept: Interceptor)
    requires OnceOnly(r, intercept)
    ensures OnceOnly(Deliver(r, codes, intercept), intercept)
    ensures Deliver(r, codes, intercept).handler == r.handler
    decreases |codes|
  {
    if codes != [] {
      DeliverOnce(r.(operation := OnFinished(r.operation, codes[0], r.channelAlive, intercept),
                     raised := r.raised + [codes[0]]),
                  codes[1..], intercept);
    }
  }

  lemma {:induction false} DeliverRaised(r: Rpc, codes: seq<nat>, intercept: Interceptor)
    ensures Deliver(r, codes, intercept).raised == r.raised + codes
    decreases |codes|
  {
    if codes == [] {
      assert r.raised + [] == r.raised;
    } else {
      DeliverRaised(r.(operation := OnFinished(r.operation, codes[0], r.channelAlive, intercept),
                       raised := r.raised + [codes[0]]),
                    codes[1..], intercept);
      assert r.raised + [codes[0]] + codes[1..] == r.raised + codes;
    }
  }

  lemma HandlerStepOnce(r: Rpc, e: Event, intercept: Interceptor)
    requires OnceOnly(r, intercept) && Enabled(r.handler, e)
    ensures OnceOnly(HandlerStep(r, e, intercept), intercept)
  {
    hide Step, Deliver;
    StepRaises(r.handler, e);
    var next := Step(r.handler, e);
    DeliverOnce(r.(handler := next), next.past.raised[|r.handler.past.raised|..], intercept);
  }

  lemma RpcStepOnce(r: Rpc, e: RpcEvent, intercept: Interceptor)
    requires OnceOnly(r, intercept) && RpcEnabled(r, e)
    ensures OnceOnly(RpcStep(r, e, intercept), intercept)
  {
    hide HandlerStep, Deliver, OnceOnly;
    match e
    case OnHandler(he) => HandlerStepOnce(r, he, intercept);
    case UserCancel => HandlerStepOnce(r, Cancel(CANCELLED), intercept);
    case UserWrite(data, answers) => HandlerStepOnce(r, Write(data, answers), intercept);
    case UserWriteFails(code) =>
      DeliverOnce(r, [code], intercept);
      HandlerStepOnce(Deliver(r, [code], intercept), Cancel(CANCELLED), intercept);
    case UserWritesDone(answers) => HandlerStepOnce(r, WritesDone(answers), intercept);
    case ContextFinished(code) => DeliverOnce(r, [code], intercept);
    case ChannelGone => GoneOnce(r, intercept);
  }

  lemma GoneOnce(r: Rpc, intercept: Interceptor)
    requires OnceOnly(r, intercept)
    ensures OnceOnly(r.(channelAlive := false), intercept)
  {
  }

  /** An operation whose handler has just been made; a first message beyond the limit has ended the
      call already. */
  function Started(h: Handler, intercept: Interceptor): Rpc {
    Deliver(Rpc(h, Operation(Valid, []), true, []), h.past.raised, intercept)
  }

  lemma {:induction false} RunOnce(r: Rpc, events: seq<RpcEvent>, intercept: Interceptor)
    requires OnceOnly(r, intercept) && RpcLegal(r, events, intercept)
    ensures OnceOnly(RpcRun(r, events, intercept), intercept)
    decreases |events|
  {
    hide RpcStep, OnceOnly;
    if events != [] {
      RpcStepOnce(r, events[0], intercept);
      RunOnce(RpcStep(r, events[0], intercept), events[1..], intercept);
    }
  }

  /** In every run, `finished` is emitted at most once and carries the first status raised. */
  lemma FinishedOnce(h: Handler, events: seq<RpcEvent>, intercept: Interceptor)
    requires RpcLegal(Started(h, intercept), events, intercept)
    ensures var r := RpcRun(Started(h, intercept), events, intercept);
            && |r.operation.emitted| <= 1
            && (r.raised == [] <==> r.operation.emitted == [])
            && (r.raised != [] ==> r.operation.emitted == [r.raised[0]]
                                   || r.operation.emitted == [intercept(r.raised[0])])
            && (r.raised != [] && r.channelAlive ==> r.operation.emitted == [intercept(r.raised[0])])
  {
    DeliverOnce(Rpc(h, Operation(Valid, []), true, []), h.past.raised, intercept);
    RunOnce(Started(h, intercept), events, intercept);
  }

  /** A write that does not serialize raises two statuses; the user only sees the first. */
  lemma FailedWriteRaisesTwice(h: Handler, code: nat, intercept: Interceptor)
    requires h.context && !h.state.Terminal() && h.past.raised == []
    ensures var r := RpcStep(Started(h, intercept), UserWriteFails(code), intercept);
            r.raised == [code, CANCELLED] && r.operation.emitted == [intercept(code)]
  {
    var start := Rpc(h, Operation(Valid, []), true, []);
    var first := start.(operation := OnFinished(start.operation, code, true, intercept), raised := [] + [code]);
    assert Started(h, intercept) == start && Deliver(start, [code], intercept) == Deliver(first, [], intercept);
    var next := Step(h, Cancel(CANCELLED));
    assert next.past.raised[|h.past.raised|..] == [CANCELLED];
    DeliverOnce(first.(handler := next), [CANCELLED], intercept);
    DeliverRaised(first.(handler := next), [CANCELLED], intercept);
  }

  // ---------- what reaches the user ----------

  lemma HandlerStepDelivers(r: Rpc, e: Event, intercept: Interceptor)
    requires Enabled(r.handler, e)
    ensures var s := HandlerStep(r, e, intercept);
            && s.handler == Step(r.handler, e) && s.channelAlive == r.channelAlive
            && r.handler.past.raised <= s.handler.past.raised
            && s.raised == r.raised + s.handler.past.raised[|r.handler.past.raised|..]
  {
    hide Step, Deliver;
    StepRaises(r.handler, e);
    var next := Step(r.handler, e);
    var codes := next.past.raised[|r.handler.past.raised|..];
    DeliverRaised(r.(handler := next), codes, intercept);
    DeliverKeeps(r.(handler := next), codes, intercept);
  }

  lemma {:induction false} DeliverKeeps(r: Rpc, codes: seq<nat>, intercept: Interceptor)
    ensures Deliver(r, codes, intercept).handler == r.handler
    ensures Deliver(r, codes, intercept).channelAlive == r.channelAlive
    decreases |codes|
  {
    if codes != [] {
      DeliverKeeps(r.(operation := OnFinished(r.operation, codes[0], r.channelAlive, intercept),
                      raised := r.raised + [codes[0]]),
                   codes[1..], intercept);
    }
  }

  /** The statuses that do not come from the handler. */
  function RaisedPast(r: Rpc, e: RpcEvent): seq<nat> {
    match e
    case UserWriteFails(code) => if r.channelAlive then [code] else []
    case ContextFinished(code) => [code]
    case _ => []
  }

  /** Every status that the handler raises is passed on, behind those raised past it. */
  lemma StepDelivers(r: Rpc, e: RpcEvent, intercept: Interceptor)
    requires RpcEnabled(r, e)
    ensures var s := RpcStep(r, e, intercept);
            && r.handler.past.raised <= s.handler.past.raised
            && s.raised == r.raised + RaisedPast(r, e) + s.handler.past.raised[|r.handler.past.raised|..]
  {
    hide HandlerStep, Deliver, Step;
    assert r.raised + [] + [] == r.raised;
    assert r.raised + [] == r.raised;
    match e
    case OnHandler(he) => HandlerStepDelivers(r, he, intercept);
    case UserCancel =>
      if !r.operation.progress.Finished? && r.channelAlive {
        HandlerStepDelivers(r, Cancel(CANCELLED), intercept);
      }
    case UserWrite(data, answers) =>
      if r.channelAlive {
        HandlerStepDelivers(r, Write(data, answers), intercept);
      }
    case UserWritesDone(answers) =>
      if r.channelAlive {
        HandlerStepDelivers(r, WritesDone(answers), intercept);
      }
    case UserWriteFails(code) =>
      if r.channelAlive {
        DeliverRaised(r, [code], intercept);
        DeliverKeeps(r, [code], intercept);
        HandlerStepDelivers(Deliver(r, [code], intercept), Cancel(CANCELLED), intercept);
      }
    case ContextFinished(code) =>
      DeliverRaised(r, [code], intercept);
      DeliverKeeps(r, [code], intercept);
    case ChannelGone =>
  }

  predicate OnlyHandler(events: seq<RpcEvent>) {
    forall k :: 0 <= k < |events| ==> !events[k].UserWriteFails? && !events[k].ContextFinished?
  }

  lemma {:induction false} RunDelivers(r: Rpc, events: seq<RpcEvent>, intercept: Interceptor)
    requires RpcLegal(r, events, intercept) && OnlyHandler(events) && r.raised == r.handler.past.raised
    ensures RpcRun(r, events, intercept).raised == RpcRun(r, events, intercept).handler.past.raised
    decreases |events|
  {
    hide RpcStep;
    if events != [] {
      StepDelivers(r, events[0], intercept);
      assert r.raised + [] == r.raised;
      assert OnlyHandler(events[1..]);
      RunDelivers(RpcStep(r, events[0], intercept), events[1..], intercept);
    }
  }

  /** As long as the operation raises nothing by itself, the user sees the first status that the handler
      has raised, as soon as it has raised one. */
  lemma HandlerStatusSeen(h: Handler, events: seq<RpcEvent>, intercept: Interceptor)
    requires RpcLegal(Started(h, intercept), events, intercept) && OnlyHandler(events)
    ensures var r := RpcRun(Started(h, intercept), events, intercept);
            && (r.handler.past.raised == [] <==> r.operation.emitted == [])
            && (r.handler.past.raised != [] && r.channelAlive ==>
                  r.operation.emitted == [intercept(r.handler.past.raised[0])])
  {
    hide RpcStep, Deliver;
    var start := Rpc(h, Operation(Valid, []), true, []);
    DeliverRaised(start, h.past.raised, intercept);
    DeliverKeeps(start, h.past.raised, intercept);
    assert [] + h.past.raised == h.past.raised;
    RunDelivers(Started(h, intercept), events, intercept);
    FinishedOnce(h, events, intercept);
  }

  /** Cancelling an operation that is under way ends its call, and the user sees that it was cancelled;
      an operation that has finished or has lost its channel is left alone. */
  lemma CancelEnds(r: Rpc, intercept: Interceptor)
    requires OnceOnly(r, intercept)
    ensures var s := RpcStep(r, UserCancel, intercept);
            && (r.operation.progress.Finished? || !r.channelAlive ==> s == r)
            && (!r.operation.progress.Finished? && r.channelAlive
                && r.handler.context && !r.handler.state.Terminal() ==>
                  && s.handler.state.Cancelled? && s.handler.past.raised == r.handler.past.raised + [CANCELLED]
                  && s.raised == [CANCELLED] && s.operation == Operation(Progress.Finished, [intercept(CANCELLED)]))
  {
    if !r.operation.progress.Finished? && r.channelAlive && r.handler.context && !r.handler.state.Terminal() {
      var next := Step(r.handler, Cancel(CANCELLED));
      var codes := next.past.raised[|r.handler.past.raised|..];
      assert codes == [CANCELLED];
      var cancelled := r.(handler := next);
      assert Deliver(cancelled, codes, intercept)
          == Deliver(cancelled.(operation := OnFinished(r.operation, CANCELLED, true, intercept),
                                raised := r.raised + [CANCELLED]), [], intercept);
    }
  }

  /** What the user writes on an open call becomes the last message of its request. */
  lemma WriteReaches(r: Rpc, data: Octets, answers: seq<Answer>, intercept: Interceptor)
    requires RpcEnabled(r, UserWrite(data, answers)) && r.channelAlive
    requires Requests.OpenForWriting(r.handler) && |data| <= 0xffff_ffff
    ensures var s, n := RpcStep(r, UserWrite(data, answers), intercept), |r.handler.past.accepted|;
            && |s.handler.past.accepted| == n + 1 && s.handler.past.accepted[..n] == r.handler.past.accepted
            && Requests.Carries(s.handler.past.accepted[n], data)
  {
    hide Deliver, OnWrite, HandlerStep, Requests.Carries;
    HandlerStepDelivers(r, Write(data, answers), intercept);
    Requests.WriteAccepted(r.handler, data, answers);
  }

  /** And so does the end mark. */
  lemma DoneReaches(r: Rpc, answers: seq<Answer>, intercept: Interceptor)
    requires RpcEnabled(r, UserWritesDone(answers)) && r.channelAlive && Requests.OpenForWriting(r.handler)
    ensures RpcStep(r, UserWritesDone(answers), intercept).handler.past.accepted == r.handler.past.accepted + [[]]
    ensures RpcStep(r, UserWritesDone(answers), intercept).handler.writesDoneSent
  {
    hide Deliver, OnWritesDone, HandlerStep;
    HandlerStepDelivers(r, WritesDone(answers), intercept);
    Requests.DoneAccepted(r.handler, answers);
  }

  // ---------- the operation's own slots ----------

  class QGrpcOperation {
    var progress: Progress
    var channelAlive: bool
    var emitted: seq<nat>

    constructor ()
      ensures Value() == Operation(Valid, []) && channelAlive && Once()
    {
      progress, channelAlive, emitted := Valid, true, [];
    }

    /** At most one `finished` has been emitted, and the operation knows. */
    predicate Once()
      reads this
    {
      |emitted| <= 1 && (progress.Finished? <==> emitted != [])
    }

    function Value(): Operation
      reads this
    {
      Operation(progress, emitted)
    }

    /** The slot marks the operation as finished before it emits anything. */
    method FinishedSlot(code: nat, intercept: Interceptor)
      requires Once()
      modifies this
      ensures Once() && emitted != [] && (old(emitted) != [] ==> emitted == old(emitted))
      ensures Value() == OnFinished(old(Value()), code, channelAlive, intercept)
      ensures channelAlive == old(channelAlive)
    {
      if progress.Finished? {
        return;
      }
      progress := Progress.Finished;
      if channelAlive {
        var interceptedStatus := intercept(code);
        emitted := emitted + [interceptedStatus];
        return;
      }
      emitted := emitted + [code];
    }
  }
}
