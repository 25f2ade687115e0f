/**
 What a call comes to: the status that response headers, response data and an oversized message end it
 with, in terms of the headers and octets that came.
 */
module Outcomes {
  import opened Octets
  import opened Varint
  import opened Frames
  import opened Headers
  import opened Calls
  import opened CallStreams

  /** The call has raised this status, and has finished. */
  predicate EndedWith(h: Handler, r: Handler, code: nat) {
    r.state.Finished? && r.past.raised == h.past.raised + [code]
  }

  predicate Ongoing(h: Handler) {
    h.context && (h.state.RequestHeadersSent? || h.state.Active?)
  }

  // ---------- headers ----------

  /** Headers are response headers, trailers, or both in one, by where the call stands. */
  predicate InPhase(h: Handler, endStream: bool, phase: Phase) {
    match phase
    case Initial => h.state.RequestHeadersSent? && !endStream
    case TrailersOnly => h.state.RequestHeadersSent? && endStream
    case Trailers => h.state.Active? && endStream
  }

  /** A header that the phase does not allow: an HTTP status other than 200, a content type that is not
      gRPC, a status that is no number of the code table, an encoding that was not offered. */
  predicate Offends(x: Header, phase: Phase) {
    || (x.HttpStatus? && x.http != 200 && phase != Trailers)
    || (x.ContentType? && !x.isGrpc && phase != Trailers)
    || (x.GrpcStatus? && phase != Initial
        && (x.parsed.None? || x.parsed.value < 0 || x.parsed.value > 16))
    || (x.GrpcEncoding? && !x.usable && phase == Initial)
  }

  predicate NoneOffends(headers: seq<Header>, phase: Phase) {
    forall k :: 0 <= k < |headers| ==> !Offends(headers[k], phase)
  }

  /** What the phase asks for is there. */
  predicate Complete(headers: seq<Header>, phase: Phase) {
    && (phase != Trailers ==> exists k :: 0 <= k < |headers| && headers[k].HttpStatus?)
    && (phase != Trailers ==> exists k :: 0 <= k < |headers| && headers[k].ContentType?)
    && (phase != Initial ==> exists k :: 0 <= k < |headers| && headers[k].GrpcStatus?)
  }

  predicate LastStatusAt(headers: seq<Header>, k: nat) {
    k < |headers| && headers[k].GrpcStatus? && forall j :: k < j < |headers| ==> !headers[j].GrpcStatus?
  }

  lemma OffendsIff(x: Header, phase: Phase)
    ensures Offends(x, phase) <==> Objection(x, phase).Some?
    ensures Offends(x, phase) ==>
              Objection(x, phase) == Some(if x.HttpStatus? then HttpCode(x.http)
                                          else if x.GrpcStatus? then UNKNOWN else INTERNAL)
  {
  }

  lemma {:induction false} FirstOffender(headers: seq<Header>, phase: Phase, k: nat)
    requires k < |headers| && Offends(headers[k], phase)
    requires forall j :: 0 <= j < k ==> !Offends(headers[j], phase)
    ensures FirstObjection(headers, phase) == Objection(headers[k], phase)
    decreases k
  {
    hide Objection, Offends;
    OffendsIff(headers[0], phase);
    if k > 0 {
      FirstOffender(headers[1..], phase, k - 1);
    }
  }

  lemma NoOffender(headers: seq<Header>, phase: Phase)
    ensures NoneOffends(headers, phase) <==> FirstObjection(headers, phase).None?
  {
    hide Objection, Offends;
    forall k | 0 <= k < |headers| ensures Offends(headers[k], phase) <==> Objection(headers[k], phase).Some? {
      OffendsIff(headers[k], phase);
    }
  }

  lemma {:induction false} LastStatusIs(headers: seq<Header>, k: nat)
    requires LastStatusAt(headers, k) && headers[k].parsed.Some?
    ensures LastStatus(headers) == headers[k].parsed
    decreases |headers|
  {
    if k < |headers| - 1 {
      LastStatusIs(headers[..|headers| - 1], k);
    }
  }

  /** Every list with a status has a last one. */
  lemma {:induction false} SomeLastStatus(headers: seq<Header>) returns (k: nat)
    requires exists j :: 0 <= j < |headers| && headers[j].GrpcStatus?
    ensures LastStatusAt(headers, k)
    decreases |headers|
  {
    k := |headers| - 1;
    if !headers[k].GrpcStatus? {
      var front := headers[..k];
      var j :| 0 <= j < |headers| && headers[j].GrpcStatus?;
      assert front[j].GrpcStatus?;
      k := SomeLastStatus(front);
    }
  }

  /** The first header that offends ends the call. */
  lemma OffenderEnds(h: Handler, headers: seq<Header>, endStream: bool, phase: Phase, k: nat)
    requires Ongoing(h) && InPhase(h, endStream, phase)
    requires k < |headers| && Offends(headers[k], phase)
    requires forall j :: 0 <= j < k ==> !Offends(headers[j], phase)
    ensures EndedWith(h, OnHeaders(h, headers, endStream),
                      if headers[k].HttpStatus? then HttpCode(headers[k].http)
                      else if headers[k].GrpcStatus? then UNKNOWN else INTERNAL)
  {
    hide FirstObjection, Objection, Offends;
    OffendsIff(headers[k], phase);
    FirstOffender(headers, phase, k);
  }

  /** So does the lack of one that the phase asks for. */
  lemma MissingEnds(h: Handler, headers: seq<Header>, endStream: bool, phase: Phase)
    requires Ongoing(h) && InPhase(h, endStream, phase)
    requires NoneOffends(headers, phase) && !Complete(headers, phase)
    ensures EndedWith(h, OnHeaders(h, headers, endStream), INTERNAL)
  {
    hide FirstObjection, Offends;
    NoOffender(headers, phase);
  }

  /** Trailers with nothing to object to end the call with the last status in them. */
  lemma StatusEnds(h: Handler, headers: seq<Header>, endStream: bool, phase: Phase, k: nat)
    requires Ongoing(h) && InPhase(h, endStream, phase) && phase != Initial
    requires NoneOffends(headers, phase) && Complete(headers, phase) && LastStatusAt(headers, k)
    ensures headers[k].parsed.Some? && headers[k].parsed.value >= 0
    ensures EndedWith(h, OnHeaders(h, headers, endStream), headers[k].parsed.value)
  {
    hide FirstObjection, LastStatus;
    NoOffender(headers, phase);
    assert !Offends(headers[k], phase);
    LastStatusIs(headers, k);
  }

  /** Response headers with nothing to object to let the call go on. */
  lemma HeadersContinue(h: Handler, headers: seq<Header>)
    requires h.context && h.state.RequestHeadersSent?
    requires NoneOffends(headers, Initial) && Complete(headers, Initial)
    ensures var r := OnHeaders(h, headers, false);
            r.state.Active? && r.past.raised == h.past.raised && r.context
  {
    hide FirstObjection, Offends;
    NoOffender(headers, Initial);
  }

  /** Any other headers are ignored. */
  lemma HeadersIgnored(h: Handler, headers: seq<Header>, endStream: bool)
    requires h.state.Idle? || h.state.Terminal() || (h.state.Active? && !endStream)
    ensures OnHeaders(h, headers, endStream) == h
  {
  }

  /** A call with trailers ends Ok exactly when nothing in them offends, nothing is missing, and the last
      status is zero. */
  lemma TrailersOk(h: Handler, headers: seq<Header>, phase: Phase)
    requires Ongoing(h) && InPhase(h, true, phase)
    ensures EndedWith(h, OnHeaders(h, headers, true), OK)
            <==> NoneOffends(headers, phase) && Complete(headers, phase)
                 && exists k: nat :: LastStatusAt(headers, k) && headers[k].parsed == Some(0)
  {
    hide OnHeaders;
    var r, before := OnHeaders(h, headers, true), h.past.raised;
    if !NoneOffends(headers, phase) {
      var k := FirstThatOffends(headers, phase);
      OffenderEnds(h, headers, true, phase, k);
      assert r.past.raised[|before|] != OK;
    } else if !Complete(headers, phase) {
      MissingEnds(h, headers, true, phase);
      assert r.past.raised[|before|] != OK;
    } else {
      var k := SomeLastStatus(headers);
      StatusEnds(h, headers, true, phase, k);
      assert r.past.raised[|before|] == headers[k].parsed.value;
      forall j: nat | LastStatusAt(headers, j) ensures j == k {
      }
    }
  }

  lemma {:induction false} FirstThatOffends(headers: seq<Header>, phase: Phase) returns (k: nat)
    requires !NoneOffends(headers, phase)
    ensures k < |headers| && Offends(headers[k], phase) && forall j :: 0 <= j < k ==> !Offends(headers[j], phase)
    decreases |headers|
  {
    hide Offends;
    if Offends(headers[0], phase) {
      k := 0;
    } else {
      k := FirstThatOffends(headers[1..], phase);
      k := k + 1;
    }
  }

  // ---------- other ends ----------

  /** A call that is cancelled, by the user or by its deadline, that an error finishes, or whose scheduled
      end has come, raises the status it is given. */
  lemma GivenStatus(h: Handler, e: Event)
    requires h.context && !h.state.Terminal() && Enabled(h, e) && (e.Cancel? || e.Finish? || e.FinishFires?)
    ensures var r := Step(h, e);
            && (e.Cancel? ==> r.state.Cancelled? && r.past.raised == h.past.raised + [e.code])
            && (e.Finish? ==> EndedWith(h, r, e.code))
            && (e.FinishFires? ==> EndedWith(h, r, h.pendingFinish[0]) && r.pendingFinish == h.pendingFinish[1..])
  {
  }

  /** Nobody is told anything once the context is gone; what would have been told cancels the call. */
  lemma Unheard(h: Handler, e: Event)
    requires !h.context && Enabled(h, e)
    ensures Step(h, e).past.raised == h.past.raised && Step(h, e).past.delivered == h.past.delivered
    ensures e.Finish? || e.AsyncFinish? ==> Step(h, e).state.Cancelled?
    ensures e.HeadersReceived? && (exists phase :: InPhase(h, e.endStream, phase)) ==> Step(h, e).state.Cancelled?
  {
    if e.SendInitialRequest? || e.UploadFinished? {
      UnheardSending(h, e);
    } else if e.HeadersReceived? {
      hide Judge;
    } else {
      hide ProcessQueue, OnHeaders, OnData, OnWrite, OnWritesDone, OnUploadFinished, OnSendInitialRequest;
    }
  }

  lemma UnheardSending(h: Handler, e: Event)
    requires !h.context && Enabled(h, e) && (e.SendInitialRequest? || e.UploadFinished?)
    ensures Step(h, e).past.raised == h.past.raised && Step(h, e).past.delivered == h.past.delivered
  {
    hide ProcessQueue;
    match e
    case SendInitialRequest(_, answers) =>
      ProcessTells(h.(state := RequestHeadersSent, past := h.past.(headers := h.past.headers + 1)), answers);
    case UploadFinished(answers) =>
      var close := h.stream.upload.value.endStream;
      var freed := h.(stream := h.stream.(upload := None, closed := h.stream.closed || close));
      ProcessTells(Completed(freed, !h.inFlightUserWrite), answers);
  }

  lemma ProcessTells(h: Handler, answers: seq<Answer>)
    ensures var r := ProcessQueue(h, answers);
            r.past.raised == h.past.raised && r.past.delivered == h.past.delivered
  {
    hide DrainQueue;
    if h.stream.Stream? && !h.state.Idle? && !h.Uploading() {
      DrainTells(h, answers);
    }
  }

  lemma {:induction false} DrainTells(h: Handler, answers: seq<Answer>)
    requires h.stream.Stream? && h.stream.upload.None?
    ensures var r := DrainQueue(h, answers);
            r.past.raised == h.past.raised && r.past.delivered == h.past.delivered
    decreases |h.queue|
  {
    if h.queue != [] && (if answers == [] then Stalled(0) else answers[0]).Sent? {
      DrainTells(HandOver(h, Sent), answers[1..]);
    }
  }

  // ---------- data ----------

  /** The length that the header of a message declares, the highest octet first. */
  function Declared(d: Octets): nat
    requires |d| >= 5
  {
    (d[1] as int) * 0x100_0000 + (d[2] as int) * 0x1_0000 + (d[3] as int) * 0x100 + d[4]
  }

  /** The start of a message that is not there as a whole. */
  predicate Partial(d: Octets, limit: nat) {
    |d| < 5 || (Declared(d) <= limit && |d| < 5 + Declared(d))
  }

  /** What the octets at the front of a buffer end the call with, when they are no plain message. */
  function Trouble(d: Octets, limit: nat): Option<nat> {
    if |d| < 5 then None
    else if Declared(d) > limit then Some(RESOURCE_EXHAUSTED)
    else if |d| >= 5 + Declared(d) && d[0] != 0 then Some(INTERNAL)
    else None
  }

  lemma TroubleConsumed(d: Octets, limit: nat)
    requires Trouble(d, limit).Some? || Partial(d, limit)
    ensures Consume(d, limit).payloads == [] && Consume(d, limit).failure == Trouble(d, limit)
    ensures Partial(d, limit) ==> Trouble(d, limit).None? && Consume(d, limit).rest == d
  {
    if |d| >= 5 {
      assert FromBigEndian(d[1..5]) == Declared(d);
    }
  }

  /** DATA, behind what was left over before: plain messages within the limit are delivered in order;
      then a length beyond the limit, a compressed message, the end of the stream inside a message or
      its clean end each end the call with a status of their own. */
  lemma DataEnds(h: Handler, data: Octets, endStream: bool, payloads: seq<Octets>, tail: Octets)
    requires Ongoing(h) && h.maxReceiveSize <= MAX_PAYLOAD_SIZE
    requires forall k :: 0 <= k < |payloads| ==> |payloads[k]| <= h.maxReceiveSize
    requires h.container + data == Joined(Plain(payloads)) + tail
    requires Trouble(tail, h.maxReceiveSize).Some? || Partial(tail, h.maxReceiveSize)
    ensures var r, trouble := OnData(h, data, endStream), Trouble(tail, h.maxReceiveSize);
            && r.past.received == h.past.received + payloads
            && (trouble.Some? ==> EndedWith(h, r, trouble.value))
            && (trouble.None? && endStream ==> EndedWith(h, r, if tail == [] then OK else DATA_LOSS))
            && (trouble.None? && !endStream ==>
                  r.state == h.state && r.past.raised == h.past.raised && r.container == tail)
  {
    hide Consume, Joined, Trouble, Partial;
    var limit := h.maxReceiveSize;
    ConsumePlain(payloads, limit);
    ConsumeAppend(Joined(Plain(payloads)), tail, limit);
    TroubleConsumed(tail, limit);
    assert [] + tail == tail && payloads + [] == payloads;
    NoTrouble(limit);
  }

  lemma NoTrouble(limit: nat)
    ensures Trouble([], limit).None?
  {
  }
}
