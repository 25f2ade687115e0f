/** The response body of a call: however DATA is cut, and how END_STREAM ends it. */
module CallStreams {
  import opened Octets
  import opened Frames
  import opened Headers
  import opened Calls

  function Prepend(payloads: seq<Octets>, c: Consumed): Consumed {
    c.(payloads := payloads + c.payloads)
  }

  lemma PrependTwice(a: seq<Octets>, b: seq<Octets>, c: Consumed)
    ensures Prepend(a, Prepend(b, c)) == Prepend(a + b, c)
  {
    assert a + (b + c.payloads) == a + b + c.payloads;
  }

  lemma PrependNothing(c: Consumed)
    ensures Prepend([], c) == c
  {
    assert [] + c.payloads == c.payloads;
  }

  /** One frame more, behind the payloads consumed so far. */
  lemma ConsumeStep(d: Octets, limit: nat, got: seq<Octets>)
    ensures Prepend(got, Consume(d, limit))
            == var r := ParseNext(d, limit);
               if r.NeedMoreData? then Consumed(got, d, None)
               else if r.Oversize? then Consumed(got, [], Some(RESOURCE_EXHAUSTED))
               else if r.frame.IsCompressed() then Consumed(got, d[r.size..], Some(INTERNAL))
               else Prepend(got + [r.frame.payload], Consume(d[r.size..], limit))
  {
    assert got + [] == got;
    match ParseNext(d, limit)
    case Parsed(f, size) => PrependTwice(got, [f.payload], Consume(d[size..], limit));
    case _ =>
  }

  /** Consuming in two pieces; an error in the first is the error of the whole. */
  lemma {:induction false} ConsumeAppend(a: Octets, b: Octets, limit: nat)
    ensures var first := Consume(a, limit);
            if first.failure.None? then
              Consume(a + b, limit) == Prepend(first.payloads, Consume(first.rest + b, limit))
            else
              Consume(a + b, limit).failure == first.failure
              && Consume(a + b, limit).payloads == first.payloads
    decreases |a|
  {
    match ParseNext(a, limit)
    case NeedMoreData =>
      assert [] + Consume(a + b, limit).payloads == Consume(a + b, limit).payloads;
    case Oversize(n) =>
      ParseNextAppend(a, b, limit);
    case Parsed(f, size) =>
      ParseNextAppend(a, b, limit);
      AppendDrop(a, b, size);
      if !f.IsCompressed() {
        ConsumeAppend(a[size..], b, limit);
        var first := Consume(a[size..], limit);
        if first.failure.None? {
          PrependTwice([f.payload], first.payloads, Consume(first.rest + b, limit));
        }
      }
  }

  lemma {:induction false} ConsumeSettles(d: Octets, limit: nat)
    ensures Consume(d, limit).failure.None? ==> Frames.Settled(Consume(d, limit).rest, limit)
    decreases |d|
  {
    match ParseNext(d, limit)
    case Parsed(f, size) => if !f.IsCompressed() { ConsumeSettles(d[size..], limit); }
    case _ =>
  }

  /** The frames of plain payloads. */
  function Plain(payloads: seq<Octets>): (r: seq<Frame>)
    ensures |r| == |payloads| && forall k :: 0 <= k < |r| ==> r[k] == Frame(0, payloads[k])
  {
    seq(|payloads|, k requires 0 <= k < |payloads| => Frame(0, payloads[k]))
  }

  /** Plain payloads within the limit are consumed one and all. */
  lemma {:induction false} ConsumePlain(payloads: seq<Octets>, limit: nat)
    requires limit <= MAX_PAYLOAD_SIZE && forall k :: 0 <= k < |payloads| ==> |payloads[k]| <= limit
    ensures Consume(Joined(Plain(payloads)), limit) == Consumed(payloads, [], None)
    decreases |payloads|
  {
    if payloads != [] {
      var f, rest := Frame(0, payloads[0]), Joined(Plain(payloads[1..]));
      assert Plain(payloads)[1..] == Plain(payloads[1..]);
      assert Joined(Plain(payloads)) == Framed(f) + rest;
      ParseFramed(f, rest, limit);
      assert (Framed(f) + rest)[|Framed(f)|..] == rest;
      ConsumePlain(payloads[1..], limit);
      assert [payloads[0]] + payloads[1..] == payloads;
    }
  }

  /** What has been consumed without error is plain payloads within the limit, then the rest. */
  lemma {:induction false} ConsumedIsPlain(d: Octets, limit: nat)
    ensures var c := Consume(d, limit);
            c.failure.None? ==>
              d == Joined(Plain(c.payloads)) + c.rest
              && forall k :: 0 <= k < |c.payloads| ==> |c.payloads[k]| <= limit
    decreases |d|
  {
    match ParseNext(d, limit)
    case NeedMoreData =>
      assert Joined(Plain([])) + d == d;
    case Oversize(_) =>
    case Parsed(f, size) =>
      if !f.IsCompressed() && Consume(d, limit).failure.None? {
        ParsedIsFramed(d, limit);
        ConsumedIsPlain(d[size..], limit);
        var c, more := Consume(d, limit), Consume(d[size..], limit);
        assert Plain(c.payloads)[1..] == Plain(more.payloads);
        assert Framed(f) + (Joined(Plain(more.payloads)) + more.rest)
               == Framed(f) + Joined(Plain(more.payloads)) + more.rest;
      }
  }

  // ---------- the handler fed chunk by chunk ----------

  function Feed(h: Handler, chunks: seq<Octets>): Handler
    decreases |chunks|
  {
    if chunks == [] then h else Feed(OnData(h, chunks[0], false), chunks[1..])
  }

  lemma {:induction false} FeedAfterEnd(h: Handler, chunks: seq<Octets>)
    requires h.context && h.state.Finished?
    ensures Feed(h, chunks).context && Feed(h, chunks).state.Finished?
    ensures Feed(h, chunks).past.raised == h.past.raised
    decreases |chunks|
  {
    hide Consume;
    if chunks != [] {
      FeedAfterEnd(OnData(h, chunks[0], false), chunks[1..]);
    }
  }

  /** The chunks of a body deliver what the body delivers in one piece, up to the first error, which
      ends the call. */
  lemma {:induction false} FeedIs(h: Handler, chunks: seq<Octets>)
    requires h.context && !h.state.Terminal() && Frames.Settled(h.container, h.maxReceiveSize)
    ensures var c, r := Consume(h.container + Flatten(chunks), h.maxReceiveSize), Feed(h, chunks);
            if c.failure.None? then
              r == h.(container := c.rest, past := h.past.(received := h.past.received + c.payloads))
            else
              r.context && r.state.Finished? && r.past.raised == h.past.raised + [c.failure.value]
    decreases |chunks|
  {
    hide Consume;
    var limit := h.maxReceiveSize;
    if chunks == [] {
      assert h.container + [] == h.container;
      ConsumeSettled(h.container, limit);
      assert h.past.received + [] == h.past.received;
    } else {
      var a, b := h.container + chunks[0], Flatten(chunks[1..]);
      var first := Consume(a, limit);
      var next := OnData(h, chunks[0], false);
      assert h.container + Flatten(chunks) == a + b;
      ConsumeAppend(a, b, limit);
      ConsumeSettles(a, limit);
      if first.failure.None? {
        FeedIs(next, chunks[1..]);
        var more := Consume(first.rest + b, limit);
        assert h.past.received + first.payloads + more.payloads
               == h.past.received + (first.payloads + more.payloads);
      } else {
        FeedAfterEnd(next, chunks[1..]);
      }
    }
  }

  lemma ConsumeSettled(d: Octets, limit: nat)
    requires Frames.Settled(d, limit)
    ensures Consume(d, limit) == Consumed([], d, None)
  {
  }

  lemma {:induction false} FlattenLast(chunks: seq<Octets>, last: Octets)
    ensures Flatten(chunks + [last]) == Flatten(chunks) + last
    decreases |chunks|
  {
    if chunks == [] {
      assert Flatten([last]) == last + [];
    } else {
      assert (chunks + [last])[1..] == chunks[1..] + [last];
      FlattenLast(chunks[1..], last);
      assert chunks[0] + (Flatten(chunks[1..]) + last) == chunks[0] + Flatten(chunks[1..]) + last;
    }
  }

  lemma FailureIsNotOk(d: Octets, limit: nat)
    ensures Consume(d, limit).failure != Some(OK)
  {
  }

  /** What the last DATA frame ends the call with. */
  lemma EndStreamCode(h: Handler, chunks: seq<Octets>, last: Octets)
    requires h.context && (h.state.RequestHeadersSent? || h.state.Active?)
    requires h.container == [] && h.past.raised == [] && h.maxReceiveSize <= MAX_PAYLOAD_SIZE
    ensures var c, r := Consume(Flatten(chunks + [last]), h.maxReceiveSize), OnData(Feed(h, chunks), last, true);
            && (r.past.raised == [OK] <==> c.failure.None? && c.rest == [])
            && (c.failure.None? ==> r.past.received == h.past.received + c.payloads)
  {
    hide Consume, Feed, Flatten;
    var limit := h.maxReceiveSize;
    FeedIs(h, chunks);
    FlattenLast(chunks, last);
    assert h.container + Flatten(chunks) == Flatten(chunks);
    ConsumeAppend(Flatten(chunks), last, limit);
    var first := Consume(Flatten(chunks), limit);
    FailureIsNotOk(Flatten(chunks), limit);
    FailureIsNotOk(first.rest + last, limit);
    var r := OnData(Feed(h, chunks), last, true);
    if first.failure.Some? {
      assert h.past.raised + [first.failure.value] == [first.failure.value];
      assert r.past.raised[0] != OK;
    } else {
      var more := Consume(first.rest + last, limit);
      var code := if more.failure.Some? then more.failure.value else if more.rest == [] then OK else DATA_LOSS;
      assert r.past.raised == [] + [code] == [code];
      assert [code] == [OK] <==> code == OK;
      assert r.past.received == h.past.received + first.payloads + more.payloads
             == h.past.received + (first.payloads + more.payloads);
    }
  }

  /** A body that ends the call with END_STREAM ends it Ok exactly when it is a sequence of plain
      messages within the limit, wherever it was cut; and then those messages were received. */
  lemma EndStreamOk(h: Handler, chunks: seq<Octets>, last: Octets)
    requires h.context && (h.state.RequestHeadersSent? || h.state.Active?)
    requires h.container == [] && h.past.raised == [] && h.maxReceiveSize <= MAX_PAYLOAD_SIZE
    ensures var body, r := Flatten(chunks + [last]), OnData(Feed(h, chunks), last, true);
            && (r.past.raised == [OK]
                <==> exists payloads: seq<Octets> ::
                       (forall k :: 0 <= k < |payloads| ==> |payloads[k]| <= h.maxReceiveSize)
                       && body == Joined(Plain(payloads)))
            && (r.past.raised == [OK] ==>
                  h.past.received <= r.past.received
                  && body == Joined(Plain(r.past.received[|h.past.received|..])))
  {
    hide Consume, Feed, Joined, Plain, Flatten, OnData;
    var limit, body := h.maxReceiveSize, Flatten(chunks + [last]);
    var c, r := Consume(body, limit), OnData(Feed(h, chunks), last, true);
    EndStreamCode(h, chunks, last);
    if c.failure.None? && c.rest == [] {
      ConsumedIsPlain(body, limit);
      assert Joined(Plain(c.payloads)) + [] == Joined(Plain(c.payloads));
      assert r.past.received[|h.past.received|..] == c.payloads;
    }
    if payloads: seq<Octets> :| (forall k :: 0 <= k < |payloads| ==> |payloads[k]| <= limit)
                                && body == Joined(Plain(payloads)) {
      ConsumePlain(payloads, limit);
    }
  }
}
