/** The channel as the program runs it, proved against the steps of `Channels`. */
module Http2Channel {
  import opened Octets
  import opened Headers
  import opened Calls
  import opened Channels
  import ChannelOutcomes
  import ChannelSafety

  class QGrpcHttp2Channel {
    var state: ConnectionState
    var connection: bool
    var reconnecting: bool
    var attempting: bool
    var handlers: seq<Handler>
    ghost var streamsCreated: bool

    ghost function Value(): Channel
      reads this
    {
      Channel(state, connection, reconnecting, attempting, handlers, streamsCreated)
    }

    constructor ()
      ensures Value() == OPENED
    {
      state, connection, reconnecting, attempting := Connecting, false, false, true;
      handlers, streamsCreated := [], true;
    }

    /** createHttp2Stream: a failure is reported to the call asynchronously. */
    method CreateHttp2Stream(h0: Handler, created: bool) returns (ok: bool, h: Handler)
      requires connection && h0.stream.NoStream?
      modifies this`streamsCreated
      ensures ok == created && h == CreateStream(h0, created)
      ensures streamsCreated == (old(streamsCreated) && created)
    {
      if !created {
        streamsCreated := false;
        return false, OnAsyncFinish(h0, UNAVAILABLE);
      }
      return true, h0.(stream := Stream(None, false));
    }

    method ProcessOperation(call: CallStart, writable: bool, created: bool, taken: bool, answers: seq<Answer>)
      requires InOrder(Value())
      modifies this
      ensures InOrder(Value())
      ensures Value() == OnStartCall(old(Value()), call, writable, created, taken, answers)
    {
      hide OnSendInitialRequest, New, CreateStream, InOrder, Placed, OnAsyncFinish;
      ChannelSafety.StartCallKeeps(Value(), StartCall(call, writable, created, taken, answers));
      if !writable && state.Connected? {
        return;
      }
      var handler := New(call.data, call.endStream, call.maxReceiveSize);
      NewHasNoStream(call);
      if connection {
        var ok;
        ok, handler := CreateHttp2Stream(handler, created);
        if !ok {
          handlers := handlers + [handler];
          return;
        }
      }
      if state.SettingsReceived? {
        handler := OnSendInitialRequest(handler, taken, answers);
      }
      handlers := handlers + [handler];
      if state.Error? {
        reconnecting := true;
        state := Connecting;
      }
    }

    /** The reconnect timer runs out: attemptConnect. */
    method AttemptConnect()
      requires reconnecting
      modifies this
      ensures Value() == OnReconnectTimeout(old(Value()))
    {
      reconnecting := false;
      attempting := !connection;
    }

    /** for_each_non_expired_handler visits the handlers with a context and deletes the others. */
    method OfferStreams(createds: nat -> bool) returns (visited: seq<Handler>)
      requires connection && forall k :: 0 <= k < |handlers| ==> handlers[k].stream.NoStream?
      modifies this`streamsCreated
      ensures visited == WithContext(CreateStreams(handlers, createds))
    {
      hide OnAsyncFinish, CreateStream;
      ghost var made := CreateStreams(handlers, createds);
      visited := [];
      for k := 0 to |handlers|
        invariant WithContext(made) == visited + WithContext(made[k..])
      {
        Visit(made, k, visited);
        ChannelSafety.MadeContext(handlers[k], createds(k));
        if handlers[k].context {
          var _, h := CreateHttp2Stream(handlers[k], createds(k));
          visited := visited + [h];
        }
      }
    }

    method CreateHttp2Connection(createds: nat -> bool)
      requires !connection && attempting
      requires forall k :: 0 <= k < |handlers| ==> handlers[k].stream.NoStream?
      modifies this
      ensures Value() == OnSocketConnected(old(Value()), createds)
    {
      hide WithContext, CreateStreams;
      connection, state, attempting := true, Connected, false;
      var visited := OfferStreams(createds);
      streamsCreated := forall k :: 0 <= k < |handlers| && handlers[k].context ==> createds(k);
      handlers := visited;
    }

    method SettingsFrameReceived(takens: nat -> bool, replies: nat -> seq<Answer>)
      requires ChannelEnabled(Value(), SettingsFrame(takens, replies))
      modifies this
      ensures Value() == OnSettingsFrame(old(Value()), takens, replies)
    {
      hide OnSendInitialRequest;
      if state.SettingsReceived? {
        return;
      }
      state := SettingsReceived;
      ghost var sent := SendInitialRequests(handlers, takens, replies);
      var visited: seq<Handler> := [];
      for k := 0 to |handlers|
        invariant Value() == old(Value()).(state := SettingsReceived)
        invariant WithContext(sent) == visited + WithContext(sent[k..])
      {
        Visit(sent, k, visited);
        RequestKeepsContext(handlers[k], takens(k), replies(k));
        if handlers[k].context {
          visited := visited + [OnSendInitialRequest(handlers[k], takens(k), replies(k))];
        }
      }
      handlers := visited;
    }

    /** Every handler with a context is finished, and loses its stream with the connection. */
    method CutHandlers() returns (visited: seq<Handler>)
      ensures visited == CutOffAll(WithContext(handlers))
    {
      hide CutOff;
      visited := [];
      for k := 0 to |handlers|
        invariant CutOffAll(WithContext(handlers)) == visited + CutOffAll(WithContext(handlers[k..]))
      {
        VisitToCut(handlers, k, visited);
        if handlers[k].context {
          visited := visited + [CutOff(handlers[k])];
        }
      }
    }

    method HandleSocketError()
      modifies this
      ensures Value() == OnSocketError(old(Value()))
      ensures forall k :: 0 <= k < |old(handlers)| && Live(old(handlers)[k]) ==>
                ChannelOutcomes.Unavailable(old(handlers)[k], handlers, ChannelOutcomes.Rank(old(handlers), k))
    {
      ChannelOutcomes.SocketErrorEndsAll(Value());
      hide CutOffAll, WithContext, ChannelOutcomes.Unavailable, ChannelOutcomes.Rank;
      var visited := CutHandlers();
      handlers, connection, attempting, state := visited, false, false, Error;
    }
  }

  lemma VisitToCut(hs: seq<Handler>, k: nat, visited: seq<Handler>)
    requires k < |hs|
    ensures visited + CutOffAll(WithContext(hs[k..]))
            == (if hs[k].context then visited + [CutOff(hs[k])] else visited) + CutOffAll(WithContext(hs[k + 1..]))
  {
    hide CutOff, CutOffAll;
    var h, rest := hs[k], WithContext(hs[k + 1..]);
    assert hs[k..][1..] == hs[k + 1..];
    if h.context {
      CutOffFirst(h, rest);
      assert visited + ([CutOff(h)] + CutOffAll(rest)) == visited + [CutOff(h)] + CutOffAll(rest);
    } else {
      assert [] + rest == rest;
    }
  }

  lemma CutOffFirst(h: Handler, rest: seq<Handler>)
    ensures CutOffAll([h] + rest) == [CutOff(h)] + CutOffAll(rest)
  {
    hide CutOff;
  }

  lemma NewHasNoStream(call: CallStart)
    ensures New(call.data, call.endStream, call.maxReceiveSize).stream.NoStream?
  {
  }

  lemma RequestKeepsContext(h: Handler, taken: bool, answers: seq<Answer>)
    ensures OnSendInitialRequest(h, taken, answers).context == h.context
  {
    if !h.state.Terminal() && taken {
      var sent := h.(state := RequestHeadersSent, past := h.past.(headers := h.past.headers + 1));
      ChannelSafety.ProcessPlace(sent, answers);
    }
  }

  /** One turn of the loop over the handlers. */
  lemma Visit(hs: seq<Handler>, k: nat, visited: seq<Handler>)
    requires k < |hs|
    ensures visited + WithContext(hs[k..])
            == (if hs[k].context then visited + [hs[k]] else visited) + WithContext(hs[k + 1..])
  {
    assert hs[k..][1..] == hs[k + 1..];
    if hs[k].context {
      assert visited + ([hs[k]] + WithContext(hs[k + 1..])) == visited + [hs[k]] + WithContext(hs[k + 1..]);
    }
  }
}
