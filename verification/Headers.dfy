/** The response headers of a call: what each phase demands, and the verdict on a header list. */
module Headers {
  import opened Octets

  datatype Phase = Initial | Trailers | TrailersOnly

  /** A header, by what the handler looks at. Metadata and tolerated headers are `Other`. */
  datatype Header =
    | HttpStatus(http: int)
    | ContentType(isGrpc: bool)
    | GrpcStatus(parsed: Option<int>)   // None: not a number of 16 bits
    | GrpcEncoding(usable: bool)
    | Other

  // gRPC status codes
  const OK: nat := 0
  const CANCELLED: nat := 1
  const UNKNOWN: nat := 2
  const PERMISSION_DENIED: nat := 7
  const RESOURCE_EXHAUSTED: nat := 8
  const UNIMPLEMENTED: nat := 12
  const INTERNAL: nat := 13
  const UNAVAILABLE: nat := 14
  const DATA_LOSS: nat := 15
  const UNAUTHENTICATED: nat := 16

  function HttpCode(status: int): (code: nat)
    ensures code == OK <==> status == 200
  {
    if status == 200 then OK
    else if status == 400 then INTERNAL
    else if status == 401 then UNAUTHENTICATED
    else if status == 403 then PERMISSION_DENIED
    else if status == 404 then UNIMPLEMENTED
    else if status in {429, 502, 503, 504} then UNAVAILABLE
    else UNKNOWN
  }

  predicate NeedsHttp(phase: Phase) {
    !phase.Trailers?
  }

  predicate NeedsStatus(phase: Phase) {
    !phase.Initial?
  }

  predicate LegalStatus(value: Option<int>) {
    value.Some? && 0 <= value.value <= UNAUTHENTICATED
  }

  /** The status a single header ends the call with, if it does. */
  function Objection(h: Header, phase: Phase): Option<nat> {
    match h
    case HttpStatus(v) => if NeedsHttp(phase) && v != 200 then Some(HttpCode(v)) else None
    case ContentType(isGrpc) => if NeedsHttp(phase) && !isGrpc then Some(INTERNAL) else None
    case GrpcStatus(v) => if NeedsStatus(phase) && !LegalStatus(v) then Some(UNKNOWN) else None
    case GrpcEncoding(usable) => if phase.Initial? && !usable then Some(INTERNAL) else None
    case Other => None
  }

  predicate HasHttp(headers: seq<Header>) {
    exists k :: 0 <= k < |headers| && headers[k].HttpStatus?
  }

  predicate HasContentType(headers: seq<Header>) {
    exists k :: 0 <= k < |headers| && headers[k].ContentType?
  }

  predicate HasStatus(headers: seq<Header>) {
    exists k :: 0 <= k < |headers| && headers[k].GrpcStatus?
  }

  /** The first objection counts. */
  function FirstObjection(headers: seq<Header>, phase: Phase): (r: Option<nat>)
    ensures r.None? <==> forall k :: 0 <= k < |headers| ==> Objection(headers[k], phase).None?
  {
    if headers == [] then None
    else if Objection(headers[0], phase).Some? then Objection(headers[0], phase)
    else FirstObjection(headers[1..], phase)
  }

  /** The last status counts. */
  function LastStatus(headers: seq<Header>): (r: Option<int>)
    ensures r.Some? ==> HasStatus(headers)
  {
    if headers == [] then None
    else
      var last := headers[|headers| - 1];
      if last.GrpcStatus? && last.parsed.Some? then last.parsed
      else LastStatus(headers[..|headers| - 1])
  }

  /** A call goes on, or ends with a status. */
  datatype Verdict = Continue | End(code: nat)

  lemma {:induction false} LastStatusIsLegal(headers: seq<Header>, phase: Phase)
    requires FirstObjection(headers, phase).None? && NeedsStatus(phase)
    ensures HasStatus(headers) ==> LastStatus(headers).Some? && 0 <= LastStatus(headers).value <= UNAUTHENTICATED
    decreases |headers|
  {
    if headers != [] {
      var front, last := headers[..|headers| - 1], headers[|headers| - 1];
      assert Objection(last, phase).None?;
      forall k | 0 <= k < |front| ensures Objection(front[k], phase).None? {
        assert front[k] == headers[k];
      }
      LastStatusIsLegal(front, phase);
      if HasStatus(headers) && !last.GrpcStatus? {
        var k :| 0 <= k < |headers| && headers[k].GrpcStatus?;
        assert front[k].GrpcStatus?;
      }
    }
  }

  /** What the headers of a phase amount to. The status is there whenever it is looked at. */
  function Judge(headers: seq<Header>, phase: Phase): Verdict {
    var objection := FirstObjection(headers, phase);
    if objection.Some? then End(objection.value)
    else if NeedsHttp(phase) && !(HasHttp(headers) && HasContentType(headers)) then End(INTERNAL)
    else if !NeedsStatus(phase) then Continue
    else if !HasStatus(headers) then End(INTERNAL)
    else
      LastStatusIsLegal(headers, phase);
      End(LastStatus(headers).value)
  }

  /** Trailers of either form end the call, whatever they hold. */
  lemma TrailersEnd(headers: seq<Header>, phase: Phase)
    ensures Judge(headers, phase).Continue? ==> phase.Initial?
  {
  }

  /** A call ends Ok through its headers exactly when the status that counts is Ok and nothing was
      missing or objected to. */
  lemma EndsOk(headers: seq<Header>, phase: Phase)
    ensures Judge(headers, phase) == End(OK)
            <==> NeedsStatus(phase)
                 && (forall k :: 0 <= k < |headers| ==> Objection(headers[k], phase).None?)
                 && (NeedsHttp(phase) ==> HasHttp(headers) && HasContentType(headers))
                 && LastStatus(headers) == Some(OK)
  {
    var objection := FirstObjection(headers, phase);
    if objection.Some? {
      FirstIsAnObjection(headers, phase);
    } else if NeedsStatus(phase) {
      LastStatusIsLegal(headers, phase);
    }
  }

  lemma {:induction false} FirstIsAnObjection(headers: seq<Header>, phase: Phase)
    requires FirstObjection(headers, phase).Some?
    ensures FirstObjection(headers, phase).value != OK
  {
    if Objection(headers[0], phase).None? {
      FirstIsAnObjection(headers[1..], phase);
    }
  }

  // ---------- one header after another ----------

  lemma GatherMore(headers: seq<Header>, k: nat)
    requires k < |headers|
    ensures HasHttp(headers[..k + 1]) <==> HasHttp(headers[..k]) || headers[k].HttpStatus?
    ensures HasContentType(headers[..k + 1]) <==> HasContentType(headers[..k]) || headers[k].ContentType?
    ensures HasStatus(headers[..k + 1]) <==> HasStatus(headers[..k]) || headers[k].GrpcStatus?
    ensures LastStatus(headers[..k + 1])
            == if headers[k].GrpcStatus? && headers[k].parsed.Some? then headers[k].parsed
               else LastStatus(headers[..k])
  {
    var more := headers[..k + 1];
    assert more[..k] == headers[..k] && more[k] == headers[k];
    forall j | 0 <= j < k ensures more[j] == headers[..k][j] {
    }
  }

  /** handleHeaders: the loop stops at the first objection; what it has gathered decides the rest. */
  method HandleHeaders(headers: seq<Header>, phase: Phase) returns (r: Verdict)
    ensures r == Judge(headers, phase)
  {
    var hasHttpStatus, hasContentType := false, false;
    var statusCode: Option<int> := None;
    for k := 0 to |headers|
      invariant FirstObjection(headers, phase) == FirstObjection(headers[k..], phase)
      invariant NeedsHttp(phase) ==> hasHttpStatus == HasHttp(headers[..k])
      invariant NeedsHttp(phase) ==> hasContentType == HasContentType(headers[..k])
      invariant NeedsStatus(phase) ==> statusCode == LastStatus(headers[..k])
      invariant NeedsStatus(phase) ==> statusCode.Some? == HasStatus(headers[..k])
    {
      var h := headers[k];
      assert headers[k..][1..] == headers[k + 1..];
      GatherMore(headers, k);
      if NeedsHttp(phase) && h.HttpStatus? {
        if h.http != 200 {
          return End(HttpCode(h.http));
        }
        hasHttpStatus := true;
      } else if NeedsHttp(phase) && h.ContentType? {
        if !h.isGrpc {
          return End(INTERNAL);
        }
        hasContentType := true;
      } else if NeedsStatus(phase) && h.GrpcStatus? {
        if h.parsed.None? || h.parsed.value < 0 || h.parsed.value > UNAUTHENTICATED {
          return End(UNKNOWN);
        }
        statusCode := h.parsed;
      } else if phase.Initial? && h.GrpcEncoding? {
        if !h.usable {
          return End(INTERNAL);
        }
      }
    }
    assert headers[..|headers|] == headers;
    if NeedsHttp(phase) && !hasHttpStatus {
      return End(INTERNAL);
    }
    if NeedsHttp(phase) && !hasContentType {
      return End(INTERNAL);
    }
    if NeedsStatus(phase) && statusCode.None? {
      return End(INTERNAL);
    }
    if phase.Initial? {
      return Continue;
    }
    LastStatusIsLegal(headers, phase);
    return End(statusCode.value);
  }
}
