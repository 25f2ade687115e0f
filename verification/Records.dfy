/**
 One record of a message body: a header, then a payload. How the payload is delimited depends on
 the field when its number is known, and on the wire type alone when it is not.
 */
module Records {
  import opened Octets
  import opened Varint
  import opened Scalars
  import opened Schema

  // ---------- headers ----------

  datatype Header = Header(number: nat, wire: WireType)

  function WireCode(w: WireType): nat {
    match w
    case WireVarint => 0
    case Wire64 => 1
    case WireChunk => 2
    case Wire32 => 5
  }

  function WireOfCode(c: nat): Option<WireType> {
    if c == 0 then Some(WireVarint)
    else if c == 1 then Some(Wire64)
    else if c == 2 then Some(WireChunk)
    else if c == 5 then Some(Wire32)
    else None
  }

  function WriteHeader(number: nat, wire: WireType): (d: Octets)
    ensures |d| >= 1
  {
    Write(8 * number + WireCode(wire))
  }

  /** decodeHeader: the varint is cut to 32 bits; groups and field number zero are refused. */
  function ReadHeader(d: Octets): (r: Read<Header>)
    ensures r.Got? ==> 1 <= r.size <= |d| && 1 <= r.value.number <= MAX_FIELD_NUMBER
  {
    match Read64(d)
    case Fail => Fail
    case Got(v, size) =>
      var header := v % TWO_TO_32;
      match WireOfCode(header % 8)
      case None => Fail
      case Some(wire) => if header / 8 > 0 then Got(Header(header / 8, wire), size) else Fail
  }

  lemma TagParts(number: nat, code: nat)
    requires number <= MAX_FIELD_NUMBER && code < 8
    ensures var tag := 8 * number + code;
            tag < TWO_TO_32 && tag % TWO_TO_32 == tag && tag % 8 == code && tag / 8 == number
  {
  }

  lemma WireCodes(wire: WireType)
    ensures WireCode(wire) < 8 && WireOfCode(WireCode(wire)) == Some(wire)
  {
  }

  lemma HeaderRoundTrip(number: nat, wire: WireType, rest: Octets)
    requires 1 <= number <= MAX_FIELD_NUMBER
    ensures ReadHeader(WriteHeader(number, wire) + rest)
            == Got(Header(number, wire), |WriteHeader(number, wire)|)
  {
    hide Read64, Write, WireCode, WireOfCode;
    WireCodes(wire);
    TagParts(number, WireCode(wire));
    Varint.RoundTrip(8 * number + WireCode(wire), rest);
  }

  lemma HeaderWindow(d: Octets, n: nat)
    requires n <= |d|
    ensures ReadHeader(d[..n]) == ReadHeader(d).Within(n)
  {
    Read64Window(d, n);
  }

  // ---------- payloads ----------

  /** The first field, from index `i` on, with the given number. */
  function IndexOf(t: MessageType, number: nat, i: nat): (r: Option<nat>)
    requires i <= |t|
    ensures r.Some? ==> i <= r.value < |t| && t[r.value].number == number
    ensures r.None? ==> forall j :: i <= j < |t| ==> t[j].number != number
    decreases |t| - i
  {
    if i == |t| then None
    else if t[i].number == number then Some(i)
    else IndexOf(t, number, i + 1)
  }

  lemma IndexOfField(t: MessageType, i: nat)
    requires DistinctNumbers(t) && i < |t|
    ensures IndexOf(t, t[i].number, 0) == Some(i)
  {
  }

  /** How the program reads the payload of a known field. The wire type is not looked at for
      messages, maps and single enums. */
  function Expected(f: Field, wire: WireType): Option<Shape> {
    if f.kind.MessageOf? then Some(AsChunk)
    else if f.kind.Enum? then
      if !f.IsList() || wire == WireVarint then Some(AsVarint)
      else if wire == WireChunk then Some(AsChunk)
      else None
    else if wire == KindWire(f.kind) then Some(ShapeOf(f.kind))
    else if f.IsList() && wire == WireChunk then Some(AsChunk)
    else None
  }

  /** The payloads an expected shape can deliver. */
  predicate Acceptable(f: Field, raw: Raw) {
    match raw
    case Blob(_) => f.kind.MessageOf? || f.kind.Bytes? || f.IsList()
    case Number(n) => f.kind.IsNumeric()
                      && n < if KindWire(f.kind) == Wire32 then TWO_TO_32 else TWO_TO_64
  }

  lemma ExpectedAcceptable(f: Field, wire: WireType, raw: Raw)
    requires Expected(f, wire).Some? && RawFits(Expected(f, wire).value, raw)
    ensures Acceptable(f, raw)
  {
  }

  function SkipVarint(d: Octets): (r: Option<nat>)
    ensures r.Some? ==> 1 <= r.value <= |d|
  {
    if d == [] then None
    else if d[0] < 128 then Some(1)
    else match SkipVarint(d[1..])
      case None => None
      case Some(n) => Some(n + 1)
  }

  /** skipField: the payload of an unknown field. */
  function Skip(wire: WireType, d: Octets): (r: Option<nat>)
    ensures r.Some? ==> 1 <= r.value <= |d|
  {
    match wire
    case WireVarint => SkipVarint(d)
    case Wire32 => if |d| < 4 then None else Some(4)
    case Wire64 => if |d| < 8 then None else Some(8)
    case WireChunk =>
      match Read64(d)
      case Fail => None
      case Got(length, n) =>
        if |d| - n < length then None else Some(n + length)
  }

  function Fits(r: Option<nat>, n: nat): Option<nat> {
    if r.Some? && r.value <= n then r else None
  }

  lemma {:induction false} SkipVarintWindow(d: Octets, n: nat)
    requires n <= |d|
    ensures SkipVarint(d[..n]) == Fits(SkipVarint(d), n)
    decreases n
  {
    if n > 0 && d[0] >= 128 {
      assert d[..n][1..] == d[1..][..n - 1];
      SkipVarintWindow(d[1..], n - 1);
    }
  }

  lemma SkipWindow(wire: WireType, d: Octets, n: nat)
    requires n <= |d|
    ensures Skip(wire, d[..n]) == Fits(Skip(wire, d), n)
  {
    match wire
    case WireVarint => SkipVarintWindow(d, n);
    case WireChunk => Read64Window(d, n);
    case _ =>
  }

  // ---------- records ----------

  datatype Record =
    | Bad
    | Unknown(number: nat, size: nat)
    | Known(index: nat, raw: Raw, size: nat)
  {
    function Within(n: nat): Record {
      if !Bad? && size <= n then this else Bad
    }
  }

  function ReadRecord(t: MessageType, d: Octets): (r: Record)
    ensures !r.Bad? ==> 2 <= r.size <= |d|
    ensures r.Known? ==> r.index < |t| && Acceptable(t[r.index], r.raw)
    ensures r.Known? && r.raw.Blob? ==> |r.raw.d| < r.size
    ensures r.Unknown? ==> 1 <= r.number && forall j :: 0 <= j < |t| ==> t[j].number != r.number
  {
    match ReadHeader(d)
    case Fail => Bad
    case Got(Header(number, wire), h) => ReadPayload(t, number, wire, h, d[h..])
  }

  /** The record whose header took `h` octets and whose payload starts `d`. */
  function ReadPayload(t: MessageType, number: nat, wire: WireType, h: nat, d: Octets): (r: Record)
    requires 1 <= h && 1 <= number
    ensures !r.Bad? ==> h < r.size <= h + |d|
    ensures r.Known? ==> r.index < |t| && Acceptable(t[r.index], r.raw)
    ensures r.Known? && r.raw.Blob? ==> |r.raw.d| < r.size
    ensures r.Unknown? ==> 1 <= r.number && forall j :: 0 <= j < |t| ==> t[j].number != r.number
  {
    match IndexOf(t, number, 0)
    case None => ReadUnknown(number, wire, h, d)
    case Some(i) => ReadKnown(t[i], i, wire, h, d)
  }

  function ReadUnknown(number: nat, wire: WireType, h: nat, d: Octets): (r: Record)
    ensures r.Bad? || (r.Unknown? && r.number == number && h < r.size <= h + |d|)
  {
    match Skip(wire, d)
    case None => Bad
    case Some(n) => Unknown(number, h + n)
  }

  function ReadKnown(f: Field, i: nat, wire: WireType, h: nat, d: Octets): (r: Record)
    ensures r.Bad? || (r.Known? && r.index == i && Acceptable(f, r.raw) && h < r.size <= h + |d|)
    ensures r.Known? && r.raw.Blob? ==> |r.raw.d| < r.size
  {
    match Expected(f, wire)
    case None => Bad
    case Some(shape) =>
      match ReadShape(shape, d)
      case Fail => Bad
      case Got(raw, n) => ExpectedAcceptable(f, wire, raw); Known(i, raw, h + n)
  }

  /** Cutting the input behind a record does not change how it reads; cutting into it spoils it. */
  lemma RecordWindow(t: MessageType, d: Octets, n: nat)
    requires n <= |d|
    ensures ReadRecord(t, d[..n]) == ReadRecord(t, d).Within(n)
  {
    HeaderWindow(d, n);
    var header := ReadHeader(d);
    if header.Got? && header.size <= n {
      TakeDrop(d, n, header.size);
      PayloadWindow(t, header.value.number, header.value.wire, header.size, d[header.size..], n);
    }
  }

  lemma PayloadWindow(t: MessageType, number: nat, wire: WireType, h: nat, d: Octets, n: nat)
    requires 1 <= h <= n <= h + |d| && 1 <= number
    ensures ReadPayload(t, number, wire, h, d[..n - h]) == ReadPayload(t, number, wire, h, d).Within(n)
  {
    match IndexOf(t, number, 0)
    case None => SkipWindow(wire, d, n - h);
    case Some(i) => KnownWindow(t[i], i, wire, h, d, n);
  }

  lemma KnownWindow(f: Field, i: nat, wire: WireType, h: nat, d: Octets, n: nat)
    requires h <= n <= h + |d|
    ensures ReadKnown(f, i, wire, h, d[..n - h]) == ReadKnown(f, i, wire, h, d).Within(n)
  {
    match Expected(f, wire)
    case None =>
    case Some(shape) => ShapeWindow(shape, d, n - h);
  }

  lemma RecordAppend(t: MessageType, a: Octets, b: Octets)
    requires !ReadRecord(t, a).Bad?
    ensures ReadRecord(t, a + b) == ReadRecord(t, a)
  {
    assert (a + b)[..|a|] == a;
    RecordWindow(t, a + b, |a|);
  }

  /** A record of a field, as written in a form that the field can be read in. */
  lemma WrittenRecord(t: MessageType, i: nat, wire: WireType, shape: Shape, raw: Raw, rest: Octets)
    requires DistinctNumbers(t) && i < |t| && LegalNumber(t[i].number)
    requires Expected(t[i], wire) == Some(shape) && RawFits(shape, raw)
    requires raw.Blob? ==> |raw.d| < TWO_TO_64
    ensures var header, payload := WriteHeader(t[i].number, wire), WriteShape(shape, raw);
            var d := header + payload + rest;
            && ReadHeader(d) == Got(Header(t[i].number, wire), |header|)
            && Acceptable(t[i], raw) && ReadRecord(t, d) == Known(i, raw, |header| + |payload|)
            && d[|header| + |payload|..] == rest
  {
    hide WriteHeader, ReadHeader, WriteShape, ReadShape, Expected;
    var header, payload := WriteHeader(t[i].number, wire), WriteShape(shape, raw);
    ExpectedAcceptable(t[i], wire, raw);
    assert header + payload + rest == header + (payload + rest);
    HeaderRoundTrip(t[i].number, wire, payload + rest);
    assert (header + (payload + rest))[|header|..] == payload + rest;
    IndexOfField(t, i);
    ShapeRoundTrip(shape, raw, rest);
  }
}
