/**
 The reference encoder: the octets of a message, as a function of the message alone.

 `guard` is the set of types for which an unset required sub-message is being made up right now;
 `cut` says whether the length of a nested body is cut to 32 bits, as the program does.
 */
module Encoder {
  import opened Octets
  import opened Varint
  import opened Scalars
  import opened Schema
  import opened Records
  import opened Decoder

  function WriteText(number: nat, d: Octets): (r: Octets)
    ensures |r| > |d|
  {
    WriteHeader(number, WireChunk) + WriteShape(AsChunk, Blob(d))
  }

  function WriteBody(number: nat, body: Octets, cut: bool): (r: Octets)
    ensures |r| > |body|
  {
    WriteHeader(number, WireChunk) + Write(if cut then |body| % TWO_TO_32 else |body|) + body
  }

  function Below(n: nat): (r: set<nat>)
    ensures forall k: nat :: k in r <==> k < n
  {
    if n == 0 then {} else Below(n - 1) + {n - 1}
  }

  /** The types still free to be made up: what nested default messages use up. */
  function Unguarded(cx: Context, guard: set<nat>): set<nat> {
    Below(|cx.types|) - guard
  }

  function Encode(cx: Context, ty: nat, m: Message, guard: set<nat>, cut: bool): Octets
    requires WellFormed(cx.types) && Typed(cx.types, ty, m)
    decreases Unguarded(cx, guard), m, 2
  {
    EncodeFields(cx, ty, m, guard, cut, 0) + EncodeUnknown(cx, m)
  }

  function EncodeFields(cx: Context, ty: nat, m: Message, guard: set<nat>, cut: bool, i: nat): Octets
    requires WellFormed(cx.types) && Typed(cx.types, ty, m) && i <= |m.values|
    decreases Unguarded(cx, guard), m, 1, |m.values| - i
  {
    if i == |m.values| then []
    else
      EncodeField(cx, cx.types[ty][i], m.values[i], guard, cut)
      + EncodeFields(cx, ty, m, guard, cut, i + 1)
  }

  function EncodeField(cx: Context, f: Field, v: Value, guard: set<nat>, cut: bool): Octets
    requires WellFormed(cx.types) && TypedValue(cx.types, f, v)
    requires WellFormedField(cx.types, f)
    decreases Unguarded(cx, guard), v, 1
  {
    match v
    case Absent =>
      if f.kind.MessageOf? && f.rule.Required? && f.kind.ty !in guard then
        DefaultTyped(cx.types, f.kind.ty);
        assert f.kind.ty in Unguarded(cx, guard) && f.kind.ty !in Unguarded(cx, guard + {f.kind.ty});
        WriteBody(f.number,
                  Encode(cx, f.kind.ty, Default(cx.types[f.kind.ty]), guard + {f.kind.ty}, cut), cut)
      else []
    case Sub(m) => WriteBody(f.number, Encode(cx, f.kind.ty, m, guard, cut), cut)
    case Subs(ms) => EncodeSubs(cx, f, ms, guard, cut)
    case _ => EncodeScalar(f, v)
  }

  function EncodeSubs(cx: Context, f: Field, ms: seq<Message>, guard: set<nat>, cut: bool): Octets
    requires WellFormed(cx.types) && f.kind.MessageOf?
    requires forall k :: 0 <= k < |ms| ==> Typed(cx.types, f.kind.ty, ms[k])
    decreases Unguarded(cx, guard), ms, 0
  {
    if ms == [] then []
    else
      WriteBody(f.number, Encode(cx, f.kind.ty, ms[0], guard, cut), cut)
      + EncodeSubs(cx, f, ms[1..], guard, cut)
  }

  predicate ScalarFits(f: Field, v: Value) {
    match v
    case Num(n) => InRange(f.kind, n)
    case Nums(ns) => f.kind.IsNumeric() && AllInRange(f.kind, ns)
    case _ => true
  }

  function EncodeScalar(f: Field, v: Value): Octets
    requires ScalarFits(f, v)
  {
    match v
    case Num(n) =>
      if LooksDefault(f.kind, n) && !f.WritesDefault() then []
      else WriteHeader(f.number, KindWire(f.kind)) + WriteNumber(f.kind, n)
    case Text(d) =>
      if d == [] && !f.WritesDefault() then [] else WriteText(f.number, d)
    case Nums(ns) =>
      if ns == [] then []
      else if f.rule.Repeated? && f.rule.packed then WriteText(f.number, WritePacked(f.kind, ns))
      else EncodeUnpacked(f, ns)
    case Texts(ds) => EncodeTexts(f, ds)
    case _ => []
  }

  function EncodeUnpacked(f: Field, ns: seq<int>): Octets
    requires AllInRange(f.kind, ns)
  {
    if ns == [] then []
    else WriteHeader(f.number, KindWire(f.kind)) + WriteNumber(f.kind, ns[0]) + EncodeUnpacked(f, ns[1..])
  }

  function EncodeTexts(f: Field, ds: seq<Octets>): Octets {
    if ds == [] then [] else WriteText(f.number, ds[0]) + EncodeTexts(f, ds[1..])
  }

  function Join(records: seq<Octets>): Octets {
    if records == [] then [] else records[0] + Join(records[1..])
  }

  function JoinGroups(groups: seq<Group>): Octets {
    if groups == [] then [] else Join(groups[0].records) + JoinGroups(groups[1..])
  }

  function EncodeUnknown(cx: Context, m: Message): Octets {
    if cx.keepUnknown then JoinGroups(m.unknown) else []
  }
}
