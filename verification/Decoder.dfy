/**
 The reference decoder: what an octet string means as a message of a type.

 Nesting is by construction (a sub-message is decoded from its own slice), every field occurrence
 is read for update, modified and written back at once, and nothing is remembered between records
 but the message and the set of fields seen.
 */
module Decoder {
  import opened Octets
  import opened Scalars
  import opened Schema
  import opened Records

  /** The schema, and whether records with unknown numbers are kept. */
  datatype Context = Context(types: Types, keepUnknown: bool)

  datatype Frame = Frame(m: Message, seen: set<nat>)

  predicate RequiredSeen(t: MessageType, seen: set<nat>) {
    forall i :: 0 <= i < |t| && t[i].rule.Required? ==> i in seen
  }

  function Decode(cx: Context, ty: nat, d: Octets, m: Message): (r: Option<Message>)
    requires WellFormed(cx.types) && Typed(cx.types, ty, m)
    ensures r.Some? ==> Typed(cx.types, ty, r.value)
    decreases |d|, 1
  {
    match DecodeFrom(cx, ty, d, Frame(m, {}))
    case None => None
    case Some(fr) => if RequiredSeen(cx.types[ty], fr.seen) then Some(fr.m) else None
  }

  function DecodeFrom(cx: Context, ty: nat, d: Octets, fr: Frame): (r: Option<Frame>)
    requires WellFormed(cx.types) && Typed(cx.types, ty, fr.m)
    ensures r.Some? ==> Typed(cx.types, ty, r.value.m)
    decreases |d|, 0
  {
    if d == [] then Some(fr)
    else match ReadRecord(cx.types[ty], d)
      case Bad => None
      case Unknown(number, size) =>
        DecodeFrom(cx, ty, d[size..], AfterUnknown(cx, ty, fr, number, d[..size]))
      case Known(i, raw, size) =>
        match AfterKnown(cx, ty, fr, i, raw)
        case None => None
        case Some(next) => DecodeFrom(cx, ty, d[size..], next)
  }

  function AfterUnknown(cx: Context, ty: nat, fr: Frame, number: nat, record: Octets): (r: Frame)
    requires Typed(cx.types, ty, fr.m)
    ensures Typed(cx.types, ty, r.m)
  {
    if cx.keepUnknown then fr.(m := StoreUnknown(fr.m, number, record)) else fr
  }

  function AfterKnown(cx: Context, ty: nat, fr: Frame, i: nat, raw: Raw): (r: Option<Frame>)
    requires WellFormed(cx.types) && Typed(cx.types, ty, fr.m) && i < |cx.types[ty]|
    requires Acceptable(cx.types[ty][i], raw)
    ensures r.Some? ==> Typed(cx.types, ty, r.value.m)
    decreases RawSize(raw), 4
  {
    var t := cx.types[ty];
    assert WellFormedField(cx.types, t[i]);
    GetForUpdateTyped(cx.types, ty, fr.m, i);
    match Update(cx, t[i], raw, GetForUpdate(cx.types, t, fr.m, i))
    case None => None
    case Some(v) =>
      SetTyped(cx.types, ty, fr.m, i, v);
      Some(Frame(Set(t, fr.m, i, v), fr.seen + {i}))
  }

  function RawSize(raw: Raw): nat {
    match raw
    case Number(_) => 0
    case Blob(d) => |d|
  }

  /** One occurrence of a field modifies its value: a scalar is replaced, a list grows (or, by a
      packed chunk, is replaced), a sub-message is merged into. */
  function Update(cx: Context, f: Field, raw: Raw, prior: Value): (r: Option<Value>)
    requires WellFormed(cx.types) && WellFormedField(cx.types, f)
    requires TypedValue(cx.types, f, prior) && !prior.Absent? && Acceptable(f, raw)
    ensures r.Some? ==> TypedValue(cx.types, f, r.value) && !r.value.Absent?
    decreases RawSize(raw), 3
  {
    if f.kind.MessageOf? then UpdateMessage(cx, f, raw.d, prior) else UpdateScalar(cx.types, f, raw, prior)
  }

  function UpdateMessage(cx: Context, f: Field, d: Octets, prior: Value): (r: Option<Value>)
    requires WellFormed(cx.types) && WellFormedField(cx.types, f) && f.kind.MessageOf?
    requires TypedValue(cx.types, f, prior) && !prior.Absent?
    ensures r.Some? ==> TypedValue(cx.types, f, r.value) && !r.value.Absent?
    decreases |d|, 2
  {
    var ty := f.kind.ty;
    if !f.IsList() then
      match Decode(cx, ty, d, prior.m)
      case None => None
      case Some(m) => Some(Sub(m))
    else
      DefaultTyped(cx.types, ty);
      match Decode(cx, ty, d, Default(cx.types[ty]))
      case None => None
      case Some(m) => Some(Subs(Added(cx.types, f, prior.ms, m)))
  }

  /** A decoded element joins a repeated field, a decoded entry a map. */
  function Added(types: Types, f: Field, ms: seq<Message>, m: Message): (r: seq<Message>)
    requires WellFormed(types) && WellFormedField(types, f) && f.kind.MessageOf? && f.IsList()
    requires TypedValue(types, f, Subs(ms)) && Typed(types, f.kind.ty, m)
    ensures TypedValue(types, f, Subs(r))
  {
    if f.rule.Map? then
      PushTyped(types, f.kind.ty, ms, m);
      Push(types, f.kind.ty, ms, m)
    else ms + [m]
  }

  function UpdateScalar(types: Types, f: Field, raw: Raw, prior: Value): (r: Option<Value>)
    requires WellFormedField(types, f) && !f.kind.MessageOf? && Acceptable(f, raw)
    requires TypedValue(types, f, prior) && !prior.Absent?
    ensures r.Some? ==> TypedValue(types, f, r.value) && !r.value.Absent?
  {
    if f.kind.Bytes? then
      Some(if f.IsList() then Texts(prior.ds + [raw.d]) else Text(raw.d))
    else match raw
      case Number(w) =>
        var n := FromWire(f.kind, w);
        Some(if f.IsList() then Nums(prior.ns + [n]) else Num(n))
      case Blob(d) =>
        match ReadPacked(f.kind, d)
        case None => None
        case Some(ns) => Some(Nums(ns))
  }

  lemma {:induction false} InsertTyped(types: Types, ty: nat, entries: seq<Message>, entry: Message)
    requires Typed(types, ty, entry) && entry.values != []
    requires forall k :: 0 <= k < |entries| ==> Typed(types, ty, entries[k])
    ensures forall k :: 0 <= k < |Insert(entries, entry)| ==> Typed(types, ty, Insert(entries, entry)[k])
  {
    if entries != [] && !HasKey(entries[0], entry.values[0]) {
      InsertTyped(types, ty, entries[1..], entry);
    }
  }

  lemma PushTyped(types: Types, ty: nat, entries: seq<Message>, entry: Message)
    requires WellFormed(types) && ty < |types| && EntryType(types[ty])
    requires Typed(types, ty, entry)
    requires forall k :: 0 <= k < |entries| ==> Typed(types, ty, entries[k])
    requires types[ty][1].kind.MessageOf? ==> types[ty][1].kind.ty < |types|
    ensures forall k :: 0 <= k < |Push(types, ty, entries, entry)|
                ==> Typed(types, ty, Push(types, ty, entries, entry)[k])
  {
    var value := types[ty][1];
    assert TypedValue(types, value, entry.values[1]);
    assert TypedValue(types, types[ty][0], entry.values[0]);
    if value.kind.MessageOf? {
      DefaultTyped(types, value.kind.ty);
    }
    InsertTyped(types, ty, entries, Complete(types, ty, entry));
  }

  /** Reading on from where a prefix left off. */
  lemma {:induction false} DecodeAppend(cx: Context, ty: nat, a: Octets, b: Octets, fr: Frame)
    requires WellFormed(cx.types) && Typed(cx.types, ty, fr.m)
    requires DecodeFrom(cx, ty, a, fr).Some?
    ensures DecodeFrom(cx, ty, a + b, fr) == DecodeFrom(cx, ty, b, DecodeFrom(cx, ty, a, fr).value)
    decreases |a|
  {
    if a == [] {
      assert a + b == b;
    } else {
      RecordAppend(cx.types[ty], a, b);
      match ReadRecord(cx.types[ty], a)
      case Unknown(number, size) =>
        assert (a + b)[..size] == a[..size];
        AppendDrop(a, b, size);
        DecodeAppend(cx, ty, a[size..], b, AfterUnknown(cx, ty, fr, number, a[..size]));
      case Known(i, raw, size) =>
        AppendDrop(a, b, size);
        DecodeAppend(cx, ty, a[size..], b, AfterKnown(cx, ty, fr, i, raw).value);
    }
  }

  // ---------- one occurrence at a time ----------

  /** The value an occurrence would modify. */
  function Prior(cx: Context, ty: nat, fr: Frame, i: nat): (v: Value)
    requires WellFormed(cx.types) && Typed(cx.types, ty, fr.m) && i < |cx.types[ty]|
    ensures TypedValue(cx.types, cx.types[ty][i], v) && !v.Absent?
    ensures WellFormedField(cx.types, cx.types[ty][i])
  {
    assert WellFormedType(cx.types, cx.types[ty]) && WellFormedField(cx.types, cx.types[ty][i]);
    GetForUpdateTyped(cx.types, ty, fr.m, i);
    GetForUpdate(cx.types, cx.types[ty], fr.m, i)
  }

  function Assigned(cx: Context, ty: nat, fr: Frame, i: nat, v: Value): (r: Frame)
    requires WellFormed(cx.types) && Typed(cx.types, ty, fr.m) && i < |cx.types[ty]|
    requires TypedValue(cx.types, cx.types[ty][i], v)
    ensures Typed(cx.types, ty, r.m)
  {
    SetTyped(cx.types, ty, fr.m, i, v);
    Frame(Set(cx.types[ty], fr.m, i, v), fr.seen + {i})
  }

  /** Decoding goes on after an occurrence of field `i`. */
  function After(cx: Context, ty: nat, fr: Frame, i: nat, raw: Raw, rest: Octets): Option<Frame>
    requires WellFormed(cx.types) && Typed(cx.types, ty, fr.m) && i < |cx.types[ty]|
    requires Acceptable(cx.types[ty][i], raw)
  {
    match AfterKnown(cx, ty, fr, i, raw)
    case None => None
    case Some(next) => DecodeFrom(cx, ty, rest, next)
  }

  /** What the update of one occurrence makes of the rest of the input. */
  lemma AfterStored(cx: Context, ty: nat, fr: Frame, i: nat, raw: Raw, rest: Octets, v: Value)
    requires WellFormed(cx.types) && Typed(cx.types, ty, fr.m) && i < |cx.types[ty]|
    requires Acceptable(cx.types[ty][i], raw) && WellFormedField(cx.types, cx.types[ty][i])
    requires TypedValue(cx.types, cx.types[ty][i], GetForUpdate(cx.types, cx.types[ty], fr.m, i))
    requires Update(cx, cx.types[ty][i], raw, GetForUpdate(cx.types, cx.types[ty], fr.m, i)) == Some(v)
    ensures After(cx, ty, fr, i, raw, rest) == DecodeFrom(cx, ty, rest, Assigned(cx, ty, fr, i, v))
  {
  }

  lemma BodyFails(cx: Context, ty: nat, fr: Frame, i: nat, body: Octets, rest: Octets)
    requires WellFormed(cx.types) && Typed(cx.types, ty, fr.m) && i < |cx.types[ty]|
    requires cx.types[ty][i].kind.MessageOf? && Acceptable(cx.types[ty][i], Blob(body))
    requires UpdateMessage(cx, cx.types[ty][i], body, Prior(cx, ty, fr, i)).None?
    ensures After(cx, ty, fr, i, Blob(body), rest).None?
  {
    assert Update(cx, cx.types[ty][i], Blob(body), Prior(cx, ty, fr, i)).None?;
  }

  /** A second assignment to a field only shows its own value. */
  lemma AssignedTwice(cx: Context, ty: nat, fr: Frame, i: nat, v: Value, w: Value)
    requires WellFormed(cx.types) && Typed(cx.types, ty, fr.m) && i < |cx.types[ty]|
    requires TypedValue(cx.types, cx.types[ty][i], v) && TypedValue(cx.types, cx.types[ty][i], w)
    ensures Assigned(cx, ty, Assigned(cx, ty, fr, i, v), i, w) == Assigned(cx, ty, fr, i, w)
  {
    SetAfterSet(cx.types[ty], fr.m, i, v, w);
  }
}
