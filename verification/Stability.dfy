/**
 Re-encoding what was decoded. The encoder makes nothing up for such a message: its required
 sub-messages have all been seen. So one pass through a decoder settles a message for good.
 */
module Stability {
  import opened Octets
  import opened Scalars
  import opened Schema
  import opened Records
  import opened Decoder
  import opened Encoder
  import opened RoundTrip
  import opened ReadBack
  import opened Consequences
  import opened Cleanliness

  predicate NeedsNothing(t: MessageType) {
    forall i :: 0 <= i < |t| ==> !NeedsMessage(t[i])
  }

  /** A map entry whose value never came holds a default message: a whole one, if its type needs no
      sub-message. */
  predicate MapsSettle(types: Types) {
    forall k, i :: 0 <= k < |types| && 0 <= i < |types[k]| ==> MapSettles(types, types[k][i])
  }

  predicate MapSettles(types: Types, f: Field) {
    f.rule.Map? && f.kind.MessageOf? && f.kind.ty < |types| && |types[f.kind.ty]| == 2
    && types[f.kind.ty][1].kind.MessageOf? && types[f.kind.ty][1].kind.ty < |types|
    ==> NeedsNothing(types[types[f.kind.ty][1].kind.ty])
  }

  /** No required sub-message is unset, at any depth. */
  predicate Whole(cx: Context, ty: nat, m: Message)
    requires WellFormed(cx.types) && Typed(cx.types, ty, m)
    decreases m, 1
  {
    Inside(cx, ty, m) && forall i :: 0 <= i < |m.values| && NeedsMessage(cx.types[ty][i]) ==> !m.values[i].Absent?
  }

  /** The same for the sub-messages only. */
  predicate Inside(cx: Context, ty: nat, m: Message)
    requires WellFormed(cx.types) && Typed(cx.types, ty, m)
    decreases m, 0
  {
    && (cx.keepUnknown || m.unknown == [])
    && forall i :: 0 <= i < |m.values| ==> WholeValue(cx, cx.types[ty][i], m.values[i])
  }

  predicate WholeValue(cx: Context, f: Field, v: Value)
    requires WellFormed(cx.types) && TypedValue(cx.types, f, v)
    decreases v, 0
  {
    match v
    case Sub(m) => Whole(cx, f.kind.ty, m)
    case Subs(ms) => forall k :: 0 <= k < |ms| ==> Whole(cx, f.kind.ty, ms[k])
    case _ => true
  }

  /** No floating-point field without presence holds a negative zero, at any depth. */
  predicate NoNegativeZero(cx: Context, ty: nat, m: Message)
    requires WellFormed(cx.types) && Typed(cx.types, ty, m)
    decreases m
  {
    forall i :: 0 <= i < |m.values| ==> NoNegativeZeroIn(cx, cx.types[ty][i], m.values[i])
  }

  predicate NoNegativeZeroIn(cx: Context, f: Field, v: Value)
    requires WellFormed(cx.types) && TypedValue(cx.types, f, v)
    decreases v
  {
    match v
    case Num(n) => f.WritesDefault() || n == 0 || !LooksDefault(f.kind, n)
    case Sub(m) => NoNegativeZero(cx, f.kind.ty, m)
    case Subs(ms) => forall k :: 0 <= k < |ms| ==> NoNegativeZero(cx, f.kind.ty, ms[k])
    case _ => true
  }

  lemma {:induction false} SettledIff(cx: Context, ty: nat, m: Message)
    requires WellFormed(cx.types) && Typed(cx.types, ty, m)
    ensures Settled(cx, ty, m) <==> Whole(cx, ty, m) && NoNegativeZero(cx, ty, m)
    decreases m, 1
  {
    hide SettledValue, WholeValue, NoNegativeZeroIn;
    forall i | 0 <= i < |m.values|
      ensures SettledValue(cx, cx.types[ty][i], m.values[i])
              <==> WholeValue(cx, cx.types[ty][i], m.values[i]) && NoNegativeZeroIn(cx, cx.types[ty][i], m.values[i])
                   && (NeedsMessage(cx.types[ty][i]) ==> !m.values[i].Absent?)
    {
      SettledValueIff(cx, cx.types[ty][i], m.values[i]);
    }
  }

  lemma {:induction false} SettledValueIff(cx: Context, f: Field, v: Value)
    requires WellFormed(cx.types) && TypedValue(cx.types, f, v)
    ensures SettledValue(cx, f, v)
            <==> WholeValue(cx, f, v) && NoNegativeZeroIn(cx, f, v) && (NeedsMessage(f) ==> !v.Absent?)
    decreases v, 0
  {
    hide Settled, Whole, NoNegativeZero;
    match v
    case Sub(m) => SettledIff(cx, f.kind.ty, m);
    case Subs(ms) =>
      forall k | 0 <= k < |ms|
        ensures Settled(cx, f.kind.ty, ms[k]) <==> Whole(cx, f.kind.ty, ms[k]) && NoNegativeZero(cx, f.kind.ty, ms[k])
      {
        SettledIff(cx, f.kind.ty, ms[k]);
      }
    case _ =>
  }

  lemma DefaultInside(cx: Context, ty: nat)
    requires WellFormed(cx.types) && ty < |cx.types|
    ensures Typed(cx.types, ty, Default(cx.types[ty])) && Inside(cx, ty, Default(cx.types[ty]))
  {
    DefaultTyped(cx.types, ty);
    var t, m := cx.types[ty], Default(cx.types[ty]);
    forall i | 0 <= i < |t| ensures WholeValue(cx, t[i], m.values[i]) {
      assert m.values[i] == DefaultValue(t[i]);
    }
  }

  /** The required sub-messages that have been seen are set. */
  predicate SeenIsSet(t: MessageType, fr: Frame)
    requires |fr.m.values| == |t|
  {
    forall i :: 0 <= i < |t| && i in fr.seen && NeedsMessage(t[i]) ==> !fr.m.values[i].Absent?
  }

  /** A frame part-way through a body. */
  predicate Under(cx: Context, ty: nat, fr: Frame)
    requires WellFormed(cx.types) && Typed(cx.types, ty, fr.m)
  {
    Inside(cx, ty, fr.m) && SeenIsSet(cx.types[ty], fr)
  }

  /** What an occurrence of a field modifies: a whole value, or a default message. */
  predicate Ready(cx: Context, f: Field, v: Value)
    requires WellFormed(cx.types) && TypedValue(cx.types, f, v)
  {
    if v.Sub? then Inside(cx, f.kind.ty, v.m) else WholeValue(cx, f, v)
  }

  lemma WholeInside(cx: Context, ty: nat, m: Message)
    requires WellFormed(cx.types) && Typed(cx.types, ty, m) && Whole(cx, ty, m)
    ensures Inside(cx, ty, m)
  {
  }

  lemma WholeReady(cx: Context, f: Field, v: Value)
    requires WellFormed(cx.types) && TypedValue(cx.types, f, v) && WholeValue(cx, f, v)
    ensures Ready(cx, f, v)
  {
    if v.Sub? {
      WholeInside(cx, f.kind.ty, v.m);
    }
  }

  lemma PriorReady(cx: Context, ty: nat, fr: Frame, i: nat)
    requires WellFormed(cx.types) && Typed(cx.types, ty, fr.m) && Inside(cx, ty, fr.m) && i < |cx.types[ty]|
    ensures Ready(cx, cx.types[ty][i], Prior(cx, ty, fr, i))
  {
    hide Whole;
    var f, m := cx.types[ty][i], fr.m;
    assert WholeValue(cx, f, m.values[i]) && TypedValue(cx.types, f, m.values[i]);
    WholeReady(cx, f, m.values[i]);
    var s := Sibling(cx.types[ty], m, i, 0);
    if s.Some? {
      var g := cx.types[ty][s.value];
      assert WholeValue(cx, g, m.values[s.value]) && TypedValue(cx.types, g, m.values[s.value]);
      WholeReady(cx, g, m.values[s.value]);
    }
    if m.values[i].Absent? && f.kind.MessageOf? {
      assert WellFormedType(cx.types, cx.types[ty]) && WellFormedField(cx.types, f);
      DefaultInside(cx, f.kind.ty);
    }
  }

  lemma SetUnder(cx: Context, ty: nat, fr: Frame, i: nat, v: Value)
    requires WellFormed(cx.types) && Typed(cx.types, ty, fr.m) && Under(cx, ty, fr) && i < |cx.types[ty]|
    requires TypedValue(cx.types, cx.types[ty][i], v) && WholeValue(cx, cx.types[ty][i], v) && !v.Absent?
    ensures Under(cx, ty, Assigned(cx, ty, fr, i, v))
  {
    hide WholeValue, TypedValue;
    TypedShape(cx.types, ty, fr.m);
    AbsentIsWhole(cx);
    var t, m, r := cx.types[ty], fr.m, Assigned(cx, ty, fr, i, v).m;
    TypedShape(cx.types, ty, r);
    TypedAt(cx, ty, r);
    forall j | 0 <= j < |t| ensures WholeValue(cx, t[j], r.values[j]) {
      assert WholeValue(cx, t[j], m.values[j]);
    }
  }

  lemma TypedAt(cx: Context, ty: nat, m: Message)
    requires Typed(cx.types, ty, m)
    ensures forall j :: 0 <= j < |m.values| ==> TypedValue(cx.types, cx.types[ty][j], m.values[j])
  {
  }

  lemma AbsentIsWhole(cx: Context)
    requires WellFormed(cx.types)
    ensures forall f: Field :: TypedValue(cx.types, f, Absent) ==> WholeValue(cx, f, Absent)
  {
  }

  lemma CompleteWhole(cx: Context, f: Field, e: Message)
    requires WellFormed(cx.types) && WellFormedField(cx.types, f) && f.rule.Map? && MapSettles(cx.types, f)
    requires Typed(cx.types, f.kind.ty, e) && Whole(cx, f.kind.ty, e)
    ensures cx.types[f.kind.ty][1].kind.MessageOf? ==> cx.types[f.kind.ty][1].kind.ty < |cx.types|
    ensures var r := Complete(cx.types, f.kind.ty, e); Typed(cx.types, f.kind.ty, r) && Whole(cx, f.kind.ty, r)
  {
    var t := cx.types[f.kind.ty];
    assert WellFormedType(cx.types, t) && WellFormedField(cx.types, t[1]);
    var r := Complete(cx.types, f.kind.ty, e);
    assert TypedValue(cx.types, t[0], e.values[0]) && TypedValue(cx.types, t[1], e.values[1]);
    assert WholeValue(cx, t[0], e.values[0]) && WholeValue(cx, t[1], e.values[1]);
    if t[1].kind.MessageOf? {
      DefaultInside(cx, t[1].kind.ty);
    }
    assert forall i :: 0 <= i < |t| ==> TypedValue(cx.types, t[i], r.values[i]);
    assert forall i :: 0 <= i < |t| ==> WholeValue(cx, t[i], r.values[i]);
  }

  lemma AddedWhole(cx: Context, f: Field, ms: seq<Message>, m: Message)
    requires WellFormed(cx.types) && WellFormedField(cx.types, f) && f.kind.MessageOf? && f.IsList()
    requires MapSettles(cx.types, f) && TypedValue(cx.types, f, Subs(ms)) && WholeValue(cx, f, Subs(ms))
    requires Typed(cx.types, f.kind.ty, m) && Whole(cx, f.kind.ty, m)
    ensures WholeValue(cx, f, Subs(Added(cx.types, f, ms, m)))
  {
    hide Whole, Typed, Insert;
    if f.rule.Map? {
      TypedShape(cx.types, f.kind.ty, m);
      CompleteWhole(cx, f, m);
      PushTyped(cx.types, f.kind.ty, ms, m);
      var entry := Complete(cx.types, f.kind.ty, m);
      var r := Insert(ms, entry);
      forall k | 0 <= k < |r|
        ensures Typed(cx.types, f.kind.ty, r[k]) && Whole(cx, f.kind.ty, r[k])
      {
        InsertMember(ms, entry, k);
      }
    }
  }

  lemma {:induction false} MessageWhole(cx: Context, f: Field, d: Octets, prior: Value)
    requires WellFormed(cx.types) && MapsSettle(cx.types) && WellFormedField(cx.types, f) && f.kind.MessageOf?
    requires MapSettles(cx.types, f) && TypedValue(cx.types, f, prior) && !prior.Absent? && Ready(cx, f, prior)
    ensures var r := UpdateMessage(cx, f, d, prior); r.Some? ==> WholeValue(cx, f, r.value)
    decreases |d|, 2
  {
    hide Whole, Inside, Decode, Typed;
    var ty := f.kind.ty;
    if !f.IsList() {
      DecodedWhole(cx, ty, d, prior.m);
    } else {
      DefaultInside(cx, ty);
      DecodedWhole(cx, ty, d, Default(cx.types[ty]));
      var r := Decode(cx, ty, d, Default(cx.types[ty]));
      if r.Some? {
        AddedWhole(cx, f, prior.ms, r.value);
      }
    }
  }

  lemma {:induction false} KnownUnder(cx: Context, ty: nat, fr: Frame, i: nat, raw: Raw)
    requires WellFormed(cx.types) && MapsSettle(cx.types) && Typed(cx.types, ty, fr.m) && Under(cx, ty, fr)
    requires i < |cx.types[ty]| && Acceptable(cx.types[ty][i], raw)
    ensures var r := AfterKnown(cx, ty, fr, i, raw); r.Some? ==> Under(cx, ty, r.value)
    decreases RawSize(raw), 4
  {
    hide Under, UpdateMessage, Whole, Inside;
    var f, prior := cx.types[ty][i], Prior(cx, ty, fr, i);
    UnderInside(cx, ty, fr);
    PriorReady(cx, ty, fr, i);
    var v := Update(cx, f, raw, prior);
    if v.Some? {
      assert MapSettles(cx.types, f);
      if f.kind.MessageOf? {
        MessageWhole(cx, f, raw.d, prior);
      }
      SetUnder(cx, ty, fr, i, v.value);
    }
  }

  lemma UnderInside(cx: Context, ty: nat, fr: Frame)
    requires WellFormed(cx.types) && Typed(cx.types, ty, fr.m) && Under(cx, ty, fr)
    ensures Inside(cx, ty, fr.m)
  {
  }

  lemma UnknownUnder(cx: Context, ty: nat, fr: Frame, number: nat, record: Octets)
    requires WellFormed(cx.types) && Typed(cx.types, ty, fr.m) && Under(cx, ty, fr)
    ensures Under(cx, ty, AfterUnknown(cx, ty, fr, number, record))
  {
  }

  lemma {:induction false} FrameUnder(cx: Context, ty: nat, d: Octets, fr: Frame)
    requires WellFormed(cx.types) && MapsSettle(cx.types) && Typed(cx.types, ty, fr.m) && Under(cx, ty, fr)
    ensures var r := DecodeFrom(cx, ty, d, fr); r.Some? ==> Under(cx, ty, r.value)
    decreases |d|, 0
  {
    hide Under, AfterKnown, AfterUnknown;
    TypedShape(cx.types, ty, fr.m);
    if d != [] {
      match ReadRecord(cx.types[ty], d)
      case Bad =>
      case Unknown(number, size) =>
        UnknownUnder(cx, ty, fr, number, d[..size]);
        FrameUnder(cx, ty, d[size..], AfterUnknown(cx, ty, fr, number, d[..size]));
      case Known(i, raw, size) =>
        KnownUnder(cx, ty, fr, i, raw);
        if AfterKnown(cx, ty, fr, i, raw).Some? {
          FrameUnder(cx, ty, d[size..], AfterKnown(cx, ty, fr, i, raw).value);
        }
    }
  }

  lemma {:induction false} DecodedWhole(cx: Context, ty: nat, d: Octets, m: Message)
    requires WellFormed(cx.types) && MapsSettle(cx.types) && Typed(cx.types, ty, m) && Inside(cx, ty, m)
    ensures var r := Decode(cx, ty, d, m); r.Some? ==> Whole(cx, ty, r.value)
    decreases |d|, 1
  {
    hide DecodeFrom, WholeValue;
    FrameUnder(cx, ty, d, Frame(m, {}));
  }

  /** A decoded message without negative zeros is a fixed point of encoding and decoding. */
  lemma Reencoded(cx: Context, ty: nat, d: Octets, m: Message)
    requires WellFormed(cx.types) && MapsSettle(cx.types) && ty < |cx.types|
    requires Typed(cx.types, ty, Default(cx.types[ty])) && Decode(cx, ty, d, Default(cx.types[ty])) == Some(m)
    requires NoNegativeZero(cx, ty, m) && |Encode(cx, ty, m, {}, true)| < TWO_TO_31
    ensures Decode(cx, ty, Encode(cx, ty, m, {}, true), Default(cx.types[ty])) == Some(m)
  {
    hide Decode, Encode, Settled, Whole, NoNegativeZero;
    DefaultClean(cx, ty);
    DecodedClean(cx, ty, d, Default(cx.types[ty]));
    DefaultInside(cx, ty);
    DecodedWhole(cx, ty, d, Default(cx.types[ty]));
    SettledIff(cx, ty, m);
    DecodeEncode(cx, ty, m);
  }

  // ---------- record by record ----------

  /** The frame after the first record of an input. */
  function FirstStep(x: Context, ty: nat, d: Octets, fr: Frame): (r: Option<Frame>)
    requires WellFormed(x.types) && Typed(x.types, ty, fr.m)
    ensures r.Some? ==> Typed(x.types, ty, r.value.m) && !ReadRecord(x.types[ty], d).Bad?
  {
    match ReadRecord(x.types[ty], d)
    case Bad => None
    case Unknown(number, size) => Some(AfterUnknown(x, ty, fr, number, d[..size]))
    case Known(j, raw, size) => AfterKnown(x, ty, fr, j, raw)
  }

  lemma DecodeEmpty(x: Context, ty: nat, fr: Frame)
    requires WellFormed(x.types) && Typed(x.types, ty, fr.m)
    ensures DecodeFrom(x, ty, [], fr) == Some(fr)
  {
  }

  lemma DecodeStep(x: Context, ty: nat, d: Octets, fr: Frame)
    requires WellFormed(x.types) && Typed(x.types, ty, fr.m) && d != []
    ensures ty < |x.types|
    ensures FirstStep(x, ty, d, fr).Some? ==> 2 <= ReadRecord(x.types[ty], d).size <= |d|
    ensures DecodeFrom(x, ty, d, fr)
            == var r := FirstStep(x, ty, d, fr);
               if r.None? then None else DecodeFrom(x, ty, d[ReadRecord(x.types[ty], d).size..], r.value)
  {
    hide AfterKnown, AfterUnknown, ReadRecord;
  }

  // ---------- unknown records ----------

  /** The records of an octet string with a number unknown to its type, as they stand. */
  function UnknownIn(t: MessageType, d: Octets, number: nat): seq<Octets>
    decreases |d|
  {
    if d == [] then []
    else match ReadRecord(t, d)
      case Bad => []
      case Unknown(k, size) =>
        (if k == number then [d[..size]] else []) + UnknownIn(t, d[size..], number)
      case Known(_, _, size) => UnknownIn(t, d[size..], number)
  }

  function RecordsOf(groups: seq<Group>, number: nat): seq<Octets> {
    if groups == [] then []
    else if groups[0].number == number then groups[0].records
    else RecordsOf(groups[1..], number)
  }

  lemma {:induction false} RecordsOfStored(groups: seq<Group>, number: nat, record: Octets, k: nat)
    ensures RecordsOf(Store(groups, number, record), k)
            == if k == number then RecordsOf(groups, k) + [record] else RecordsOf(groups, k)
    decreases |groups|
  {
    if groups != [] && groups[0].number != number {
      RecordsOfStored(groups[1..], number, record, k);
    }
  }

  lemma UnknownInNothing(t: MessageType, number: nat)
    ensures UnknownIn(t, [], number) == []
  {
  }

  lemma KnownStoresNothing(cx: Context, ty: nat, fr: Frame, i: nat, raw: Raw)
    requires WellFormed(cx.types) && Typed(cx.types, ty, fr.m) && i < |cx.types[ty]|
    requires Acceptable(cx.types[ty][i], raw)
    ensures var r := AfterKnown(cx, ty, fr, i, raw); r.Some? ==> r.value.m.unknown == fr.m.unknown
  {
    hide Update;
  }

  /** The octets of the first record, if its number is the unknown one asked for. */
  function FirstUnknown(t: MessageType, d: Octets, number: nat): seq<Octets> {
    match ReadRecord(t, d)
    case Unknown(k, size) => if k == number then [d[..size]] else []
    case _ => []
  }

  lemma UnknownInStep(t: MessageType, d: Octets, number: nat)
    requires d != [] && !ReadRecord(t, d).Bad?
    ensures UnknownIn(t, d, number) == FirstUnknown(t, d, number) + UnknownIn(t, d[ReadRecord(t, d).size..], number)
  {
    var rest := UnknownIn(t, d[ReadRecord(t, d).size..], number);
    assert [] + rest == rest;
  }

  lemma FirstStepStores(cx: Context, ty: nat, d: Octets, fr: Frame, number: nat)
    requires WellFormed(cx.types) && cx.keepUnknown && Typed(cx.types, ty, fr.m)
    requires ty < |cx.types| && FirstStep(cx, ty, d, fr).Some?
    ensures RecordsOf(FirstStep(cx, ty, d, fr).value.m.unknown, number)
            == RecordsOf(fr.m.unknown, number) + FirstUnknown(cx.types[ty], d, number)
  {
    hide AfterKnown, Store, RecordsOf, ReadRecord;
    var before := RecordsOf(fr.m.unknown, number);
    assert before + [] == before;
    match ReadRecord(cx.types[ty], d)
    case Unknown(k, size) => RecordsOfStored(fr.m.unknown, k, d[..size], number);
    case Known(i, raw, size) => KnownStoresNothing(cx, ty, fr, i, raw);
  }

  /** Unknown records are kept octet for octet, and in order for each number. */
  lemma {:induction false} UnknownKept(cx: Context, ty: nat, d: Octets, fr: Frame, number: nat)
    requires WellFormed(cx.types) && cx.keepUnknown && Typed(cx.types, ty, fr.m)
    requires DecodeFrom(cx, ty, d, fr).Some?
    ensures ty < |cx.types|
    ensures RecordsOf(DecodeFrom(cx, ty, d, fr).value.m.unknown, number)
            == RecordsOf(fr.m.unknown, number) + UnknownIn(cx.types[ty], d, number)
    decreases |d|
  {
    hide DecodeFrom, FirstStep, RecordsOf, UnknownIn, FirstUnknown, ReadRecord;
    TypedShape(cx.types, ty, fr.m);
    UnknownInNothing(cx.types[ty], number);
    DecodeEmpty(cx, ty, fr);
    if d == [] {
      assert RecordsOf(fr.m.unknown, number) + [] == RecordsOf(fr.m.unknown, number);
    } else {
      DecodeStep(cx, ty, d, fr);
      FirstStepStores(cx, ty, d, fr, number);
      UnknownInStep(cx.types[ty], d, number);
      var rest := d[ReadRecord(cx.types[ty], d).size..];
      UnknownKept(cx, ty, rest, FirstStep(cx, ty, d, fr).value, number);
      var before, first := RecordsOf(fr.m.unknown, number), FirstUnknown(cx.types[ty], d, number);
      assert before + first + UnknownIn(cx.types[ty], rest, number)
             == before + (first + UnknownIn(cx.types[ty], rest, number));
    }
  }

  /** A program that does not keep unknown records stores none. */
  lemma {:induction false} UnknownDropped(cx: Context, ty: nat, d: Octets, fr: Frame)
    requires WellFormed(cx.types) && !cx.keepUnknown && Typed(cx.types, ty, fr.m)
    requires DecodeFrom(cx, ty, d, fr).Some?
    ensures DecodeFrom(cx, ty, d, fr).value.m.unknown == fr.m.unknown
    decreases |d|
  {
    hide Update, ReadRecord;
    if d != [] {
      match ReadRecord(cx.types[ty], d)
      case Unknown(number, size) => UnknownDropped(cx, ty, d[size..], AfterUnknown(cx, ty, fr, number, d[..size]));
      case Known(i, raw, size) => UnknownDropped(cx, ty, d[size..], AfterKnown(cx, ty, fr, i, raw).value);
    }
  }
}
