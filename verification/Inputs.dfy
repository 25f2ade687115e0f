/**
 An input as the list of its records, and what the decoder asks of that list. Whether an input is
 accepted turns out to be a matter of its octets and the schema alone.
 */
module Inputs {
  import opened Octets
  import opened Scalars
  import opened Schema
  import opened Records
  import opened Decoder

  /** A record together with its header. */
  datatype Item = Item(header: Header, record: Record)

  predicate Fits(t: MessageType, x: Item, size: nat) {
    && !x.record.Bad?
    && (x.record.Known? ==>
          x.record.index < |t| && Acceptable(t[x.record.index], x.record.raw) && RawSize(x.record.raw) < size)
  }

  /** The records of an input, one after another; `None` if one of them is malformed. */
  function Items(t: MessageType, d: Octets): (r: Option<seq<Item>>)
    ensures r.Some? ==> forall k :: 0 <= k < |r.value| ==> Fits(t, r.value[k], |d|)
    decreases |d|
  {
    if d == [] then Some([])
    else
      var first := ReadRecord(t, d);
      if first.Bad? then None
      else match Items(t, d[first.size..])
        case None => None
        case Some(rest) => Some([Item(ReadHeader(d).value, first)] + rest)
  }

  predicate IsOf(x: Item, i: nat) {
    x.record.Known? && x.record.index == i
  }

  predicate Occurs(items: seq<Item>, i: nat) {
    exists k :: 0 <= k < |items| && IsOf(items[k], i)
  }

  /** Every record can be read, nested bodies included, and no required field is missing. */
  predicate Accepts(cx: Context, ty: nat, d: Octets)
    requires WellFormed(cx.types) && ty < |cx.types|
    decreases |d|, 2
  {
    var items := Items(cx.types[ty], d);
    && items.Some? && Readable(cx, ty, items.value, |d|)
    && forall i :: 0 <= i < |cx.types[ty]| && cx.types[ty][i].rule.Required? ==> Occurs(items.value, i)
  }

  /** The payloads of all known records can be read. */
  predicate Readable(cx: Context, ty: nat, items: seq<Item>, size: nat)
    requires WellFormed(cx.types) && ty < |cx.types|
    requires forall k :: 0 <= k < |items| ==> Fits(cx.types[ty], items[k], size)
    decreases size, 1
  {
    forall k :: 0 <= k < |items| ==> ItemReads(cx, ty, items[k], size)
  }

  predicate ItemReads(cx: Context, ty: nat, x: Item, size: nat)
    requires WellFormed(cx.types) && ty < |cx.types| && Fits(cx.types[ty], x, size)
    decreases size, 0
  {
    x.record.Known? ==> PayloadReads(cx, ty, x.record.index, x.record.raw)
  }

  predicate PayloadReads(cx: Context, ty: nat, i: nat, raw: Raw)
    requires WellFormed(cx.types) && ty < |cx.types| && i < |cx.types[ty]| && Acceptable(cx.types[ty][i], raw)
    decreases RawSize(raw), 3
  {
    var f := cx.types[ty][i];
    assert WellFormedType(cx.types, cx.types[ty]) && WellFormedField(cx.types, f);
    if f.kind.MessageOf? then Accepts(cx, f.kind.ty, raw.d)
    else f.kind.Bytes? || raw.Number? || ReadPacked(f.kind, raw.d).Some?
  }

  // ---------- one record in front of the others ----------

  lemma ItemsStep(t: MessageType, d: Octets)
    requires d != []
    ensures var first := ReadRecord(t, d);
            Items(t, d) == if first.Bad? || Items(t, d[first.size..]).None? then None
                           else Some([Item(ReadHeader(d).value, first)] + Items(t, d[first.size..]).value)
  {
  }

  lemma NothingOccurs(i: nat)
    ensures !Occurs([], i)
  {
  }

  lemma OccursStep(first: Item, rest: seq<Item>, i: nat)
    ensures Occurs([first] + rest, i) <==> IsOf(first, i) || Occurs(rest, i)
  {
    var items := [first] + rest;
    if IsOf(first, i) {
      assert IsOf(items[0], i);
    }
    if Occurs(rest, i) {
      var k :| 0 <= k < |rest| && IsOf(rest[k], i);
      assert IsOf(items[k + 1], i);
    }
  }

  lemma ReadableStep(cx: Context, ty: nat, first: Item, rest: seq<Item>, size: nat, less: nat)
    requires WellFormed(cx.types) && ty < |cx.types| && Fits(cx.types[ty], first, size) && less <= size
    requires forall k :: 0 <= k < |rest| ==> Fits(cx.types[ty], rest[k], less)
    ensures forall k :: 0 <= k < |[first] + rest| ==> Fits(cx.types[ty], ([first] + rest)[k], size)
    ensures Readable(cx, ty, [first] + rest, size)
            <==> (first.record.Known? ==> PayloadReads(cx, ty, first.record.index, first.record.raw))
                 && Readable(cx, ty, rest, less)
  {
    hide PayloadReads;
    var items := [first] + rest;
    if Readable(cx, ty, items, size) {
      assert ItemReads(cx, ty, items[0], size);
      forall k | 0 <= k < |rest| ensures ItemReads(cx, ty, rest[k], less) {
        assert ItemReads(cx, ty, items[k + 1], size);
      }
    }
  }

  // ---------- the decoder agrees ----------

  lemma {:induction false} PayloadIff(cx: Context, ty: nat, fr: Frame, i: nat, raw: Raw)
    requires WellFormed(cx.types) && Typed(cx.types, ty, fr.m) && i < |cx.types[ty]|
    requires Acceptable(cx.types[ty][i], raw)
    ensures AfterKnown(cx, ty, fr, i, raw).Some? <==> PayloadReads(cx, ty, i, raw)
    ensures AfterKnown(cx, ty, fr, i, raw).Some? ==> AfterKnown(cx, ty, fr, i, raw).value.seen == fr.seen + {i}
    decreases RawSize(raw), 3
  {
    hide Decode, Accepts, ReadPacked;
    var f, prior := cx.types[ty][i], Prior(cx, ty, fr, i);
    if f.kind.MessageOf? {
      DefaultTyped(cx.types, f.kind.ty);
      AcceptedInput(cx, f.kind.ty, raw.d, if f.IsList() then Default(cx.types[f.kind.ty]) else prior.m);
      assert Update(cx, f, raw, prior).Some? <==> Accepts(cx, f.kind.ty, raw.d);
    } else {
      assert Update(cx, f, raw, prior) == UpdateScalar(cx.types, f, raw, prior);
    }
  }

  lemma SeenUnknown(cx: Context, ty: nat, fr: Frame, number: nat, record: Octets)
    requires Typed(cx.types, ty, fr.m)
    ensures AfterUnknown(cx, ty, fr, number, record).seen == fr.seen
  {
  }

  /** What the records of the input make of a frame: whether it survives, and what it has seen. */
  lemma {:induction false} FrameIff(cx: Context, ty: nat, d: Octets, fr: Frame)
    requires WellFormed(cx.types) && Typed(cx.types, ty, fr.m)
    ensures ty < |cx.types|
    ensures var items, r := Items(cx.types[ty], d), DecodeFrom(cx, ty, d, fr);
            && (r.Some? <==> items.Some? && Readable(cx, ty, items.value, |d|))
            && (r.Some? ==> forall i: nat :: i in r.value.seen <==> i in fr.seen || Occurs(items.value, i))
    decreases |d|, 0
  {
    hide PayloadReads, Readable, AfterKnown, AfterUnknown, Occurs, ReadHeader, ReadRecord, Items;
    TypedShape(cx.types, ty, fr.m);
    var t := cx.types[ty];
    if d == [] {
      NoItems(cx, ty);
    } else {
      ItemsStep(t, d);
      match ReadRecord(t, d)
      case Bad =>
      case Unknown(number, size) =>
        SeenUnknown(cx, ty, fr, number, d[..size]);
        FrameIff(cx, ty, d[size..], AfterUnknown(cx, ty, fr, number, d[..size]));
        if Items(t, d).Some? {
          FirstJoins(cx, ty, d);
        }
      case Known(i, raw, size) =>
        PayloadIff(cx, ty, fr, i, raw);
        if AfterKnown(cx, ty, fr, i, raw).Some? {
          FrameIff(cx, ty, d[size..], AfterKnown(cx, ty, fr, i, raw).value);
        }
        if Items(t, d).Some? {
          FirstJoins(cx, ty, d);
        }
    }
  }

  lemma NoItems(cx: Context, ty: nat)
    requires WellFormed(cx.types) && ty < |cx.types|
    ensures Items(cx.types[ty], []) == Some([]) && Readable(cx, ty, [], 0)
    ensures forall i: nat :: !Occurs([], i)
  {
  }

  lemma FirstJoins(cx: Context, ty: nat, d: Octets)
    requires WellFormed(cx.types) && ty < |cx.types| && d != [] && Items(cx.types[ty], d).Some?
    ensures var first, items := ReadRecord(cx.types[ty], d), Items(cx.types[ty], d).value;
            && !first.Bad? && Items(cx.types[ty], d[first.size..]).Some?
            && var rest := Items(cx.types[ty], d[first.size..]).value;
            && (Readable(cx, ty, items, |d|)
                <==> (first.Known? ==> PayloadReads(cx, ty, first.index, first.raw))
                     && Readable(cx, ty, rest, |d| - first.size))
            && forall i: nat :: Occurs(items, i) <==> (first.Known? && first.index == i) || Occurs(rest, i)
  {
    hide PayloadReads, Readable, Occurs, ReadPayload;
    var first := ReadRecord(cx.types[ty], d);
    var rest := Items(cx.types[ty], d[first.size..]).value;
    var item := Item(ReadHeader(d).value, first);
    ReadableStep(cx, ty, item, rest, |d|, |d| - first.size);
    forall i: nat ensures Occurs([item] + rest, i) <==> (first.Known? && first.index == i) || Occurs(rest, i) {
      OccursStep(item, rest, i);
    }
  }

  /** An input is accepted into whatever message exactly when the schema and its octets say so. */
  lemma {:induction false} AcceptedInput(cx: Context, ty: nat, d: Octets, m: Message)
    requires WellFormed(cx.types) && Typed(cx.types, ty, m)
    ensures ty < |cx.types|
    ensures Decode(cx, ty, d, m).Some? <==> Accepts(cx, ty, d)
    decreases |d|, 1
  {
    hide DecodeFrom, Readable, Occurs;
    FrameIff(cx, ty, d, Frame(m, {}));
  }

  /** An input without a record of a required field is refused, whatever the kind of the field; and one
      that can be read is accepted if it has a record of each. */
  lemma RequiredIff(cx: Context, ty: nat, d: Octets, m: Message)
    requires WellFormed(cx.types) && Typed(cx.types, ty, m)
    ensures ty < |cx.types|
    ensures Decode(cx, ty, d, m).Some?
            <==> DecodeFrom(cx, ty, d, Frame(m, {})).Some? && Items(cx.types[ty], d).Some?
                 && forall i :: 0 <= i < |cx.types[ty]| && cx.types[ty][i].rule.Required?
                                ==> Occurs(Items(cx.types[ty], d).value, i)
  {
    hide DecodeFrom, Readable, Occurs, Decode;
    FrameIff(cx, ty, d, Frame(m, {}));
    AcceptedInput(cx, ty, d, m);
  }
}
