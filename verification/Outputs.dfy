/**
 What the encoder writes, as the list of records that a reader finds: how often each field occurs,
 with which header, and in which order. Readers accept more than one form of a list and a value that
 was left out, so none of this follows from reading the octets back.
 */
module Outputs {
  import opened Octets
  import opened Varint
  import opened Scalars
  import opened Schema
  import opened Records
  import opened Decoder
  import opened Encoder
  import opened RoundTrip
  import opened Inputs

  // ---------- what is promised ----------

  /** A packed list is one chunk; everything else has the wire type of its kind. */
  function PrintedWire(f: Field): WireType {
    if f.rule == Repeated(true) && f.kind.IsNumeric() then WireChunk else KindWire(f.kind)
  }

  /** How many records a value takes: a zero without presence none, a packed list one. */
  function PrintedTimes(f: Field, v: Value, guard: set<nat>): nat {
    match v
    case Absent => if f.kind.MessageOf? && f.rule.Required? && f.kind.ty !in guard then 1 else 0
    case Num(n) =>
      if f.rule.Implicit? && (n == 0 || (f.kind == Float && n == TWO_TO_31) || (f.kind == Double && n == TWO_TO_63))
      then 0 else 1
    case Text(d) => if f.rule.Implicit? && d == [] then 0 else 1
    case Sub(_) => 1
    case Nums(ns) => if f.rule == Repeated(true) && ns != [] then 1 else |ns|
    case Texts(ds) => |ds|
    case Subs(ms) => |ms|
  }

  predicate PrintedAs(t: MessageType, x: Item) {
    && x.record.Known? && x.record.index < |t|
    && x.header == Header(t[x.record.index].number, PrintedWire(t[x.record.index]))
  }

  function NumberOf(items: seq<Item>, i: nat): nat {
    if items == [] then 0 else (if IsOf(items[0], i) then 1 else 0) + NumberOf(items[1..], i)
  }

  /** The records of fields in the order of the fields. */
  predicate Sorted(items: seq<Item>) {
    forall j, k :: 0 <= j < k < |items| && items[j].record.Known? && items[k].record.Known?
      ==> items[j].record.index <= items[k].record.index
  }

  // ---------- one record ----------

  lemma RecordItem(t: MessageType, i: nat, wire: WireType, shape: Shape, raw: Raw, rest: Octets)
    requires DistinctNumbers(t) && i < |t| && LegalNumber(t[i].number)
    requires Expected(t[i], wire) == Some(shape) && RawFits(shape, raw)
    requires raw.Blob? ==> |raw.d| < TWO_TO_64
    requires Items(t, rest).Some?
    ensures var header, payload := WriteHeader(t[i].number, wire), WriteShape(shape, raw);
            Items(t, header + payload + rest)
            == Some([Item(Header(t[i].number, wire), Known(i, raw, |header| + |payload|))] + Items(t, rest).value)
  {
    hide WriteHeader, ReadHeader, WriteShape, Expected, ReadRecord;
    WrittenRecord(t, i, wire, shape, raw, rest);
    ItemsStep(t, WriteHeader(t[i].number, wire) + WriteShape(shape, raw) + rest);
  }

  /** The records of one field, in front of the others. */
  predicate OfField(t: MessageType, i: nat, own: seq<Item>) {
    i < |t| && forall k :: 0 <= k < |own| ==> IsOf(own[k], i) && PrintedAs(t, own[k])
  }

  lemma NumberItem(t: MessageType, i: nat, n: int, rest: Octets) returns (own: seq<Item>)
    requires DistinctNumbers(t) && i < |t| && LegalNumber(t[i].number)
    requires InRange(t[i].kind, n) && t[i].rule != Repeated(true) && Items(t, rest).Some?
    ensures Items(t, WriteHeader(t[i].number, KindWire(t[i].kind)) + WriteNumber(t[i].kind, n) + rest)
            == Some(own + Items(t, rest).value)
    ensures |own| == 1 && OfField(t, i, own)
  {
    hide WriteHeader, WriteShape, Items, ToWire;
    var f := t[i];
    WireRoundTrip(f.kind, n);
    var raw := Number(ToWire(f.kind, n));
    RecordItem(t, i, KindWire(f.kind), ShapeOf(f.kind), raw, rest);
    own := [Item(Header(f.number, KindWire(f.kind)),
                 Known(i, raw, |WriteHeader(f.number, KindWire(f.kind))| + |WriteShape(ShapeOf(f.kind), raw)|))];
  }

  lemma ChunkItem(t: MessageType, i: nat, d: Octets, rest: Octets) returns (own: seq<Item>)
    requires DistinctNumbers(t) && i < |t| && LegalNumber(t[i].number)
    requires Expected(t[i], WireChunk) == Some(AsChunk) && PrintedWire(t[i]) == WireChunk
    requires |d| < TWO_TO_32 && Items(t, rest).Some?
    ensures Items(t, WriteText(t[i].number, d) + rest) == Some(own + Items(t, rest).value)
    ensures |own| == 1 && OfField(t, i, own)
  {
    hide WriteHeader, WriteShape, Items;
    RecordItem(t, i, WireChunk, AsChunk, Blob(d), rest);
    own := [Item(Header(t[i].number, WireChunk),
                 Known(i, Blob(d), |WriteHeader(t[i].number, WireChunk)| + |WriteShape(AsChunk, Blob(d))|))];
  }

  lemma BodyItem(t: MessageType, i: nat, body: Octets, rest: Octets) returns (own: seq<Item>)
    requires DistinctNumbers(t) && i < |t| && LegalNumber(t[i].number) && t[i].kind.MessageOf?
    requires |body| < TWO_TO_32 && Items(t, rest).Some?
    ensures Items(t, WriteBody(t[i].number, body, true) + rest) == Some(own + Items(t, rest).value)
    ensures |own| == 1 && OfField(t, i, own)
  {
    hide Items, WriteHeader, Write;
    assert |body| % TWO_TO_32 == |body|;
    assert WriteBody(t[i].number, body, true) == WriteText(t[i].number, body);
    own := ChunkItem(t, i, body, rest);
  }

  // ---------- lists ----------

  lemma {:induction false} UnpackedItems(t: MessageType, i: nat, ns: seq<int>, rest: Octets)
    returns (own: seq<Item>)
    requires DistinctNumbers(t) && i < |t| && LegalNumber(t[i].number)
    requires AllInRange(t[i].kind, ns) && t[i].rule != Repeated(true) && Items(t, rest).Some?
    ensures Items(t, EncodeUnpacked(t[i], ns) + rest) == Some(own + Items(t, rest).value)
    ensures |own| == |ns| && OfField(t, i, own)
    decreases |ns|
  {
    hide WriteHeader, WriteNumber, Items, PrintedAs;
    if ns == [] {
      assert [] + rest == rest;
      own := [];
      assert own + Items(t, rest).value == Items(t, rest).value;
    } else {
      UnpackedSplit(t[i], ns, rest);
      var more := UnpackedItems(t, i, ns[1..], rest);
      var first := NumberItem(t, i, ns[0], EncodeUnpacked(t[i], ns[1..]) + rest);
      own := first + more;
      assert first + (more + Items(t, rest).value) == own + Items(t, rest).value;
    }
  }

  lemma {:induction false} TextItems(t: MessageType, i: nat, ds: seq<Octets>, rest: Octets)
    returns (own: seq<Item>)
    requires DistinctNumbers(t) && i < |t| && LegalNumber(t[i].number) && t[i].kind.Bytes?
    requires |EncodeTexts(t[i], ds)| < TWO_TO_32 && Items(t, rest).Some?
    ensures Items(t, EncodeTexts(t[i], ds) + rest) == Some(own + Items(t, rest).value)
    ensures |own| == |ds| && OfField(t, i, own)
    decreases |ds|
  {
    hide WriteText, Items, PrintedAs;
    if ds == [] {
      assert [] + rest == rest;
      own := [];
      assert own + Items(t, rest).value == Items(t, rest).value;
    } else {
      var head, tail := WriteText(t[i].number, ds[0]), EncodeTexts(t[i], ds[1..]);
      assert head + tail + rest == head + (tail + rest);
      var more := TextItems(t, i, ds[1..], rest);
      var first := ChunkItem(t, i, ds[0], tail + rest);
      own := first + more;
      assert first + (more + Items(t, rest).value) == own + Items(t, rest).value;
    }
  }

  lemma {:induction false} SubItems(cx: Context, ty: nat, i: nat, ms: seq<Message>, guard: set<nat>, rest: Octets)
    returns (own: seq<Item>)
    requires WellFormed(cx.types) && ty < |cx.types| && i < |cx.types[ty]| && cx.types[ty][i].kind.MessageOf?
    requires forall k :: 0 <= k < |ms| ==> Typed(cx.types, cx.types[ty][i].kind.ty, ms[k])
    requires |EncodeSubs(cx, cx.types[ty][i], ms, guard, true)| < TWO_TO_32 && Items(cx.types[ty], rest).Some?
    ensures Items(cx.types[ty], EncodeSubs(cx, cx.types[ty][i], ms, guard, true) + rest)
            == Some(own + Items(cx.types[ty], rest).value)
    ensures |own| == |ms| && OfField(cx.types[ty], i, own)
    decreases |ms|
  {
    hide WriteBody, Items, PrintedAs, Encode, Typed;
    var t, f := cx.types[ty], cx.types[ty][i];
    assert WellFormedType(cx.types, t) && WellFormedField(cx.types, f);
    if ms == [] {
      assert [] + rest == rest;
      own := [];
      assert own + Items(t, rest).value == Items(t, rest).value;
    } else {
      var body, tail := Encode(cx, f.kind.ty, ms[0], guard, true), EncodeSubs(cx, f, ms[1..], guard, true);
      assert WriteBody(f.number, body, true) + tail + rest == WriteBody(f.number, body, true) + (tail + rest);
      var more := SubItems(cx, ty, i, ms[1..], guard, rest);
      var first := BodyItem(t, i, body, tail + rest);
      own := first + more;
      assert first + (more + Items(t, rest).value) == own + Items(t, rest).value;
    }
  }

  // ---------- one field ----------

  lemma ScalarItems(cx: Context, ty: nat, i: nat, v: Value, guard: set<nat>, rest: Octets) returns (own: seq<Item>)
    requires WellFormed(cx.types) && ty < |cx.types| && i < |cx.types[ty]|
    requires TypedValue(cx.types, cx.types[ty][i], v) && (v.Num? || v.Text? || v.Nums? || v.Texts?)
    requires |EncodeScalar(cx.types[ty][i], v)| < TWO_TO_32 && Items(cx.types[ty], rest).Some?
    ensures Items(cx.types[ty], EncodeScalar(cx.types[ty][i], v) + rest) == Some(own + Items(cx.types[ty], rest).value)
    ensures |own| == PrintedTimes(cx.types[ty][i], v, guard) && OfField(cx.types[ty], i, own)
  {
    hide Items, PrintedAs, WriteHeader, WriteNumber, WritePacked, EncodeUnpacked;
    var t, f := cx.types[ty], cx.types[ty][i];
    assert WellFormedType(cx.types, t) && WellFormedField(cx.types, f);
    if PrintedTimes(f, v, guard) == 0 {
      assert EncodeScalar(f, v) == [];
      assert [] + rest == rest;
      own := [];
      assert own + Items(t, rest).value == Items(t, rest).value;
    } else {
      match v
      case Num(n) => own := NumberItem(t, i, n, rest);
      case Text(d) => own := ChunkItem(t, i, d, rest);
      case Nums(ns) =>
        if f.rule.packed {
          own := ChunkItem(t, i, WritePacked(f.kind, ns), rest);
        } else {
          own := UnpackedItems(t, i, ns, rest);
        }
      case Texts(ds) => own := TextItems(t, i, ds, rest);
    }
  }

  lemma FieldItems(cx: Context, ty: nat, i: nat, v: Value, guard: set<nat>, rest: Octets) returns (own: seq<Item>)
    requires WellFormed(cx.types) && ty < |cx.types| && i < |cx.types[ty]|
    requires TypedValue(cx.types, cx.types[ty][i], v) && WellFormedField(cx.types, cx.types[ty][i])
    requires |EncodeField(cx, cx.types[ty][i], v, guard, true)| < TWO_TO_32 && Items(cx.types[ty], rest).Some?
    ensures Items(cx.types[ty], EncodeField(cx, cx.types[ty][i], v, guard, true) + rest)
            == Some(own + Items(cx.types[ty], rest).value)
    ensures |own| == PrintedTimes(cx.types[ty][i], v, guard) && OfField(cx.types[ty], i, own)
  {
    hide Items, PrintedAs, Encode, EncodeSubs, EncodeScalar, WriteBody;
    var t, f := cx.types[ty], cx.types[ty][i];
    assert WellFormedType(cx.types, t);
    match v
    case Absent =>
      if f.kind.MessageOf? && f.rule.Required? && f.kind.ty !in guard {
        DefaultTyped(cx.types, f.kind.ty);
        own := BodyItem(t, i, Encode(cx, f.kind.ty, Default(cx.types[f.kind.ty]), guard + {f.kind.ty}, true), rest);
      } else {
        assert [] + rest == rest;
        own := [];
        assert own + Items(t, rest).value == Items(t, rest).value;
      }
    case Sub(m) => own := BodyItem(t, i, Encode(cx, f.kind.ty, m, guard, true), rest);
    case Subs(ms) => own := SubItems(cx, ty, i, ms, guard, rest);
    case _ => own := ScalarItems(cx, ty, i, v, guard, rest);
  }

  // ---------- whole messages ----------

  lemma {:induction false} NumberOfSum(a: seq<Item>, b: seq<Item>, i: nat)
    ensures NumberOf(a + b, i) == NumberOf(a, i) + NumberOf(b, i)
    decreases |a|
  {
    if a == [] {
      assert a + b == b;
    } else {
      assert (a + b)[1..] == a[1..] + b;
      NumberOfSum(a[1..], b, i);
    }
  }

  lemma {:induction false} NumberOfOwn(t: MessageType, i: nat, own: seq<Item>, j: nat)
    requires OfField(t, i, own)
    ensures NumberOf(own, j) == if j == i then |own| else 0
    decreases |own|
  {
    hide PrintedAs;
    if own != [] {
      assert IsOf(own[0], i);
      NumberOfOwn(t, i, own[1..], j);
    }
  }

  lemma {:induction false} NoneOf(items: seq<Item>, i: nat)
    requires forall k :: 0 <= k < |items| ==> !IsOf(items[k], i)
    ensures NumberOf(items, i) == 0
    decreases |items|
  {
    if items != [] {
      NoneOf(items[1..], i);
    }
  }

  /** The records of the fields from index `i` on. */
  predicate OfFields(cx: Context, ty: nat, m: Message, guard: set<nat>, i: nat, own: seq<Item>)
    requires Typed(cx.types, ty, m)
  {
    && (forall k :: 0 <= k < |own| ==> PrintedAs(cx.types[ty], own[k]) && i <= own[k].record.index)
    && Sorted(own)
    && forall j :: i <= j < |m.values| ==> NumberOf(own, j) == PrintedTimes(cx.types[ty][j], m.values[j], guard)
  }

  lemma OneMoreField(cx: Context, ty: nat, m: Message, guard: set<nat>, i: nat, own: seq<Item>, more: seq<Item>)
    requires Typed(cx.types, ty, m) && i < |m.values|
    requires |own| == PrintedTimes(cx.types[ty][i], m.values[i], guard) && OfField(cx.types[ty], i, own)
    requires OfFields(cx, ty, m, guard, i + 1, more)
    ensures OfFields(cx, ty, m, guard, i, own + more)
  {
    hide PrintedTimes;
    var t := cx.types[ty];
    NoneOf(more, i);
    forall j | i <= j < |m.values| ensures NumberOf(own + more, j) == PrintedTimes(t[j], m.values[j], guard) {
      NumberOfSum(own, more, j);
      NumberOfOwn(t, i, own, j);
    }
  }

  lemma {:induction false} FieldsItems(cx: Context, ty: nat, m: Message, guard: set<nat>, i: nat, rest: Octets)
    returns (own: seq<Item>)
    requires WellFormed(cx.types) && Typed(cx.types, ty, m) && i <= |m.values|
    requires |EncodeFields(cx, ty, m, guard, true, i)| < TWO_TO_32 && Items(cx.types[ty], rest).Some?
    ensures Items(cx.types[ty], EncodeFields(cx, ty, m, guard, true, i) + rest)
            == Some(own + Items(cx.types[ty], rest).value)
    ensures OfFields(cx, ty, m, guard, i, own)
    decreases |m.values| - i
  {
    hide Items, EncodeField, OfField, PrintedTimes;
    var t := cx.types[ty];
    if i == |m.values| {
      assert [] + rest == rest;
      own := [];
      assert own + Items(t, rest).value == Items(t, rest).value;
    } else {
      assert WellFormedType(cx.types, t) && WellFormedField(cx.types, t[i]);
      var head, tail := EncodeField(cx, t[i], m.values[i], guard, true), EncodeFields(cx, ty, m, guard, true, i + 1);
      assert head + tail + rest == head + (tail + rest);
      var more := FieldsItems(cx, ty, m, guard, i + 1, rest);
      var first := FieldItems(cx, ty, i, m.values[i], guard, tail + rest);
      OneMoreField(cx, ty, m, guard, i, first, more);
      own := first + more;
      assert first + (more + Items(t, rest).value) == own + Items(t, rest).value;
    }
  }

  // ---------- unknown records ----------

  predicate AllUnknown(items: seq<Item>) {
    forall k :: 0 <= k < |items| ==> items[k].record.Unknown?
  }

  lemma UnknownItem(t: MessageType, number: nat, r: Octets, rest: Octets)
    requires UnknownRecord(t, number, r) && Items(t, rest).Some? && AllUnknown(Items(t, rest).value)
    ensures Items(t, r + rest).Some? && AllUnknown(Items(t, r + rest).value)
  {
    hide ReadHeader, ReadPayload;
    RecordAppend(t, r, rest);
    assert (r + rest)[|r|..] == rest;
    ItemsStep(t, r + rest);
  }

  lemma {:induction false} JoinedItems(t: MessageType, number: nat, records: seq<Octets>, rest: Octets)
    requires forall k :: 0 <= k < |records| ==> UnknownRecord(t, number, records[k])
    requires Items(t, rest).Some? && AllUnknown(Items(t, rest).value)
    ensures Items(t, Join(records) + rest).Some? && AllUnknown(Items(t, Join(records) + rest).value)
    decreases |records|
  {
    hide Items, UnknownRecord, AllUnknown;
    if records == [] {
      assert [] + rest == rest;
    } else {
      JoinedItems(t, number, records[1..], rest);
      UnknownItem(t, number, records[0], Join(records[1..]) + rest);
      assert Join(records) + rest == records[0] + (Join(records[1..]) + rest);
    }
  }

  lemma {:induction false} GroupItems(t: MessageType, groups: seq<Group>)
    requires forall k :: 0 <= k < |groups| ==> CleanGroup(t, groups[k])
    ensures Items(t, JoinGroups(groups)).Some? && AllUnknown(Items(t, JoinGroups(groups)).value)
    decreases |groups|
  {
    hide UnknownRecord;
    if groups != [] {
      assert CleanGroup(t, groups[0]);
      GroupItems(t, groups[1..]);
      JoinedItems(t, groups[0].number, groups[0].records, JoinGroups(groups[1..]));
    }
  }

  // ---------- the promise ----------

  /** The records of the fields in the order of the fields, each as often and with the header that its
      schema asks for, and unknown records behind them if they are kept. */
  predicate Lays(cx: Context, ty: nat, m: Message, guard: set<nat>, items: seq<Item>)
    requires Typed(cx.types, ty, m)
  {
    && (forall i :: 0 <= i < |m.values| ==> NumberOf(items, i) == PrintedTimes(cx.types[ty][i], m.values[i], guard))
    && (forall k :: 0 <= k < |items| ==> PrintedAs(cx.types[ty], items[k]) || items[k].record.Unknown?)
    && Sorted(items)
    && (forall j, k :: 0 <= j < k < |items| && items[j].record.Unknown? ==> items[k].record.Unknown?)
    && (!cx.keepUnknown ==> forall k :: 0 <= k < |items| ==> items[k].record.Known?)
  }

  /** The output of a clean message is such a list of records, and nothing else. */
  lemma OutputItems(cx: Context, ty: nat, m: Message, guard: set<nat>)
    requires WellFormed(cx.types) && Typed(cx.types, ty, m) && Clean(cx, ty, m)
    requires |Encode(cx, ty, m, guard, true)| < TWO_TO_32
    ensures var items := Items(cx.types[ty], Encode(cx, ty, m, guard, true));
            items.Some? && Lays(cx, ty, m, guard, items.value)
  {
    hide Items, EncodeFields, PrintedTimes, CleanValue, OneofsExclusive, CleanGroup;
    var t, unknown := cx.types[ty], EncodeUnknown(cx, m);
    NoRecords(t);
    if cx.keepUnknown {
      GroupItems(t, m.unknown);
    }
    var tail := Items(t, unknown).value;
    var own := FieldsItems(cx, ty, m, guard, 0, unknown);
    forall i | 0 <= i < |t| ensures NumberOf(own + tail, i) == PrintedTimes(t[i], m.values[i], guard) {
      NoneOf(tail, i);
      NumberOfSum(own, tail, i);
    }
  }

  lemma PackedForm(t: MessageType, i: nat, d: Octets)
    requires DistinctNumbers(t) && i < |t| && LegalNumber(t[i].number) && Expected(t[i], WireChunk) == Some(AsChunk)
    requires |d| < TWO_TO_32
    ensures ReadHeader(WriteText(t[i].number, d)).Got?
    ensures ReadHeader(WriteText(t[i].number, d)).value == Header(t[i].number, WireChunk)
    ensures ReadRecord(t, WriteText(t[i].number, d)) == Known(i, Blob(d), |WriteText(t[i].number, d)|)
  {
    hide WriteHeader, ReadHeader, ReadRecord, WriteShape;
    WrittenRecord(t, i, WireChunk, AsChunk, Blob(d), []);
    assert WriteText(t[i].number, d) + [] == WriteText(t[i].number, d);
  }

  lemma UnpackedForm(t: MessageType, i: nat, ns: seq<int>)
    requires DistinctNumbers(t) && i < |t| && LegalNumber(t[i].number) && ns != []
    requires AllInRange(t[i].kind, ns) && t[i].rule != Repeated(true)
    ensures var items := Items(t, EncodeUnpacked(t[i], ns));
            && items.Some? && |items.value| == |ns|
            && forall k :: 0 <= k < |ns| ==> items.value[k].header == Header(t[i].number, PrintedWire(t[i]))
    ensures var header := ReadHeader(EncodeUnpacked(t[i], ns));
            header.Got? && header.value == Header(t[i].number, KindWire(t[i].kind))
  {
    hide WriteHeader, ReadHeader, WriteNumber, ReadRecord, KindWire, PrintedWire;
    NoRecords(t);
    var f, d := t[i], EncodeUnpacked(t[i], ns);
    var own := UnpackedItems(t, i, ns, []);
    assert d + [] == d && own + [] == own;
    forall k | 0 <= k < |ns| ensures own[k].header == Header(f.number, PrintedWire(f)) {
      assert PrintedAs(t, own[k]) && IsOf(own[k], i);
    }
    UnpackedSplit(f, ns, []);
    var header, payload, rest := WriteHeader(f.number, KindWire(f.kind)), WriteNumber(f.kind, ns[0]),
                                 EncodeUnpacked(f, ns[1..]) + [];
    assert d == header + (payload + rest);
    HeaderRoundTrip(f.number, KindWire(f.kind), payload + rest);
  }

  /** A list of numbers: one chunk of the packed elements, or one record for each element. */
  lemma ListForms(cx: Context, ty: nat, i: nat, ns: seq<int>)
    requires WellFormed(cx.types) && ty < |cx.types| && i < |cx.types[ty]| && ns != []
    requires TypedValue(cx.types, cx.types[ty][i], Nums(ns))
    requires |EncodeScalar(cx.types[ty][i], Nums(ns))| < TWO_TO_32
    ensures var t, f, d := cx.types[ty], cx.types[ty][i], EncodeScalar(cx.types[ty][i], Nums(ns));
            && ReadHeader(d).Got?
            && ReadHeader(d).value == Header(f.number, if f.rule.packed then WireChunk else KindWire(f.kind))
            && (f.rule.packed ==> ReadRecord(t, d) == Known(i, Blob(WritePacked(f.kind, ns)), |d|))
            && (!f.rule.packed ==>
                  Items(t, d).Some? && |Items(t, d).value| == |ns|
                  && forall k :: 0 <= k < |ns| ==>
                       Items(t, d).value[k].header == Header(f.number, KindWire(f.kind)))
  {
    hide WriteText, ReadHeader, WritePacked, EncodeUnpacked, ReadRecord, Items, KindWire;
    var t, f := cx.types[ty], cx.types[ty][i];
    assert WellFormedType(cx.types, t) && WellFormedField(cx.types, f);
    if f.rule.packed {
      ChunkExpected(f);
      PackedForm(t, i, WritePacked(f.kind, ns));
    } else {
      UnpackedForm(t, i, ns);
    }
  }

  lemma ChunkExpected(f: Field)
    requires f.rule.Repeated? && f.kind.IsNumeric()
    ensures Expected(f, WireChunk) == Some(AsChunk)
  {
  }

  lemma NoRecords(t: MessageType)
    ensures Items(t, []) == Some([])
  {
  }
}
