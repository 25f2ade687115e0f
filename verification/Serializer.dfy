/**
 The serializer as the program runs it: it appends to one buffer, sets the buffer aside on a stack
 while the body of a nested message is written into a fresh one, and keeps the list of types for
 which an unset required message is being made up. Its output is that of the reference encoder.
 */
module Serializer {
  import opened Octets
  import opened Varint
  import opened Scalars
  import opened Schema
  import opened Records
  import opened Decoder
  import opened Encoder
  import opened Consequences
  import Inputs
  import Outputs
  import RoundTrip

  const MAX_MESSAGE_SIZE: nat := 0x7fff_ffff

  // ---------- scalars ----------

  method EncodeHeader(number: nat, wire: WireType) returns (d: Octets)
    requires number <= MAX_FIELD_NUMBER
    ensures d == WriteHeader(number, wire)
  {
    d := Varint.Serialize(8 * number + WireCode(wire));
  }

  method SerializeNumber(k: Kind, n: int) returns (d: Octets)
    requires InRange(k, n)
    ensures d == WriteNumber(k, n)
  {
    if KindWire(k) == Wire32 {
      return LittleEndian(ToWire(k, n), 4);
    } else if KindWire(k) == Wire64 {
      return LittleEndian(ToWire(k, n), 8);
    }
    d := Varint.Serialize(ToWire(k, n));
  }

  method PrependLengthDelimitedSize(data: Octets) returns (d: Octets)
    ensures d == WriteShape(AsChunk, Blob(data))
  {
    var size := Varint.Serialize(|data|);
    d := size + data;
  }

  /** The packed form: the numbers one after another, then their total size in front. An empty list
      has no size either. */
  method SerializeListType(k: Kind, ns: seq<int>) returns (list: Octets)
    requires AllInRange(k, ns)
    ensures list == if ns == [] then [] else WriteShape(AsChunk, Blob(WritePacked(k, ns)))
  {
    hide WriteNumber, WriteShape;
    list := [];
    if ns == [] {
      return;
    }
    for i := 0 to |ns|
      invariant WritePacked(k, ns) == list + WritePacked(k, ns[i..])
    {
      assert ns[i..][1..] == ns[i + 1..];
      var d := SerializeNumber(k, ns[i]);
      assert list + (d + WritePacked(k, ns[i + 1..])) == list + d + WritePacked(k, ns[i + 1..]);
      list := list + d;
    }
    assert WritePacked(k, ns) == list;
    list := PrependLengthDelimitedSize(list);
  }

  method SerializeNonPackedList(f: Field, ns: seq<int>, header: Octets) returns (list: Octets)
    requires AllInRange(f.kind, ns) && header == WriteHeader(f.number, KindWire(f.kind))
    ensures list == EncodeUnpacked(f, ns)
  {
    hide WriteNumber, WriteHeader;
    list := [];
    for i := 0 to |ns|
      invariant EncodeUnpacked(f, ns) == list + EncodeUnpacked(f, ns[i..])
    {
      var rest := EncodeUnpacked(f, ns[i + 1..]);
      assert ns[i..][1..] == ns[i + 1..];
      var d := SerializeNumber(f.kind, ns[i]);
      assert list + (header + d + rest) == list + header + d + rest;
      list := list + header + d;
    }
  }

  method SerializeNonPackedTexts(f: Field, ds: seq<Octets>, header: Octets) returns (list: Octets)
    requires header == WriteHeader(f.number, WireChunk)
    ensures list == EncodeTexts(f, ds)
  {
    hide WriteHeader, WriteShape;
    list := [];
    for i := 0 to |ds|
      invariant EncodeTexts(f, ds) == list + EncodeTexts(f, ds[i..])
    {
      var rest := EncodeTexts(f, ds[i + 1..]);
      assert ds[i..][1..] == ds[i + 1..];
      var d := PrependLengthDelimitedSize(ds[i]);
      assert list + (header + d + rest) == list + header + d + rest;
      list := list + header + d;
    }
  }

  class Serializer {
    const cx: Context
    var result: Octets
    var state: seq<Octets>
    var defaultMessageTypes: seq<nat>

    constructor (cx: Context)
      ensures this.cx == cx && result == [] && state == [] && defaultMessageTypes == []
    {
      this.cx := cx;
      result, state, defaultMessageTypes := [], [], [];
    }

    function Guard(): set<nat>
      reads this`defaultMessageTypes
    {
      set ty | ty in defaultMessageTypes
    }

    method SerializeUnknownFields(m: Message)
      modifies this`result
      ensures result == old(result) + EncodeUnknown(cx, m)
    {
      if cx.keepUnknown {
        ghost var start := result;
        for i := 0 to |m.unknown|
          invariant start + JoinGroups(m.unknown) == result + JoinGroups(m.unknown[i..])
        {
          var rest := JoinGroups(m.unknown[i + 1..]);
          assert m.unknown[i..][1..] == m.unknown[i + 1..];
          assert result + (Join(m.unknown[i].records) + rest) == result + Join(m.unknown[i].records) + rest;
          result := result + Join(m.unknown[i].records);
        }
      }
    }

    // ---------- scalar fields ----------

    method SerializeNumbers(f: Field, ns: seq<int>)
      requires f.rule.Repeated? && f.kind.IsNumeric() && AllInRange(f.kind, ns) && f.number <= MAX_FIELD_NUMBER
      modifies this`result
      ensures result == old(result) + EncodeScalar(f, Nums(ns))
    {
      hide WriteHeader, WriteShape, WritePacked, EncodeUnpacked;
      if ns == [] {
        return;
      }
      var list;
      if f.rule.packed {
        var header := EncodeHeader(f.number, WireChunk);
        list := SerializeListType(f.kind, ns);
        list := header + list;
      } else {
        var header := EncodeHeader(f.number, KindWire(f.kind));
        list := SerializeNonPackedList(f, ns, header);
      }
      result := result + list;
    }

    /** serializeEnum and serializeScalarField, which differ in how they find the codec. */
    method SerializeScalar(f: Field, v: Value)
      requires WellFormedField(cx.types, f) && TypedValue(cx.types, f, v)
      requires !v.Sub? && !v.Subs?
      modifies this`result
      ensures result == old(result) + EncodeScalar(f, v)
    {
      hide WriteHeader, WriteShape, WritePacked, EncodeUnpacked, WriteNumber;
      match v {
        case Num(n) =>
          if LooksDefault(f.kind, n) && !f.WritesDefault() {
            return;
          }
          var header := EncodeHeader(f.number, KindWire(f.kind));
          var d := SerializeNumber(f.kind, n);
          result := result + (header + d);
        case Text(d) =>
          if d == [] && !f.WritesDefault() {
            return;
          }
          var header := EncodeHeader(f.number, WireChunk);
          var text := PrependLengthDelimitedSize(d);
          result := result + (header + text);
        case Nums(ns) =>
          SerializeNumbers(f, ns);
        case Texts(ds) =>
          if ds == [] {
            return;
          }
          var header := EncodeHeader(f.number, WireChunk);
          var list := SerializeNonPackedTexts(f, ds, header);
          result := result + list;
        case Absent =>
      }
    }

    // ---------- messages ----------

    method SerializeMessageFieldBegin()
      modifies this`result, this`state
      ensures state == old(state) + [old(result)] && result == []
    {
      state := state + [result];
      result := [];
    }

    /** The finished body moves behind what was set aside, its size cut to 32 bits in between. */
    method SerializeMessageFieldEnd(f: Field, m: Message)
      requires state != [] && f.number <= MAX_FIELD_NUMBER
      modifies this`result, this`state
      ensures state == old(state[..|state| - 1])
      ensures result == old(state[|state| - 1])
                        + WriteBody(f.number, old(result) + EncodeUnknown(cx, m), true)
    {
      hide WriteHeader, EncodeUnknown, Write;
      SerializeUnknownFields(m);
      var last := state[|state| - 1];
      state := state[..|state| - 1];
      var header := EncodeHeader(f.number, WireChunk);
      var size := Varint.Serialize(|result| % TWO_TO_32);
      assert last + header + size + result == last + (header + size + result);
      result := last + header + size + result;
    }

    method SerializeMessageField(f: Field, m: Message)
      requires WellFormed(cx.types) && WellFormedField(cx.types, f) && f.kind.MessageOf?
      requires Typed(cx.types, f.kind.ty, m)
      modifies this
      ensures result == old(result) + WriteBody(f.number, Encode(cx, f.kind.ty, m, Guard(), true), true)
      ensures state == old(state) && defaultMessageTypes == old(defaultMessageTypes)
      decreases Unguarded(cx, Guard()), m, 3
    {
      hide WriteBody, EncodeFields, EncodeUnknown;
      SerializeMessageFieldBegin();
      SerializeMessage(f.kind.ty, m);
      SerializeMessageFieldEnd(f, m);
      assert [] + EncodeFields(cx, f.kind.ty, m, Guard(), true, 0) == EncodeFields(cx, f.kind.ty, m, Guard(), true, 0);
    }

    /** serializeDefaultMessageField: an unset required message is made up, unless that is already
        being done for its type further out. */
    method SerializeDefaultMessageField(f: Field)
      requires WellFormed(cx.types) && WellFormedField(cx.types, f) && f.kind.MessageOf? && f.rule.Required?
      requires TypedValue(cx.types, f, Absent)
      modifies this
      ensures result == old(result) + EncodeField(cx, f, Absent, Guard(), true)
      ensures state == old(state) && defaultMessageTypes == old(defaultMessageTypes)
      decreases Unguarded(cx, Guard()), Absent, 1
    {
      hide WriteBody, Encode;
      var ty := f.kind.ty;
      if ty in defaultMessageTypes {
        return;
      }
      DefaultTyped(cx.types, ty);
      ghost var guard := Guard();
      defaultMessageTypes := defaultMessageTypes + [ty];
      assert Guard() == guard + {ty};
      assert ty in Unguarded(cx, guard) && ty !in Unguarded(cx, Guard());
      SerializeMessageField(f, Default(cx.types[ty]));
      defaultMessageTypes := defaultMessageTypes[..|defaultMessageTypes| - 1];
      assert Guard() == guard;
    }

    method SerializeMessages(f: Field, ms: seq<Message>)
      requires WellFormed(cx.types) && WellFormedField(cx.types, f) && f.kind.MessageOf?
      requires forall k :: 0 <= k < |ms| ==> Typed(cx.types, f.kind.ty, ms[k])
      modifies this
      ensures result == old(result) + EncodeSubs(cx, f, ms, Guard(), true)
      ensures state == old(state) && defaultMessageTypes == old(defaultMessageTypes)
      decreases Unguarded(cx, Guard()), ms, 0
    {
      hide WriteBody, Encode, Typed, Unguarded;
      for i := 0 to |ms|
        invariant state == old(state) && defaultMessageTypes == old(defaultMessageTypes)
        invariant old(result) + EncodeSubs(cx, f, ms, Guard(), true)
                  == result + EncodeSubs(cx, f, ms[i..], Guard(), true)
      {
        ghost var guard := Guard();
        ghost var head, rest := WriteBody(f.number, Encode(cx, f.kind.ty, ms[i], guard, true), true),
                                EncodeSubs(cx, f, ms[i + 1..], guard, true);
        assert ms[i..][1..] == ms[i + 1..];
        assert result + (head + rest) == result + head + rest;
        SerializeMessageField(f, ms[i]);
      }
    }

    method SerializeField(f: Field, v: Value)
      requires WellFormed(cx.types) && WellFormedField(cx.types, f) && TypedValue(cx.types, f, v)
      modifies this
      ensures result == old(result) + EncodeField(cx, f, v, Guard(), true)
      ensures state == old(state) && defaultMessageTypes == old(defaultMessageTypes)
      decreases Unguarded(cx, Guard()), v, 2
    {
      hide WriteBody, Encode, EncodeSubs, EncodeScalar;
      match v {
        case Absent =>
          if f.kind.MessageOf? && f.rule.Required? {
            SerializeDefaultMessageField(f);
          }
        case Sub(m) => SerializeMessageField(f, m);
        case Subs(ms) => SerializeMessages(f, ms);
        case _ => SerializeScalar(f, v);
      }
    }

    method SerializeMessage(ty: nat, m: Message)
      requires WellFormed(cx.types) && Typed(cx.types, ty, m)
      modifies this
      ensures result == old(result) + EncodeFields(cx, ty, m, Guard(), true, 0)
      ensures state == old(state) && defaultMessageTypes == old(defaultMessageTypes)
      decreases Unguarded(cx, Guard()), m, 1
    {
      hide EncodeField, Unguarded;
      assert WellFormedType(cx.types, cx.types[ty]);
      for i := 0 to |m.values|
        invariant state == old(state) && defaultMessageTypes == old(defaultMessageTypes)
        invariant old(result) + EncodeFields(cx, ty, m, Guard(), true, 0)
                  == result + EncodeFields(cx, ty, m, Guard(), true, i)
      {
        var f, v := cx.types[ty][i], m.values[i];
        ghost var guard := Guard();
        ghost var head, rest := EncodeField(cx, f, v, guard, true), EncodeFields(cx, ty, m, guard, true, i + 1);
        assert result + (head + rest) == result + head + rest;
        SerializeField(f, v);
      }
    }
  }

  /** QProtobufSerializer::serializeMessage: `None` is the MessageTooLarge error. Nothing that is
      returned has been touched by the 32-bit cut of a nested size, and the records in it are those that
      the message asks for. */
  method Serialize(cx: Context, ty: nat, m: Message) returns (r: Option<Octets>)
    requires WellFormed(cx.types) && Typed(cx.types, ty, m)
    ensures r == None <==> |Encode(cx, ty, m, {}, true)| > MAX_MESSAGE_SIZE
    ensures r.Some? ==> r.value == Encode(cx, ty, m, {}, true) == Encode(cx, ty, m, {}, false)
    ensures r.Some? && RoundTrip.Clean(cx, ty, m) ==>
              Inputs.Items(cx.types[ty], r.value).Some?
              && Outputs.Lays(cx, ty, m, {}, Inputs.Items(cx.types[ty], r.value).value)
  {
    hide EncodeFields, EncodeUnknown, Outputs.Lays, RoundTrip.Clean, Inputs.Items;
    var s := new Serializer(cx);
    s.SerializeMessage(ty, m);
    s.SerializeUnknownFields(m);
    assert s.Guard() == {};
    assert [] + EncodeFields(cx, ty, m, {}, true, 0) == EncodeFields(cx, ty, m, {}, true, 0);
    if |s.result| > MAX_MESSAGE_SIZE {
      return None;
    }
    CutIsIdle(cx, ty, m, {});
    if RoundTrip.Clean(cx, ty, m) {
      Outputs.OutputItems(cx, ty, m, {});
    }
    return Some(s.result);
  }
}
