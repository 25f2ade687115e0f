/**
 The one way in which a decoded message does not settle: a map entry whose value never came, when
 the type of the value needs a sub-message. The entry holds a default value, and the encoder makes
 up what that value needs.
 */
module MapValues {
  import opened Octets
  import opened Varint
  import opened Scalars
  import opened Schema
  import opened Records
  import opened Decoder
  import opened Encoder
  import opened RoundTrip
  import opened ReadBack
  import opened Consequences
  import opened Cleanliness

  const VALUE: MessageType := [Field(1, MessageOf(3), Required)]
  const ENTRY: MessageType := [Field(1, Int32, Entry), Field(2, MessageOf(2), Entry)]
  const HOLDER: MessageType := [Field(1, MessageOf(1), Map)]

  /** A map from numbers to messages with a required sub-message. */
  const SCHEMA: Types := [HOLDER, ENTRY, VALUE, []]

  const CX: Context := Context(SCHEMA, true)

  /** An entry with a key and no value. */
  const INPUT: Octets := [0x0a, 2, 8, 1]

  lemma SchemaFits()
    ensures WellFormed(SCHEMA)
    ensures forall ty :: 0 <= ty < 4 ==> Typed(SCHEMA, ty, Default(SCHEMA[ty]))
  {
    assert WellFormedType(SCHEMA, HOLDER) && WellFormedType(SCHEMA, ENTRY);
    assert WellFormedType(SCHEMA, VALUE) && WellFormedType(SCHEMA, []);
    forall ty | 0 <= ty < 4 ensures Typed(SCHEMA, ty, Default(SCHEMA[ty])) {
      DefaultTyped(SCHEMA, ty);
    }
  }

  const KEYED: Message := Message([Num(1), Absent], [])
  const COMPLETED: Message := Message([Num(1), Sub(Message([Absent], []))], [])
  const DECODED: Message := Message([Subs([COMPLETED])], [])

  lemma Written()
    ensures WriteHeader(1, WireVarint) + WriteNumber(Int32, 1) == [8, 1]
    ensures WriteBody(1, [8, 1], true) == INPUT
  {
    assert Write(8) == [8] && Write(1) == [1] && Write(10) == [10] && Write(2) == [2];
  }

  lemma EntryDecoded()
    ensures WellFormed(SCHEMA) && Typed(SCHEMA, 1, Default(ENTRY))
    ensures Decode(CX, 1, [8, 1], Default(ENTRY)) == Some(KEYED)
  {
    SchemaFits();
    Written();
    var fr := Frame(Default(ENTRY), {});
    assert Default(ENTRY).values == [Num(0), Absent];
    NumberRecord(CX, 1, fr, 0, 1, []);
    assert [8, 1] + [] == [8, 1];
    assert Assigned(CX, 1, fr, 0, Num(1)).m.values == [Num(1), Absent];
  }

  lemma InputDecoded()
    ensures WellFormed(SCHEMA) && Typed(SCHEMA, 0, Default(HOLDER))
    ensures Decode(CX, 0, INPUT, Default(HOLDER)) == Some(DECODED)
  {
    hide Decode;
    SchemaFits();
    Written();
    EntryDecoded();
    var fr := Frame(Default(HOLDER), {});
    assert Default(HOLDER).values == [Subs([])];
    assert Typed(SCHEMA, 1, KEYED);
    ElementReadBack(CX, 0, fr, 0, [], [8, 1], [], Some(KEYED));
    assert INPUT + [] == INPUT;
    assert Default(VALUE).values == [Absent];
    assert Complete(SCHEMA, 1, KEYED) == COMPLETED;
    assert Added(SCHEMA, HOLDER[0], [], KEYED) == [COMPLETED];
    assert Assigned(CX, 0, fr, 0, Subs([COMPLETED])).m.values == [Subs([COMPLETED])];
    Ended(Assigned(CX, 0, fr, 0, Subs([COMPLETED])));
  }

  lemma Ended(fr: Frame)
    requires WellFormed(SCHEMA) && Typed(SCHEMA, 0, fr.m) && Typed(SCHEMA, 0, Default(HOLDER))
    requires DecodeFrom(CX, 0, INPUT, Frame(Default(HOLDER), {})) == DecodeFrom(CX, 0, [], fr)
    ensures Decode(CX, 0, INPUT, Default(HOLDER)) == Some(fr.m)
  {
    assert DecodeFrom(CX, 0, [], fr) == Some(fr);
    hide DecodeFrom;
  }

  lemma BodySize(number: nat, body: Octets)
    requires 1 <= number <= MAX_FIELD_NUMBER
    ensures |WriteBody(number, body, true)| <= |body| + 2 * MAX_SIZE
  {
    WriteSize64(8 * number + 2);
    WriteSize64(|body| % TWO_TO_32);
  }

  /** A message with one field, without unknown records, is the octets of the field. */
  lemma OneField(ty: nat, m: Message, guard: set<nat>)
    requires WellFormed(SCHEMA) && Typed(SCHEMA, ty, m) && |m.values| == 1 && m.unknown == []
    ensures ty < 4 && WellFormedField(SCHEMA, SCHEMA[ty][0])
    ensures |Encode(CX, ty, m, guard, true)| == |EncodeField(CX, SCHEMA[ty][0], m.values[0], guard, true)|
  {
    hide EncodeField;
    assert WellFormedType(SCHEMA, SCHEMA[ty]) && WellFormedField(SCHEMA, SCHEMA[ty][0]);
    assert EncodeFields(CX, ty, m, guard, true, 1) == [];
  }

  lemma ValueSize()
    ensures WellFormed(SCHEMA) && Typed(SCHEMA, 2, Message([Absent], []))
    ensures |Encode(CX, 2, Message([Absent], []), {}, true)| <= 2 * MAX_SIZE
  {
    SchemaFits();
    var v := Message([Absent], []);
    assert Typed(SCHEMA, 2, v);
    OneField(2, v, {});
    assert Encode(CX, 3, Default([]), {} + {3}, true) == [];
    BodySize(1, []);
  }

  lemma KeySize()
    ensures |EncodeScalar(ENTRY[0], Num(1))| <= 2 * MAX_SIZE
  {
    Written();
  }

  lemma EntrySize()
    ensures WellFormed(SCHEMA) && Typed(SCHEMA, 1, COMPLETED)
    ensures |Encode(CX, 1, COMPLETED, {}, true)| <= 6 * MAX_SIZE
  {
    SchemaFits();
    ValueSize();
    KeySize();
    assert Typed(SCHEMA, 1, COMPLETED);
    hide Encode, EncodeScalar;
    BodySize(2, Encode(CX, 2, Message([Absent], []), {}, true));
    EntryFields();
  }

  lemma EntryFields()
    requires WellFormed(SCHEMA) && Typed(SCHEMA, 1, COMPLETED) && Typed(SCHEMA, 2, Message([Absent], []))
    ensures |Encode(CX, 1, COMPLETED, {}, true)|
            == |EncodeScalar(ENTRY[0], Num(1))|
               + |WriteBody(2, Encode(CX, 2, Message([Absent], []), {}, true), true)|
  {
    hide EncodeScalar, WriteBody;
    assert WellFormedType(SCHEMA, ENTRY) && WellFormedField(SCHEMA, ENTRY[0]) && WellFormedField(SCHEMA, ENTRY[1]);
    var v := Sub(Message([Absent], []));
    assert EncodeField(CX, ENTRY[0], Num(1), {}, true) == EncodeScalar(ENTRY[0], Num(1));
    assert EncodeField(CX, ENTRY[1], v, {}, true)
           == WriteBody(2, Encode(CX, 2, Message([Absent], []), {}, true), true);
    hide EncodeField;
    assert COMPLETED.values[0] == Num(1) && COMPLETED.values[1] == v;
    assert EncodeFields(CX, 1, COMPLETED, {}, true, 2) == [];
    assert EncodeFields(CX, 1, COMPLETED, {}, true, 1) == EncodeField(CX, ENTRY[1], v, {}, true) + [];
  }

  lemma MessageSize()
    ensures WellFormed(SCHEMA) && Typed(SCHEMA, 0, DECODED)
    ensures |Encode(CX, 0, DECODED, {}, true)| <= 8 * MAX_SIZE
  {
    SchemaFits();
    EntrySize();
    assert Typed(SCHEMA, 0, DECODED);
    OneField(0, DECODED, {});
    BodySize(1, Encode(CX, 1, COMPLETED, {}, true));
    hide Encode;
    assert EncodeSubs(CX, HOLDER[0], [COMPLETED][1..], {}, true) == [];
  }

  /** The input is decoded, and the message encoded again is decoded to another one. */
  lemma EntryWithoutValue()
    ensures WellFormed(SCHEMA) && Typed(SCHEMA, 0, Default(HOLDER)) && Typed(SCHEMA, 0, DECODED)
    ensures Decode(CX, 0, INPUT, Default(HOLDER)) == Some(DECODED)
    ensures Decode(CX, 0, Encode(CX, 0, DECODED, {}, true), Default(HOLDER)) != Some(DECODED)
  {
    hide Encode, Decode;
    SchemaFits();
    InputDecoded();
    MessageSize();
    ReadBack.DefaultClean(CX, 0);
    DecodedClean(CX, 0, INPUT, Default(HOLDER));
    Unsettled();
    DecodeEncode(CX, 0, DECODED);
  }

  lemma Unsettled()
    requires WellFormed(SCHEMA) && Typed(SCHEMA, 0, DECODED)
    ensures !Settled(CX, 0, DECODED)
  {
    var v := Message([Absent], []);
    assert !SettledValue(CX, VALUE[0], v.values[0]);
    assert !Settled(CX, 2, v);
    assert !SettledValue(CX, ENTRY[1], COMPLETED.values[1]);
    assert !Settled(CX, 1, COMPLETED);
    assert DECODED.values[0] == Subs([COMPLETED]) && [COMPLETED][0] == COMPLETED;
    hide Settled;
    assert !SettledValue(CX, HOLDER[0], DECODED.values[0]);
    NotAllSettled();
  }

  lemma NotAllSettled()
    requires WellFormed(SCHEMA) && Typed(SCHEMA, 0, DECODED) && !SettledValue(CX, HOLDER[0], DECODED.values[0])
    ensures !Settled(CX, 0, DECODED)
  {
    hide SettledValue;
  }
}
