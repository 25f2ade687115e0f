/**
 A check of the input that forwarding asks for: where the newer schema knows a record that the older
 one does not, the wire type is the one its field expects.
 */
module WireCheck {
  import opened Octets
  import opened Varint
  import opened Scalars
  import opened Schema
  import opened Records
  import opened Decoder
  import opened Encoder
  import opened Stability
  import opened Evolution
  import Progress

  /** How a payload is delimited when only its wire type is known. */
  function WireShape(wire: WireType): Shape {
    match wire
    case WireVarint => AsVarint
    case Wire32 => As32
    case Wire64 => As64
    case WireChunk => AsChunk
  }

  /** The field expects what the wire type says. */
  predicate Agrees(f: Field, wire: WireType) {
    Expected(f, wire) == Some(WireShape(wire))
  }

  /** The record at the front of the octets, unknown to the older schema, has the wire type of its
      newer field, if there is one; a varint has ten octets at most. */
  predicate RecordAgrees(e: Context, ty: nat, d: Octets, number: nat, size: nat)
    requires ty < |e.types|
  {
    var j, h := IndexOf(e.types[ty], number, 0), ReadHeader(d);
    j.Some? && h.Got? ==>
      && Agrees(e.types[ty][j.value], h.value.wire)
      && (h.value.wire == WireVarint ==> size <= h.size + MAX_SIZE)
  }

  /** The same for all records, at any depth that the older schema can see. */
  predicate WireTypesAgree(c: Context, e: Context, ty: nat, d: Octets)
    requires Evolved(c, e) && ty < |c.types|
    decreases |d|
  {
    d == [] ||
    match ReadRecord(c.types[ty], d)
    case Bad => true
    case Unknown(number, size) => RecordAgrees(e, ty, d, number, size) && WireTypesAgree(c, e, ty, d[size..])
    case Known(i, raw, size) =>
      assert WellFormedType(c.types, c.types[ty]) && WellFormedField(c.types, c.types[ty][i]);
      (c.types[ty][i].kind.MessageOf? ==> WireTypesAgree(c, e, c.types[ty][i].kind.ty, raw.d))
      && WireTypesAgree(c, e, ty, d[size..])
  }

  // ---------- skipped is read ----------

  lemma {:induction false} SkippedVarint(d: Octets, limit: nat)
    requires SkipVarint(d).Some? && SkipVarint(d).value <= limit
    ensures Spell(d, limit).Got? && Spell(d, limit).size == SkipVarint(d).value
    decreases limit
  {
    if d[0] >= 128 {
      SkippedVarint(d[1..], limit - 1);
    }
  }

  /** A payload that is skipped by its wire type is read, as the shape of that wire type, to the same end. */
  lemma SkippedIsRead(wire: WireType, d: Octets)
    requires Skip(wire, d).Some? && (wire == WireVarint ==> Skip(wire, d).value <= MAX_SIZE)
    ensures ReadShape(WireShape(wire), d).Got? && ReadShape(WireShape(wire), d).size == Skip(wire, d).value
  {
    if wire == WireVarint {
      SkippedVarint(d, MAX_SIZE);
    }
  }

  lemma UnknownParts(t: MessageType, d: Octets)
    requires ReadRecord(t, d).Unknown?
    ensures var r, h := ReadRecord(t, d), ReadHeader(d);
            && h.Got? && h.value.number == r.number && h.size < r.size
            && Skip(h.value.wire, d[h.size..]) == Some(r.size - h.size)
  {
    hide Skip, ReadHeader;
  }

  /** A record whose wire type agrees is one occurrence of its newer field. */
  lemma AgreesOccurs(e: Context, ty: nat, t: MessageType, d: Octets, j: nat)
    requires ty < |e.types| && j < |e.types[ty]| && ReadRecord(t, d).Unknown?
    requires IndexOf(e.types[ty], ReadRecord(t, d).number, 0) == Some(j)
    requires RecordAgrees(e, ty, d, ReadRecord(t, d).number, ReadRecord(t, d).size)
    ensures Occurrence(e.types[ty], j, d[..ReadRecord(t, d).size])
  {
    hide Skip, ReadHeader, ReadShape, IndexOf, ReadRecord, Expected, ReadKnown;
    var size, h, f := ReadRecord(t, d).size, ReadHeader(d), e.types[ty][j];
    UnknownParts(t, d);
    var payload := d[h.size..];
    SkippedIsRead(h.value.wire, payload);
    KnownAsShaped(f, j, h.value.wire, h.size, payload);
    HeaderWindow(d, size);
    Progress.KnownRecord(e.types[ty], d[..size], j);
    TakeDrop(d, size, h.size);
    KnownWindow(f, j, h.value.wire, h.size, payload, size);
  }

  lemma KnownAsShaped(f: Field, j: nat, wire: WireType, h: nat, d: Octets)
    requires Agrees(f, wire) && ReadShape(WireShape(wire), d).Got?
    ensures var r := ReadKnown(f, j, wire, h, d);
            r.Known? && r.index == j && r.size == h + ReadShape(WireShape(wire), d).size
  {
    hide ReadShape, Expected;
  }

  // ---------- what is stored can be lifted ----------

  lemma DefaultLiftable(c: Context, e: Context, ty: nat)
    requires Evolved(c, e) && ty < |c.types|
    ensures Typed(c.types, ty, Default(c.types[ty])) && Liftable(c, e, false, ty, Default(c.types[ty]))
  {
    DefaultTyped(c.types, ty);
    var m := Default(c.types[ty]);
    forall i | 0 <= i < |m.values| ensures LiftableValue(c, e, false, c.types[ty][i], m.values[i]) {
      assert m.values[i] == DefaultValue(c.types[ty][i]);
    }
  }

  lemma LiftableStored(c: Context, e: Context, ty: nat, m: Message, number: nat, record: Octets)
    requires Evolved(c, e) && Typed(c.types, ty, m) && Liftable(c, e, false, ty, m) && ty < |e.types|
    requires var j := IndexOf(e.types[ty], number, 0); j.Some? ==> Occurrence(e.types[ty], j.value, record)
    ensures Typed(c.types, ty, StoreUnknown(m, number, record))
    ensures Liftable(c, e, false, ty, StoreUnknown(m, number, record))
  {
    hide Folded, Store, RecordsOf, LiftableValue, Occurrence, IndexOf;
    var m' := StoreUnknown(m, number, record);
    forall j | 0 <= j < |e.types[ty]| ensures NewFieldReads(c, e, false, ty, m', j) {
      assert NewFieldReads(c, e, false, ty, m, j);
      RecordsOfStored(m.unknown, number, record, e.types[ty][j].number);
      KnownThere(e, ty, j);
    }
    forall i | 0 <= i < |m.values| ensures LiftableValue(c, e, false, c.types[ty][i], m'.values[i]) {
      assert LiftableValue(c, e, false, c.types[ty][i], m.values[i]);
    }
  }

  lemma LiftableAssigned(c: Context, e: Context, ty: nat, m: Message, i: nat, v: Value)
    requires Evolved(c, e) && Typed(c.types, ty, m) && Liftable(c, e, false, ty, m) && i < |c.types[ty]|
    requires TypedValue(c.types, c.types[ty][i], v) && LiftableValue(c, e, false, c.types[ty][i], v)
    ensures Typed(c.types, ty, Set(c.types[ty], m, i, v)) && Liftable(c, e, false, ty, Set(c.types[ty], m, i, v))
  {
    hide Folded, RecordsOf, LiftableValue;
    OldIsPlain(c, e);
    SetTyped(c.types, ty, m, i, v);
    SetPlain(c.types, ty, m, i, v);
    var m' := Set(c.types[ty], m, i, v);
    forall j | 0 <= j < |e.types[ty]| ensures NewFieldReads(c, e, false, ty, m', j) {
      assert NewFieldReads(c, e, false, ty, m, j);
    }
    forall a | 0 <= a < |m.values| ensures LiftableValue(c, e, false, c.types[ty][a], m'.values[a]) {
      assert LiftableValue(c, e, false, c.types[ty][a], m.values[a]);
    }
  }

  lemma LiftablePrior(c: Context, e: Context, ty: nat, fr: Frame, i: nat)
    requires Evolved(c, e) && Typed(c.types, ty, fr.m) && Liftable(c, e, false, ty, fr.m) && i < |c.types[ty]|
    ensures LiftableValue(c, e, false, c.types[ty][i], Prior(c, ty, fr, i))
  {
    hide Liftable;
    OldIsPlain(c, e);
    PriorIsFresh(c, ty, fr, i);
    LiftableAt(c, e, false, ty, fr.m, i);
    var f := c.types[ty][i];
    if f.kind.MessageOf? {
      DefaultLiftable(c, e, f.kind.ty);
    }
  }

  lemma {:induction false} LiftableUpdated(c: Context, e: Context, f: Field, d: Octets, prior: Value)
    requires Evolved(c, e) && WellFormedField(c.types, f) && f.kind.MessageOf? && PlainRule(f.rule)
    requires TypedValue(c.types, f, prior) && !prior.Absent? && LiftableValue(c, e, false, f, prior)
    requires UpdateMessage(c, f, d, prior).Some? && WireTypesAgree(c, e, f.kind.ty, d)
    ensures LiftableValue(c, e, false, f, UpdateMessage(c, f, d, prior).value)
    decreases |d|, 2
  {
    hide Liftable, DecodeFrom, Typed, WireTypesAgree;
    if !f.IsList() {
      DecodedLiftable(c, e, f.kind.ty, d, Frame(prior.m, {}));
    } else {
      DefaultLiftable(c, e, f.kind.ty);
      DecodedLiftable(c, e, f.kind.ty, d, Frame(Default(c.types[f.kind.ty]), {}));
    }
  }

  lemma {:induction false} LiftableKnown(c: Context, e: Context, ty: nat, fr: Frame, i: nat, raw: Raw)
    requires Evolved(c, e) && Typed(c.types, ty, fr.m) && Liftable(c, e, false, ty, fr.m)
    requires i < |c.types[ty]| && Acceptable(c.types[ty][i], raw) && AfterKnown(c, ty, fr, i, raw).Some?
    requires c.types[ty][i].kind.MessageOf? ==>
               c.types[ty][i].kind.ty < |c.types| && WireTypesAgree(c, e, c.types[ty][i].kind.ty, raw.d)
    ensures Liftable(c, e, false, ty, AfterKnown(c, ty, fr, i, raw).value.m)
    decreases RawSize(raw), 4
  {
    hide Liftable, UpdateMessage, WireTypesAgree, Set;
    var f, prior := c.types[ty][i], Prior(c, ty, fr, i);
    OldIsPlain(c, e);
    PlainField(c.types, ty, i);
    LiftablePrior(c, e, ty, fr, i);
    if f.kind.MessageOf? {
      LiftableUpdated(c, e, f, raw.d, prior);
    }
    LiftableAssigned(c, e, ty, fr.m, i, Update(c, f, raw, prior).value);
  }

  /** An input whose wire types agree leaves nothing in the message that the newer schema could not
      delimit. */
  lemma {:induction false} DecodedLiftable(c: Context, e: Context, ty: nat, d: Octets, fr: Frame)
    requires Evolved(c, e) && Typed(c.types, ty, fr.m) && Liftable(c, e, false, ty, fr.m)
    requires ty < |c.types| && WireTypesAgree(c, e, ty, d) && DecodeFrom(c, ty, d, fr).Some?
    ensures Liftable(c, e, false, ty, DecodeFrom(c, ty, d, fr).value.m)
    decreases |d|, 0
  {
    hide Liftable, AfterKnown, RecordAgrees, ReadRecord;
    TypedShape(c.types, ty, fr.m);
    if d != [] {
      match ReadRecord(c.types[ty], d)
      case Unknown(number, size) =>
        var j := IndexOf(e.types[ty], number, 0);
        if j.Some? {
          AgreesOccurs(e, ty, c.types[ty], d, j.value);
        }
        LiftableStored(c, e, ty, fr.m, number, d[..size]);
        DecodedLiftable(c, e, ty, d[size..], AfterUnknown(c, ty, fr, number, d[..size]));
      case Known(i, raw, size) =>
        assert WellFormedType(c.types, c.types[ty]) && WellFormedField(c.types, c.types[ty][i]);
        LiftableKnown(c, e, ty, fr, i, raw);
        DecodedLiftable(c, e, ty, d[size..], AfterKnown(c, ty, fr, i, raw).value);
    }
  }

  /** Forwarding, for inputs whose wire types agree with the newer schema. */
  lemma ForwardingChecked(c: Context, e: Context, ty: nat, d: Octets, m: Message)
    requires Evolved(c, e) && ty < |c.types| && ty < |e.types| && WireTypesAgree(c, e, ty, d)
    requires Typed(c.types, ty, Default(c.types[ty])) && Typed(e.types, ty, Default(e.types[ty]))
    requires Decode(c, ty, d, Default(c.types[ty])) == Some(m)
    requires NoNegativeZero(c, ty, m) && |Encode(c, ty, m, {}, true)| < TWO_TO_31
    ensures var direct := Decode(e, ty, d, Default(e.types[ty]));
            var forwarded := Decode(e, ty, Encode(c, ty, m, {}, true), Default(e.types[ty]));
            && (direct.Some? && forwarded.Some? ==> forwarded == direct)
            && (NothingNewRequired(c.types, e.types) ==> forwarded == direct)
  {
    hide Liftable, NothingNewRequired, NoNegativeZero, WireTypesAgree, Encode, DecodeFrom;
    DefaultLiftable(c, e, ty);
    DecodedLiftable(c, e, ty, d, Frame(Default(c.types[ty]), {}));
    Forwarding(c, e, ty, d, m);
  }
}
