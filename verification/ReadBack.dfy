/** The whole-message round trip: decoding what was encoded gives the message read back. */
module ReadBack {
  import opened Octets
  import opened Varint
  import opened Scalars
  import opened Schema
  import opened Records
  import opened Decoder
  import opened Encoder
  import opened RoundTrip

  lemma DefaultClean(cx: Context, ty: nat)
    requires WellFormed(cx.types) && ty < |cx.types|
    ensures Typed(cx.types, ty, Default(cx.types[ty])) && Clean(cx, ty, Default(cx.types[ty]))
  {
    DefaultTyped(cx.types, ty);
    var t, m := cx.types[ty], Default(cx.types[ty]);
    forall i | 0 <= i < |t|
      ensures CleanValue(cx, t[i], m.values[i])
    {
      assert TypedValue(cx.types, t[i], m.values[i]);
    }
  }

  /** A map entry read back is still a complete entry with the same key. */
  lemma EntryReread(cx: Context, ty: nat, m: Message, guard: set<nat>)
    requires WellFormed(cx.types) && Typed(cx.types, ty, m) && EntryType(cx.types[ty])
    requires CleanEntry(m) && Reread(cx, ty, m, guard).Some?
    ensures var r := Reread(cx, ty, m, guard).value;
            CleanEntry(r) && r.values[0] == m.values[0]
  {
    var t := cx.types[ty];
    assert WellFormedType(cx.types, t);
    assert WellFormedField(cx.types, t[0]) && WellFormedField(cx.types, t[1]);
    assert TypedValue(cx.types, t[0], m.values[0]) && TypedValue(cx.types, t[1], m.values[1]);
    assert RereadFields(cx, ty, m, guard, 2) == Some([]);
    var key, value := RereadField(cx, t[0], m.values[0], guard), RereadField(cx, t[1], m.values[1], guard);
    assert RereadFields(cx, ty, m, guard, 0).Some? && RereadFields(cx, ty, m, guard, 1).Some?;
    assert key == Stored(m.values[0]) && value.Stored?;
    assert RereadFields(cx, ty, m, guard, 1) == Some([value.v] + []);
    assert RereadFields(cx, ty, m, guard, 0) == Some([key.v] + ([value.v] + []));
  }

  lemma {:induction false} ReadBack(cx: Context, ty: nat, m: Message, guard: set<nat>)
    requires WellFormed(cx.types) && Typed(cx.types, ty, m) && Clean(cx, ty, m)
    requires |Encode(cx, ty, m, guard, true)| < TWO_TO_32
    ensures Typed(cx.types, ty, Default(cx.types[ty]))
    ensures Decode(cx, ty, Encode(cx, ty, m, guard, true), Default(cx.types[ty]))
            == Reread(cx, ty, m, guard)
    decreases Unguarded(cx, guard), m, 3
  {
    hide DecodeFrom, EncodeFields, EncodeUnknown, RereadFields, Apply;
    DefaultTyped(cx.types, ty);
    var start := Frame(Default(cx.types[ty]), {});
    var fields, unknown := EncodeFields(cx, ty, m, guard, true, 0), EncodeUnknown(cx, m);
    FieldsReadBack(cx, ty, m, guard, 0, start, unknown);
    ApplySeen(cx, ty, m, guard, 0, start);
    match Apply(cx, ty, m, guard, 0, start)
    case None =>
    case Some(fr) =>
      UnknownReadBack(cx, ty, m, fr);
      match RereadFields(cx, ty, m, guard, 0)
      case None =>
      case Some(vs) =>
        ApplyValues(cx, ty, m, guard, 0, start);
        assert start.m.values[..0] + vs == vs;
  }

  /** What the fields from `i` on make of a frame. */
  function Apply(cx: Context, ty: nat, m: Message, guard: set<nat>, i: nat, fr: Frame): (r: Option<Frame>)
    requires WellFormed(cx.types) && Typed(cx.types, ty, m) && i <= |m.values|
    requires Typed(cx.types, ty, fr.m)
    ensures r.Some? ==> Typed(cx.types, ty, r.value.m)
    decreases |m.values| - i
  {
    if i == |m.values| then Some(fr)
    else match RereadField(cx, cx.types[ty][i], m.values[i], guard)
      case Failed => None
      case Skipped => Apply(cx, ty, m, guard, i + 1, fr)
      case Stored(v) => Apply(cx, ty, m, guard, i + 1, Assigned(cx, ty, fr, i, v))
  }

  /** Fields from `i` on are untouched; a oneof member unset in the message is unset here. */
  predicate Ahead(cx: Context, ty: nat, m: Message, i: nat, fr: Frame)
    requires WellFormed(cx.types) && Typed(cx.types, ty, m) && Typed(cx.types, ty, fr.m)
  {
    var t := cx.types[ty];
    && (forall j :: i <= j < |t| ==> fr.m.values[j] == DefaultValue(t[j]))
    && (forall j :: 0 <= j < |t| && t[j].rule.Oneof? && m.values[j].Absent? ==> fr.m.values[j].Absent?)
  }

  lemma AheadFresh(cx: Context, ty: nat, m: Message, i: nat, fr: Frame)
    requires WellFormed(cx.types) && Typed(cx.types, ty, m) && Typed(cx.types, ty, fr.m)
    requires i < |m.values| && Ahead(cx, ty, m, i, fr) && OneofsExclusive(cx.types[ty], m)
    requires !m.values[i].Absent? || !cx.types[ty][i].rule.Oneof?
    ensures Fresh(cx, ty, fr, i)
  {
    var t := cx.types[ty];
    forall j | 0 <= j < |t| && SameGroup(t[i], t[j])
      ensures fr.m.values[j].Absent?
    {
      assert TypedValue(cx.types, t[i], m.values[i]);
      if j == i {
        assert DefaultValue(t[i]).Absent?;
      } else {
        assert m.values[j].Absent?;
      }
    }
  }

  lemma StillAhead(cx: Context, ty: nat, m: Message, i: nat, fr: Frame, v: Value)
    requires WellFormed(cx.types) && Typed(cx.types, ty, m) && Typed(cx.types, ty, fr.m)
    requires i < |m.values| && Ahead(cx, ty, m, i, fr) && OneofsExclusive(cx.types[ty], m)
    requires !m.values[i].Absent? || !cx.types[ty][i].rule.Oneof?
    requires TypedValue(cx.types, cx.types[ty][i], v)
    ensures Ahead(cx, ty, m, i + 1, Assigned(cx, ty, fr, i, v))
    ensures Assigned(cx, ty, fr, i, v).m.values == fr.m.values[i := v]
  {
    AheadFresh(cx, ty, m, i, fr);
  }

  lemma AbsentSkipped(cx: Context, f: Field, guard: set<nat>)
    requires WellFormed(cx.types) && WellFormedField(cx.types, f) && f.rule.Oneof?
    ensures RereadField(cx, f, Absent, guard) == Skipped
  {
  }

  lemma {:induction false} FieldsReadBack(cx: Context, ty: nat, m: Message, guard: set<nat>, i: nat,
                                          fr: Frame, rest: Octets)
    requires WellFormed(cx.types) && Typed(cx.types, ty, m) && Clean(cx, ty, m) && i <= |m.values|
    requires |EncodeFields(cx, ty, m, guard, true, i)| < TWO_TO_32
    requires Typed(cx.types, ty, fr.m) && Ahead(cx, ty, m, i, fr)
    ensures DecodeFrom(cx, ty, EncodeFields(cx, ty, m, guard, true, i) + rest, fr)
            == match Apply(cx, ty, m, guard, i, fr)
               case None => None
               case Some(next) => DecodeFrom(cx, ty, rest, next)
    decreases Unguarded(cx, guard), m, 2, |m.values| - i
  {
    hide DecodeFrom, RereadField, CleanValue, TypedValue;
    if i == |m.values| {
      assert EncodeFields(cx, ty, m, guard, true, i) + rest == rest;
    } else {
      var f, v := cx.types[ty][i], m.values[i];
      var head := EncodeField(cx, f, v, guard, true);
      var tail := EncodeFields(cx, ty, m, guard, true, i + 1);
      assert head + tail + rest == head + (tail + rest);
      if v.Absent? && f.rule.Oneof? {
        AbsentSkipped(cx, f, guard);
        assert head + (tail + rest) == tail + rest;
        FieldsReadBack(cx, ty, m, guard, i + 1, fr, rest);
      } else {
        AheadFresh(cx, ty, m, i, fr);
        FieldReadBack(cx, ty, i, v, guard, fr, tail + rest);
        match RereadField(cx, f, v, guard)
        case Failed =>
        case Skipped => FieldsReadBack(cx, ty, m, guard, i + 1, fr, rest);
        case Stored(w) =>
          StillAhead(cx, ty, m, i, fr, w);
          FieldsReadBack(cx, ty, m, guard, i + 1, Assigned(cx, ty, fr, i, w), rest);
      }
    }
  }

  lemma {:induction false} FieldReadBack(cx: Context, ty: nat, i: nat, v: Value, guard: set<nat>,
                                         fr: Frame, rest: Octets)
    requires Fresh(cx, ty, fr, i) && WellFormedField(cx.types, cx.types[ty][i])
    requires TypedValue(cx.types, cx.types[ty][i], v) && CleanValue(cx, cx.types[ty][i], v)
    requires |EncodeField(cx, cx.types[ty][i], v, guard, true)| < TWO_TO_32
    ensures DecodeFrom(cx, ty, EncodeField(cx, cx.types[ty][i], v, guard, true) + rest, fr)
            == match RereadField(cx, cx.types[ty][i], v, guard)
               case Failed => None
               case Skipped => DecodeFrom(cx, ty, rest, fr)
               case Stored(w) => DecodeFrom(cx, ty, rest, Assigned(cx, ty, fr, i, w))
    decreases Unguarded(cx, guard), v, 2
  {
    hide DecodeFrom, Decode;
    var f := cx.types[ty][i];
    match v
    case Absent =>
      if f.kind.MessageOf? && f.rule.Required? && f.kind.ty !in guard {
        var sub, wider := f.kind.ty, guard + {f.kind.ty};
        DefaultClean(cx, sub);
        assert sub in Unguarded(cx, guard) && sub !in Unguarded(cx, wider);
        ReadBack(cx, sub, Default(cx.types[sub]), wider);
        SubReadBack(cx, ty, fr, i, Encode(cx, sub, Default(cx.types[sub]), wider, true), rest,
                    Reread(cx, sub, Default(cx.types[sub]), wider));
      } else {
        assert [] + rest == rest;
      }
    case Sub(m) =>
      ReadBack(cx, f.kind.ty, m, guard);
      SubReadBack(cx, ty, fr, i, Encode(cx, f.kind.ty, m, guard, true), rest,
                  Reread(cx, f.kind.ty, m, guard));
    case Subs(ms) =>
      assert Prior(cx, ty, fr, i) == Subs([]);
      SubsReadBack(cx, ty, i, ms, guard, fr, [], rest);
      if ms != [] {
        var rs := RereadSubs(cx, f, ms, guard);
        if rs.Some? {
          assert [] + rs.value == rs.value;
        }
      }
    case _ => ScalarReadBack(cx, ty, i, v, guard, fr, rest);
  }

  lemma ScalarReadBack(cx: Context, ty: nat, i: nat, v: Value, guard: set<nat>, fr: Frame, rest: Octets)
    requires Fresh(cx, ty, fr, i) && WellFormedField(cx.types, cx.types[ty][i])
    requires TypedValue(cx.types, cx.types[ty][i], v) && (v.Num? || v.Text? || v.Nums? || v.Texts?)
    requires |EncodeScalar(cx.types[ty][i], v)| < TWO_TO_32
    ensures DecodeFrom(cx, ty, EncodeScalar(cx.types[ty][i], v) + rest, fr)
            == match RereadField(cx, cx.types[ty][i], v, guard)
               case Failed => None
               case Skipped => DecodeFrom(cx, ty, rest, fr)
               case Stored(w) => DecodeFrom(cx, ty, rest, Assigned(cx, ty, fr, i, w))
  {
    hide DecodeFrom;
    var f := cx.types[ty][i];
    if EncodeScalar(f, v) == [] {
      assert [] + rest == rest;
    } else {
      match v
      case Num(n) => NumberRecord(cx, ty, fr, i, n, rest);
      case Text(d) => BytesRecord(cx, ty, fr, i, d, rest);
      case Nums(ns) =>
        if f.rule.packed {
          PackedRecord(cx, ty, fr, i, ns, rest);
        } else {
          UnpackedRecords(cx, ty, fr, i, [], ns, rest);
          assert [] + ns == ns;
        }
      case Texts(ds) =>
        TextRecords(cx, ty, fr, i, ds, rest);
        assert [] + ds == ds;
    }
  }

  lemma {:induction false} SubsReadBack(cx: Context, ty: nat, i: nat, ms: seq<Message>, guard: set<nat>,
                                        fr: Frame, done: seq<Message>, rest: Octets)
    requires WellFormed(cx.types) && Typed(cx.types, ty, fr.m) && i < |cx.types[ty]|
    requires WellFormedField(cx.types, cx.types[ty][i])
    requires TypedValue(cx.types, cx.types[ty][i], Subs(ms)) && CleanValue(cx, cx.types[ty][i], Subs(ms))
    requires |EncodeSubs(cx, cx.types[ty][i], ms, guard, true)| < TWO_TO_32
    requires Prior(cx, ty, fr, i) == Subs(done)
    requires cx.types[ty][i].rule.Map? ==>
               forall j, k :: 0 <= j < |done| && 0 <= k < |ms| ==> !SameKey(done[j], ms[k])
    ensures DecodeFrom(cx, ty, EncodeSubs(cx, cx.types[ty][i], ms, guard, true) + rest, fr)
            == if ms == [] then DecodeFrom(cx, ty, rest, fr)
               else match RereadSubs(cx, cx.types[ty][i], ms, guard)
                    case None => None
                    case Some(rs) => (
                      DoneTyped(cx, ty, fr, i, done, rs);
                      DecodeFrom(cx, ty, rest, Assigned(cx, ty, fr, i, Subs(done + rs))))
    decreases Unguarded(cx, guard), ms, 1
  {
    hide DecodeFrom, Decode, Encode, Reread, TypedValue, CleanValue, Prior, Assigned, WellFormedField;
    var f := cx.types[ty][i];
    if ms == [] {
      assert [] + rest == rest;
    } else {
      HeadAndTail(cx, f, ms);
      var tail := EncodeSubs(cx, f, ms[1..], guard, true);
      var body := WriteBody(f.number, Encode(cx, f.kind.ty, ms[0], guard, true), true);
      assert body + tail + rest == body + (tail + rest);
      ReadBack(cx, f.kind.ty, ms[0], guard);
      FirstReadBack(cx, ty, i, ms, guard, fr, done, tail + rest);
      match Reread(cx, f.kind.ty, ms[0], guard)
      case None =>
      case Some(m) =>
        NextJoinsLast(cx, f, done, ms, guard);
        DoneTyped(cx, ty, fr, i, done, [m]);
        PriorAssigned(cx, ty, fr, i, Subs(done + [m]));
        SubsReadBack(cx, ty, i, ms[1..], guard, Assigned(cx, ty, fr, i, Subs(done + [m])), done + [m], rest);
        match RereadSubs(cx, f, ms[1..], guard)
        case None =>
        case Some(rs) =>
          if rs == [] {
            assert tail + rest == rest && done + ([m] + rs) == done + [m];
          } else {
            Rejoin(cx, ty, fr, i, done, m, rs);
          }
    }
  }

  lemma HeadAndTail(cx: Context, f: Field, ms: seq<Message>)
    requires WellFormed(cx.types) && TypedValue(cx.types, f, Subs(ms)) && CleanValue(cx, f, Subs(ms))
    requires ms != []
    ensures f.IsList() && f.kind.MessageOf?
    ensures forall k :: 0 <= k < |ms| ==> Typed(cx.types, f.kind.ty, ms[k])
    ensures Clean(cx, f.kind.ty, ms[0])
    ensures TypedValue(cx.types, f, Subs(ms[1..])) && CleanValue(cx, f, Subs(ms[1..]))
  {
  }

  lemma PriorAssigned(cx: Context, ty: nat, fr: Frame, i: nat, v: Value)
    requires WellFormed(cx.types) && Typed(cx.types, ty, fr.m) && i < |cx.types[ty]|
    requires TypedValue(cx.types, cx.types[ty][i], v) && !v.Absent?
    ensures Prior(cx, ty, Assigned(cx, ty, fr, i, v), i) == v
  {
  }

  lemma Rejoin(cx: Context, ty: nat, fr: Frame, i: nat, done: seq<Message>, m: Message, rs: seq<Message>)
    requires WellFormed(cx.types) && Typed(cx.types, ty, fr.m) && i < |cx.types[ty]|
    requires TypedValue(cx.types, cx.types[ty][i], Subs(done + [m]))
    requires TypedValue(cx.types, cx.types[ty][i], Subs(done + [m] + rs))
    ensures done + [m] + rs == done + ([m] + rs)
    ensures Assigned(cx, ty, Assigned(cx, ty, fr, i, Subs(done + [m])), i, Subs(done + [m] + rs))
            == Assigned(cx, ty, fr, i, Subs(done + ([m] + rs)))
  {
    assert done + [m] + rs == done + ([m] + rs);
    AssignedTwice(cx, ty, fr, i, Subs(done + [m]), Subs(done + [m] + rs));
  }

  lemma FirstReadBack(cx: Context, ty: nat, i: nat, ms: seq<Message>, guard: set<nat>, fr: Frame,
                      done: seq<Message>, rest: Octets)
    requires WellFormed(cx.types) && Typed(cx.types, ty, fr.m) && i < |cx.types[ty]| && ms != []
    requires WellFormedField(cx.types, cx.types[ty][i])
    requires TypedValue(cx.types, cx.types[ty][i], Subs(ms)) && CleanValue(cx, cx.types[ty][i], Subs(ms))
    requires |Encode(cx, cx.types[ty][i].kind.ty, ms[0], guard, true)| < TWO_TO_32
    requires Prior(cx, ty, fr, i) == Subs(done)
    requires cx.types[ty][i].rule.Map? ==>
               forall j, k :: 0 <= j < |done| && 0 <= k < |ms| ==> !SameKey(done[j], ms[k])
    requires Typed(cx.types, cx.types[ty][i].kind.ty, Default(cx.types[cx.types[ty][i].kind.ty]))
    requires Decode(cx, cx.types[ty][i].kind.ty, Encode(cx, cx.types[ty][i].kind.ty, ms[0], guard, true),
                    Default(cx.types[cx.types[ty][i].kind.ty]))
             == Reread(cx, cx.types[ty][i].kind.ty, ms[0], guard)
    ensures
      var f := cx.types[ty][i];
      DecodeFrom(cx, ty, WriteBody(f.number, Encode(cx, f.kind.ty, ms[0], guard, true), true) + rest, fr)
      == match Reread(cx, f.kind.ty, ms[0], guard)
         case None => None
         case Some(m) => (
           DoneTyped(cx, ty, fr, i, done, [m]);
           DecodeFrom(cx, ty, rest, Assigned(cx, ty, fr, i, Subs(done + [m]))))
  {
    hide DecodeFrom, Decode, Encode, Reread;
    var f := cx.types[ty][i];
    var r := Reread(cx, f.kind.ty, ms[0], guard);
    ElementReadBack(cx, ty, fr, i, done, Encode(cx, f.kind.ty, ms[0], guard, true), rest, r);
    if r.Some? {
      NextJoinsLast(cx, f, done, ms, guard);
      AddedLast(cx.types, f, done, r.value);
    }
  }

  lemma DoneTyped(cx: Context, ty: nat, fr: Frame, i: nat, done: seq<Message>, rs: seq<Message>)
    requires WellFormed(cx.types) && Typed(cx.types, ty, fr.m) && i < |cx.types[ty]|
    requires Prior(cx, ty, fr, i) == Subs(done) && cx.types[ty][i].kind.MessageOf?
    requires forall k :: 0 <= k < |rs| ==> Typed(cx.types, cx.types[ty][i].kind.ty, rs[k])
    ensures TypedValue(cx.types, cx.types[ty][i], Subs(done + rs))
  {
    assert TypedValue(cx.types, cx.types[ty][i], Subs(done));
  }

  /** The first entry read back has a key unlike those before it, and the later ones stay unlike it. */
  lemma NextJoinsLast(cx: Context, f: Field, done: seq<Message>, ms: seq<Message>, guard: set<nat>)
    requires WellFormed(cx.types) && WellFormedField(cx.types, f) && ms != []
    requires TypedValue(cx.types, f, Subs(ms)) && CleanValue(cx, f, Subs(ms))
    requires Reread(cx, f.kind.ty, ms[0], guard).Some?
    requires f.rule.Map? ==>
               forall j, k :: 0 <= j < |done| && 0 <= k < |ms| ==> !SameKey(done[j], ms[k])
    ensures var m := Reread(cx, f.kind.ty, ms[0], guard).value;
            && JoinsLast(f, done, m)
            && (f.rule.Map? ==> forall j, k :: 0 <= j < |done + [m]| && 0 <= k < |ms[1..]|
                                  ==> !SameKey((done + [m])[j], ms[1..][k]))
  {
    if f.rule.Map? {
      EntryReread(cx, f.kind.ty, ms[0], guard);
    }
  }

  // ---------- from the fields of a frame to the message read back ----------

  predicate RequiredFrom(t: MessageType, i: nat, seen: set<nat>) {
    forall j :: i <= j < |t| && t[j].rule.Required? ==> j in seen
  }

  lemma UnsetSkipped(cx: Context, f: Field, v: Value, guard: set<nat>)
    requires WellFormed(cx.types) && WellFormedField(cx.types, f) && TypedValue(cx.types, f, v)
    ensures v.Absent? && f.rule.Oneof? ==> RereadField(cx, f, v, guard) == Skipped
  {
  }

  lemma {:induction false} ApplySeen(cx: Context, ty: nat, m: Message, guard: set<nat>, i: nat, fr: Frame)
    requires WellFormed(cx.types) && Typed(cx.types, ty, m) && i <= |m.values|
    requires Typed(cx.types, ty, fr.m) && forall j :: j in fr.seen ==> j < i
    ensures
      match Apply(cx, ty, m, guard, i, fr)
      case None => RereadFields(cx, ty, m, guard, i).None?
      case Some(e) =>
        && e.m.unknown == fr.m.unknown
        && (forall j: nat :: j < i ==> (j in e.seen <==> j in fr.seen))
        && (RereadFields(cx, ty, m, guard, i).Some? <==> RequiredFrom(cx.types[ty], i, e.seen))
    decreases |m.values| - i
  {
    hide RereadField;
    if i < |m.values| {
      match RereadField(cx, cx.types[ty][i], m.values[i], guard)
      case Failed =>
      case Skipped => ApplySeen(cx, ty, m, guard, i + 1, fr);
      case Stored(v) => ApplySeen(cx, ty, m, guard, i + 1, Assigned(cx, ty, fr, i, v));
    }
  }

  lemma SplitAt(values: seq<Value>, i: nat, v: Value, tail: seq<Value>)
    requires i < |values|
    ensures values[i := v][..i + 1] + tail == values[..i] + ([v] + tail)
  {
  }

  lemma {:induction false} ApplyValues(cx: Context, ty: nat, m: Message, guard: set<nat>, i: nat, fr: Frame)
    requires WellFormed(cx.types) && Typed(cx.types, ty, m) && i <= |m.values|
    requires OneofsExclusive(cx.types[ty], m)
    requires Typed(cx.types, ty, fr.m) && Ahead(cx, ty, m, i, fr)
    requires Apply(cx, ty, m, guard, i, fr).Some? && RereadFields(cx, ty, m, guard, i).Some?
    ensures Apply(cx, ty, m, guard, i, fr).value.m.values
            == fr.m.values[..i] + RereadFields(cx, ty, m, guard, i).value
    decreases |m.values| - i
  {
    hide RereadField;
    var values := fr.m.values;
    if i == |m.values| {
      assert values[..i] + [] == values;
    } else {
      var f := cx.types[ty][i];
      var tail := RereadFields(cx, ty, m, guard, i + 1).value;
      match RereadField(cx, f, m.values[i], guard)
      case Skipped =>
        ApplyValues(cx, ty, m, guard, i + 1, fr);
        SplitAt(values, i, DefaultValue(f), tail);
        assert values[i := DefaultValue(f)] == values;
      case Stored(v) =>
        UnsetSkipped(cx, f, m.values[i], guard);
        StillAhead(cx, ty, m, i, fr, v);
        ApplyValues(cx, ty, m, guard, i + 1, Assigned(cx, ty, fr, i, v));
        SplitAt(values, i, v, tail);
    }
  }

  // ---------- unknown records ----------

  function WithGroup(done: seq<Group>, number: nat, records: seq<Octets>): seq<Group> {
    if records == [] then done else done + [Group(number, records)]
  }

  predicate NewNumber(done: seq<Group>, number: nat) {
    forall k :: 0 <= k < |done| ==> done[k].number != number
  }

  lemma {:induction false} StoreLast(done: seq<Group>, number: nat, records: seq<Octets>, record: Octets)
    requires NewNumber(done, number)
    ensures Store(WithGroup(done, number, records), number, record)
            == WithGroup(done, number, records + [record])
  {
    var groups := WithGroup(done, number, records);
    if done != [] {
      assert groups[1..] == WithGroup(done[1..], number, records);
      StoreLast(done[1..], number, records, record);
      assert WithGroup(done, number, records + [record])
          == [done[0]] + WithGroup(done[1..], number, records + [record]);
    } else if records != [] {
      assert groups[1..] == [];
    } else {
      assert [] + [record] == [record];
    }
  }

  function Holding(cx: Context, ty: nat, fr: Frame, groups: seq<Group>): (r: Frame)
    requires Typed(cx.types, ty, fr.m)
    ensures Typed(cx.types, ty, r.m)
  {
    fr.(m := fr.m.(unknown := groups))
  }

  lemma DecodeNothing(cx: Context, ty: nat, fr: Frame)
    requires WellFormed(cx.types) && Typed(cx.types, ty, fr.m)
    ensures DecodeFrom(cx, ty, [], fr) == Some(fr)
  {
  }

  lemma OneUnknown(cx: Context, ty: nat, fr: Frame, number: nat, r: Octets, rest: Octets)
    requires WellFormed(cx.types) && Typed(cx.types, ty, fr.m)
    requires UnknownRecord(cx.types[ty], number, r)
    ensures DecodeFrom(cx, ty, r + rest, fr) == DecodeFrom(cx, ty, rest, AfterUnknown(cx, ty, fr, number, r))
  {
    RecordAppend(cx.types[ty], r, rest);
    assert (r + rest)[..|r|] == r && (r + rest)[|r|..] == rest;
  }

  lemma {:induction false} RecordsReadBack(cx: Context, ty: nat, fr: Frame, done: seq<Group>, number: nat,
                                           prior: seq<Octets>, records: seq<Octets>, rest: Octets)
    requires WellFormed(cx.types) && Typed(cx.types, ty, fr.m) && cx.keepUnknown
    requires NewNumber(done, number)
    requires forall k :: 0 <= k < |records| ==> UnknownRecord(cx.types[ty], number, records[k])
    ensures DecodeFrom(cx, ty, Join(records) + rest, Holding(cx, ty, fr, WithGroup(done, number, prior)))
            == DecodeFrom(cx, ty, rest, Holding(cx, ty, fr, WithGroup(done, number, prior + records)))
    decreases |records|
  {
    hide DecodeFrom, UnknownRecord;
    if records == [] {
      assert [] + rest == rest && prior + [] == prior;
    } else {
      var r, tail := records[0], Join(records[1..]) + rest;
      assert Join(records) + rest == r + tail;
      OneUnknown(cx, ty, Holding(cx, ty, fr, WithGroup(done, number, prior)), number, r, tail);
      StoreLast(done, number, prior, r);
      RecordsReadBack(cx, ty, fr, done, number, prior + [r], records[1..], rest);
      assert prior + [r] + records[1..] == prior + records;
    }
  }

  lemma {:induction false} GroupsReadBack(cx: Context, ty: nat, fr: Frame, done: seq<Group>, groups: seq<Group>)
    requires WellFormed(cx.types) && Typed(cx.types, ty, fr.m) && cx.keepUnknown
    requires CleanGroups(cx.types[ty], groups)
    requires forall k :: 0 <= k < |groups| ==> NewNumber(done, groups[k].number)
    ensures DecodeFrom(cx, ty, JoinGroups(groups), Holding(cx, ty, fr, done))
            == Some(Holding(cx, ty, fr, done + groups))
    decreases |groups|
  {
    hide DecodeFrom, UnknownRecord;
    if groups == [] {
      DecodeNothing(cx, ty, Holding(cx, ty, fr, done));
      assert done + [] == done;
    } else {
      var g := groups[0];
      assert CleanGroup(cx.types[ty], g);
      RecordsReadBack(cx, ty, fr, done, g.number, [], g.records, JoinGroups(groups[1..]));
      assert [] + g.records == g.records;
      GroupsReadBack(cx, ty, fr, done + [g], groups[1..]);
      assert done + [g] + groups[1..] == done + groups;
    }
  }

  lemma UnknownReadBack(cx: Context, ty: nat, m: Message, fr: Frame)
    requires WellFormed(cx.types) && Typed(cx.types, ty, m) && Clean(cx, ty, m)
    requires Typed(cx.types, ty, fr.m) && fr.m.unknown == []
    ensures DecodeFrom(cx, ty, EncodeUnknown(cx, m), fr)
            == Some(Holding(cx, ty, fr, if cx.keepUnknown then m.unknown else []))
  {
    if cx.keepUnknown {
      GroupsReadBack(cx, ty, fr, [], m.unknown);
      assert [] + m.unknown == m.unknown;
    }
  }
}
