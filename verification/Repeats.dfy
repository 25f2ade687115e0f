/**
 A field that occurs more than once in an input. The last occurrence of a scalar field or of a oneof
 counts, the bodies of a sub-message are merged as if they were one, and the last entry with a key is
 the one a map holds, whatever records stand in between.
 */
module Repeats {
  import opened Octets
  import opened Scalars
  import opened Schema
  import opened Records
  import opened Decoder
  import opened Inputs

  /** A record of the field, or of another member of its oneof. */
  predicate Touches(t: MessageType, i: nat, x: Item)
    requires i < |t|
  {
    x.record.Known? && x.record.index < |t|
    && (x.record.index == i || SameGroup(t[i], t[x.record.index]))
  }

  predicate Untouched(t: MessageType, i: nat, items: seq<Item>)
    requires i < |t|
  {
    forall k :: 0 <= k < |items| ==> !Touches(t, i, items[k])
  }

  // ---------- one record ----------

  /** The frame behind the first record of an input that can be read. */
  function FirstStep(cx: Context, ty: nat, d: Octets, fr: Frame): (r: Frame)
    requires WellFormed(cx.types) && Typed(cx.types, ty, fr.m) && d != []
    requires DecodeFrom(cx, ty, d, fr).Some?
    ensures Typed(cx.types, ty, r.m)
  {
    match ReadRecord(cx.types[ty], d)
    case Unknown(number, size) => AfterUnknown(cx, ty, fr, number, d[..size])
    case Known(i, raw, _) => AfterKnown(cx, ty, fr, i, raw).value
  }

  lemma SplitFirst(cx: Context, ty: nat, d: Octets, fr: Frame)
    requires WellFormed(cx.types) && Typed(cx.types, ty, fr.m) && d != []
    requires DecodeFrom(cx, ty, d, fr).Some?
    ensures ty < |cx.types|
    ensures var t := cx.types[ty];
            var size := ReadRecord(t, d).size;
            && !ReadRecord(t, d).Bad?
            && Items(t, d).Some? && Items(t, d[size..]).Some?
            && DecodeFrom(cx, ty, d[size..], FirstStep(cx, ty, d, fr)) == DecodeFrom(cx, ty, d, fr)
            && Items(t, d).value == [Items(t, d).value[0]] + Items(t, d[size..]).value
            && Items(t, d).value[0].record == ReadRecord(t, d)
  {
    hide Readable, Occurs, ReadRecord, AfterKnown, AfterUnknown;
    TypedShape(cx.types, ty, fr.m);
    FrameIff(cx, ty, d, fr);
    ItemsStep(cx.types[ty], d);
  }

  lemma KnownKeeps(cx: Context, ty: nat, fr: Frame, j: nat, raw: Raw, i: nat)
    requires WellFormed(cx.types) && Typed(cx.types, ty, fr.m) && j < |cx.types[ty]| && i < |cx.types[ty]|
    requires Acceptable(cx.types[ty][j], raw) && AfterKnown(cx, ty, fr, j, raw).Some?
    requires i != j && !SameGroup(cx.types[ty][j], cx.types[ty][i])
    ensures AfterKnown(cx, ty, fr, j, raw).value.m.values[i] == fr.m.values[i]
  {
    hide Update;
  }

  lemma FirstKeeps(cx: Context, ty: nat, d: Octets, fr: Frame, i: nat)
    requires WellFormed(cx.types) && Typed(cx.types, ty, fr.m) && d != [] && i < |cx.types[ty]|
    requires DecodeFrom(cx, ty, d, fr).Some?
    requires Items(cx.types[ty], d).Some? && Items(cx.types[ty], d).value != []
    requires !Touches(cx.types[ty], i, Items(cx.types[ty], d).value[0])
    ensures FirstStep(cx, ty, d, fr).m.values[i] == fr.m.values[i]
  {
    hide AfterKnown, ReadRecord;
    SplitFirst(cx, ty, d, fr);
    match ReadRecord(cx.types[ty], d)
    case Unknown(number, size) =>
    case Known(j, raw, _) => KnownKeeps(cx, ty, fr, j, raw, i);
  }

  /** A field that the input does not mention keeps its value. */
  lemma {:induction false} UntouchedKeeps(cx: Context, ty: nat, d: Octets, fr: Frame, i: nat)
    requires WellFormed(cx.types) && Typed(cx.types, ty, fr.m) && i < |cx.types[ty]|
    requires DecodeFrom(cx, ty, d, fr).Some?
    requires Items(cx.types[ty], d).Some? && Untouched(cx.types[ty], i, Items(cx.types[ty], d).value)
    ensures DecodeFrom(cx, ty, d, fr).value.m.values[i] == fr.m.values[i]
    decreases |d|
  {
    hide FirstStep, Touches, ReadRecord, Typed;
    TypedShape(cx.types, ty, fr.m);
    if d != [] {
      SplitFirst(cx, ty, d, fr);
      var items := Items(cx.types[ty], d).value;
      var size := ReadRecord(cx.types[ty], d).size;
      FirstKeeps(cx, ty, d, fr, i);
      forall k | 0 <= k < |Items(cx.types[ty], d[size..]).value|
        ensures !Touches(cx.types[ty], i, Items(cx.types[ty], d[size..]).value[k])
      {
        assert items[k + 1] == Items(cx.types[ty], d[size..]).value[k];
      }
      UntouchedKeeps(cx, ty, d[size..], FirstStep(cx, ty, d, fr), i);
    }
  }

  // ---------- scalars and oneofs ----------

  /** What a single occurrence of a singular scalar field says. */
  function ScalarOf(f: Field, raw: Raw): Value
    requires !f.kind.MessageOf? && !f.IsList() && Acceptable(f, raw)
  {
    match raw
    case Number(w) => Num(FromWire(f.kind, w))
    case Blob(b) => Text(b)
  }

  lemma ScalarFirst(cx: Context, ty: nat, d: Octets, fr: Frame, i: nat)
    requires WellFormed(cx.types) && Typed(cx.types, ty, fr.m) && d != [] && i < |cx.types[ty]|
    requires !cx.types[ty][i].kind.MessageOf? && !cx.types[ty][i].IsList()
    requires DecodeFrom(cx, ty, d, fr).Some?
    requires Items(cx.types[ty], d).Some? && Items(cx.types[ty], d).value != []
    requires Touches(cx.types[ty], i, Items(cx.types[ty], d).value[0])
    ensures var x := Items(cx.types[ty], d).value[0].record;
            FirstStep(cx, ty, d, fr).m.values[i]
            == if x.index == i then ScalarOf(cx.types[ty][i], x.raw) else Absent
  {
    hide ReadRecord, FromWire, AfterKnown, UpdateScalar, ScalarOf;
    SplitFirst(cx, ty, d, fr);
    var x := ReadRecord(cx.types[ty], d);
    AfterSets(cx, ty, fr, x.index, x.raw);
    if x.index == i {
      UpdateIsScalar(cx, ty, fr, i, x.raw);
    }
  }

  lemma AfterSets(cx: Context, ty: nat, fr: Frame, j: nat, raw: Raw)
    requires WellFormed(cx.types) && Typed(cx.types, ty, fr.m) && j < |cx.types[ty]|
    requires Acceptable(cx.types[ty][j], raw) && AfterKnown(cx, ty, fr, j, raw).Some?
    ensures Update(cx, cx.types[ty][j], raw, Prior(cx, ty, fr, j)).Some?
    ensures AfterKnown(cx, ty, fr, j, raw).value.m
            == Set(cx.types[ty], fr.m, j, Update(cx, cx.types[ty][j], raw, Prior(cx, ty, fr, j)).value)
  {
    hide Update;
  }

  lemma UpdateIsScalar(cx: Context, ty: nat, fr: Frame, i: nat, raw: Raw)
    requires WellFormed(cx.types) && Typed(cx.types, ty, fr.m) && i < |cx.types[ty]|
    requires !cx.types[ty][i].kind.MessageOf? && !cx.types[ty][i].IsList() && Acceptable(cx.types[ty][i], raw)
    ensures Update(cx, cx.types[ty][i], raw, Prior(cx, ty, fr, i)) == Some(ScalarOf(cx.types[ty][i], raw))
  {
    hide Prior, FromWire;
  }

  /** The last record of a singular scalar field, or of its oneof, decides: the field has the value of
      that record, or none if it is another member's. */
  lemma {:induction false} LastScalarWins(cx: Context, ty: nat, d: Octets, fr: Frame, i: nat, k: nat)
    requires WellFormed(cx.types) && Typed(cx.types, ty, fr.m) && i < |cx.types[ty]|
    requires !cx.types[ty][i].kind.MessageOf? && !cx.types[ty][i].IsList()
    requires DecodeFrom(cx, ty, d, fr).Some?
    requires Items(cx.types[ty], d).Some? && k < |Items(cx.types[ty], d).value|
    requires Touches(cx.types[ty], i, Items(cx.types[ty], d).value[k])
    requires Untouched(cx.types[ty], i, Items(cx.types[ty], d).value[k + 1..])
    ensures var x := Items(cx.types[ty], d).value[k].record;
            DecodeFrom(cx, ty, d, fr).value.m.values[i]
            == if x.index == i then ScalarOf(cx.types[ty][i], x.raw) else Absent
    decreases |d|
  {
    hide FirstStep, Touches, ReadRecord, Typed, ScalarOf;
    TypedShape(cx.types, ty, fr.m);
    var t, items := cx.types[ty], Items(cx.types[ty], d).value;
    SplitFirst(cx, ty, d, fr);
    var rest := d[ReadRecord(t, d).size..];
    assert items[k + 1..] == if k == 0 then Items(t, rest).value else Items(t, rest).value[k..];
    if k == 0 {
      ScalarFirst(cx, ty, d, fr, i);
      UntouchedKeeps(cx, ty, rest, FirstStep(cx, ty, d, fr), i);
    } else {
      assert items[k] == Items(t, rest).value[k - 1];
      LastScalarWins(cx, ty, rest, FirstStep(cx, ty, d, fr), i, k - 1);
    }
  }

  // ---------- sub-messages ----------

  /** The bodies of a field, one behind the other. */
  function Bodies(items: seq<Item>, i: nat): Octets {
    if items == [] then []
    else (if IsOf(items[0], i) && items[0].record.raw.Blob? then items[0].record.raw.d else []) + Bodies(items[1..], i)
  }

  /** What a frame has seen does not matter for its message. */
  lemma {:induction false} SeenIsIdle(cx: Context, ty: nat, d: Octets, m: Message, a: set<nat>, b: set<nat>)
    requires WellFormed(cx.types) && Typed(cx.types, ty, m)
    ensures var r, s := DecodeFrom(cx, ty, d, Frame(m, a)), DecodeFrom(cx, ty, d, Frame(m, b));
            r.Some? == s.Some? && (r.Some? ==> r.value.m == s.value.m)
    decreases |d|
  {
    hide Update, ReadRecord;
    TypedShape(cx.types, ty, m);
    if d != [] {
      match ReadRecord(cx.types[ty], d)
      case Bad =>
      case Unknown(number, size) =>
        SeenIsIdle(cx, ty, d[size..], AfterUnknown(cx, ty, Frame(m, a), number, d[..size]).m, a, b);
      case Known(i, raw, size) =>
        var next := AfterKnown(cx, ty, Frame(m, a), i, raw);
        if next.Some? {
          SeenIsIdle(cx, ty, d[size..], next.value.m, a + {i}, b + {i});
        }
    }
  }

  /** Merging one body and then another is merging the two as one. */
  lemma MergedTwice(cx: Context, ty: nat, a: Octets, b: Octets, m: Message)
    requires WellFormed(cx.types) && Typed(cx.types, ty, m)
    requires Decode(cx, ty, a, m).Some? && Decode(cx, ty, b, Decode(cx, ty, a, m).value).Some?
    ensures Decode(cx, ty, a + b, m) == Decode(cx, ty, b, Decode(cx, ty, a, m).value)
  {
    hide DecodeFrom, Readable, Occurs;
    var first := DecodeFrom(cx, ty, a, Frame(m, {})).value;
    DecodeAppend(cx, ty, a, b, Frame(m, {}));
    SeenIsIdle(cx, ty, b, first.m, first.seen, {});
    FrameIff(cx, ty, b, first);
    FrameIff(cx, ty, b, Frame(first.m, {}));
  }

  /** The singular sub-message at index `i`, as it stands to be merged into. */
  function Held(cx: Context, ty: nat, m: Message, i: nat): (r: Message)
    requires WellFormed(cx.types) && Typed(cx.types, ty, m) && i < |cx.types[ty]|
    requires cx.types[ty][i].IsSingularMessage()
    ensures Typed(cx.types, cx.types[ty][i].kind.ty, r)
  {
    assert WellFormedType(cx.types, cx.types[ty]) && WellFormedField(cx.types, cx.types[ty][i]);
    DefaultTyped(cx.types, cx.types[ty][i].kind.ty);
    assert TypedValue(cx.types, cx.types[ty][i], m.values[i]);
    if m.values[i].Sub? then m.values[i].m else Default(cx.types[cx.types[ty][i].kind.ty])
  }

  lemma BodyFirst(cx: Context, ty: nat, d: Octets, fr: Frame, i: nat)
    requires WellFormed(cx.types) && Typed(cx.types, ty, fr.m) && d != [] && i < |cx.types[ty]|
    requires cx.types[ty][i].IsSingularMessage() && !cx.types[ty][i].rule.Oneof?
    requires DecodeFrom(cx, ty, d, fr).Some?
    requires Items(cx.types[ty], d).Some? && Items(cx.types[ty], d).value != []
    requires IsOf(Items(cx.types[ty], d).value[0], i)
    ensures var x := Items(cx.types[ty], d).value[0].record;
            && x.Known? && x.raw.Blob?
            && Decode(cx, cx.types[ty][i].kind.ty, x.raw.d, Held(cx, ty, fr.m, i)).Some?
            && FirstStep(cx, ty, d, fr).m.values[i]
               == Sub(Decode(cx, cx.types[ty][i].kind.ty, x.raw.d, Held(cx, ty, fr.m, i)).value)
  {
    hide ReadRecord, Decode, AfterKnown, Held;
    SplitFirst(cx, ty, d, fr);
    var x := ReadRecord(cx.types[ty], d);
    assert WellFormedType(cx.types, cx.types[ty]) && WellFormedField(cx.types, cx.types[ty][i]);
    AfterSets(cx, ty, fr, i, x.raw);
    PriorHeld(cx, ty, fr, i);
  }

  lemma PriorHeld(cx: Context, ty: nat, fr: Frame, i: nat)
    requires WellFormed(cx.types) && Typed(cx.types, ty, fr.m) && i < |cx.types[ty]|
    requires cx.types[ty][i].IsSingularMessage() && !cx.types[ty][i].rule.Oneof?
    ensures Prior(cx, ty, fr, i) == Sub(Held(cx, ty, fr.m, i))
  {
    assert TypedValue(cx.types, cx.types[ty][i], fr.m.values[i]);
  }

  lemma NotOneof(t: MessageType, i: nat, x: Item)
    requires i < |t| && !t[i].rule.Oneof?
    ensures Touches(t, i, x) <==> IsOf(x, i)
  {
  }

  lemma {:induction false} NoBodies(items: seq<Item>, i: nat)
    requires !Occurs(items, i)
    ensures Bodies(items, i) == []
    decreases |items|
  {
    if items != [] {
      assert !IsOf(items[0], i);
      forall k | 0 <= k < |items[1..]| ensures !IsOf(items[1..][k], i) {
        assert items[1..][k] == items[k + 1];
      }
      NoBodies(items[1..], i);
    }
  }

  /** Several bodies of a sub-message are merged: the message that was there takes in all of them, as if
      they had come as one. */
  lemma {:induction false} BodiesMerge(cx: Context, ty: nat, d: Octets, fr: Frame, i: nat)
    requires WellFormed(cx.types) && Typed(cx.types, ty, fr.m) && i < |cx.types[ty]|
    requires cx.types[ty][i].IsSingularMessage() && !cx.types[ty][i].rule.Oneof?
    requires DecodeFrom(cx, ty, d, fr).Some?
    ensures Items(cx.types[ty], d).Some?
    ensures var items, v := Items(cx.types[ty], d).value, DecodeFrom(cx, ty, d, fr).value.m.values[i];
            if Occurs(items, i) then
              var r := Decode(cx, cx.types[ty][i].kind.ty, Bodies(items, i), Held(cx, ty, fr.m, i));
              r.Some? && v == Sub(r.value)
            else v == fr.m.values[i]
    decreases |d|
  {
    hide FirstStep, Touches, ReadRecord, Typed, DecodeFrom, Decode, Occurs, Readable, Held, Items, IsOf;
    TypedShape(cx.types, ty, fr.m);
    FrameIff(cx, ty, d, fr);
    var t, items := cx.types[ty], Items(cx.types[ty], d).value;
    if d == [] {
      NoRecordsAt(cx, ty, fr, i);
    } else {
      SplitFirst(cx, ty, d, fr);
      var rest, next := Items(t, d[ReadRecord(t, d).size..]).value, FirstStep(cx, ty, d, fr);
      OccursStep(items[0], rest, i);
      assert items[1..] == rest;
      BodiesMerge(cx, ty, d[ReadRecord(t, d).size..], next, i);
      if IsOf(items[0], i) {
        BodyFirst(cx, ty, d, fr, i);
        HeldIs(cx, ty, next.m, i);
        var first := items[0].record.raw.d;
        if Occurs(rest, i) {
          MergedTwice(cx, t[i].kind.ty, first, Bodies(rest, i), Held(cx, ty, fr.m, i));
        } else {
          NoBodies(rest, i);
          assert first + [] == first;
        }
      } else {
        NotOneof(t, i, items[0]);
        FirstKeeps(cx, ty, d, fr, i);
        TypedShape(cx.types, ty, next.m);
        HeldSame(cx, ty, fr.m, next.m, i);
        assert [] + Bodies(rest, i) == Bodies(rest, i);
      }
    }
  }

  lemma NoRecordsAt(cx: Context, ty: nat, fr: Frame, i: nat)
    requires WellFormed(cx.types) && Typed(cx.types, ty, fr.m)
    ensures ty < |cx.types| && Items(cx.types[ty], []) == Some([]) && !Occurs([], i)
    ensures DecodeFrom(cx, ty, [], fr) == Some(fr)
  {
  }

  lemma HeldIs(cx: Context, ty: nat, m: Message, i: nat)
    requires WellFormed(cx.types) && Typed(cx.types, ty, m) && i < |cx.types[ty]|
    requires cx.types[ty][i].IsSingularMessage()
    ensures |m.values| == |cx.types[ty]|
    ensures m.values[i].Sub? ==> Held(cx, ty, m, i) == m.values[i].m
  {
  }

  lemma HeldSame(cx: Context, ty: nat, m: Message, n: Message, i: nat)
    requires WellFormed(cx.types) && Typed(cx.types, ty, m) && Typed(cx.types, ty, n) && i < |cx.types[ty]|
    requires cx.types[ty][i].IsSingularMessage() && |m.values| == |n.values| == |cx.types[ty]|
    requires m.values[i] == n.values[i]
    ensures Held(cx, ty, m, i) == Held(cx, ty, n, i)
  {
  }

  /** A oneof member that is unset takes over the message of a sibling of the same type, and the sibling
      is unset. */
  lemma SiblingMerges(cx: Context, ty: nat, fr: Frame, i: nat, j: nat, body: Octets)
    requires WellFormed(cx.types) && Typed(cx.types, ty, fr.m) && i < |cx.types[ty]| && j < |cx.types[ty]|
    requires i != j && SameGroup(cx.types[ty][i], cx.types[ty][j]) && cx.types[ty][i].kind == cx.types[ty][j].kind
    requires cx.types[ty][i].kind.MessageOf? && fr.m.values[i].Absent? && fr.m.values[j].Sub?
    requires forall k :: 0 <= k < |cx.types[ty]| && k != j && SameGroup(cx.types[ty][i], cx.types[ty][k])
               ==> fr.m.values[k].Absent?
    ensures Acceptable(cx.types[ty][i], Blob(body)) && Typed(cx.types, cx.types[ty][i].kind.ty, fr.m.values[j].m)
    ensures var r := AfterKnown(cx, ty, fr, i, Blob(body));
            var merged := Decode(cx, cx.types[ty][i].kind.ty, body, fr.m.values[j].m);
            && r.Some? == merged.Some?
            && (r.Some? ==> r.value.m.values[i] == Sub(merged.value) && r.value.m.values[j].Absent?)
  {
    hide Decode, AfterKnown;
    assert TypedValue(cx.types, cx.types[ty][j], fr.m.values[j]);
    assert Prior(cx, ty, fr, i) == fr.m.values[j];
    assert WellFormedType(cx.types, cx.types[ty]) && WellFormedField(cx.types, cx.types[ty][i]);
    PayloadIff(cx, ty, fr, i, Blob(body));
    AcceptedInput(cx, cx.types[ty][i].kind.ty, body, fr.m.values[j].m);
    if AfterKnown(cx, ty, fr, i, Blob(body)).Some? {
      AfterSets(cx, ty, fr, i, Blob(body));
    }
  }

  // ---------- maps ----------

  /** The entry that a map holds for a key. */
  function Lookup(ms: seq<Message>, key: Value): Option<Message> {
    if ms == [] then None else if HasKey(ms[0], key) then Some(ms[0]) else Lookup(ms[1..], key)
  }

  lemma {:induction false} LookupInserted(ms: seq<Message>, entry: Message, key: Value)
    requires entry.values != []
    ensures Lookup(Insert(ms, entry), key) == if entry.values[0] == key then Some(entry) else Lookup(ms, key)
    decreases |ms|
  {
    if ms != [] && !HasKey(ms[0], entry.values[0]) {
      LookupInserted(ms[1..], entry, key);
      assert Insert(ms, entry)[1..] == Insert(ms[1..], entry);
    } else if ms != [] {
      assert Insert(ms, entry)[1..] == ms[1..];
    } else {
      assert Insert(ms, entry)[1..] == [];
    }
  }

  /** A map field, and a record that belongs to it. */
  predicate MapAt(cx: Context, ty: nat, i: nat) {
    ty < |cx.types| && i < |cx.types[ty]| && cx.types[ty][i].rule.Map?
  }

  /** The entry that a body stands for, read by itself. */
  function EntryOf(cx: Context, ty: nat, i: nat, body: Octets): (r: Option<Message>)
    requires WellFormed(cx.types) && MapAt(cx, ty, i)
    ensures r.Some? ==> |r.value.values| == 2 && Typed(cx.types, cx.types[ty][i].kind.ty, r.value)
  {
    assert WellFormedType(cx.types, cx.types[ty]) && WellFormedField(cx.types, cx.types[ty][i]);
    DefaultTyped(cx.types, cx.types[ty][i].kind.ty);
    Decode(cx, cx.types[ty][i].kind.ty, body, Default(cx.types[cx.types[ty][i].kind.ty]))
  }

  /** A record of the map with this key. */
  predicate HasEntry(cx: Context, ty: nat, i: nat, x: Item, key: Value)
    requires WellFormed(cx.types) && MapAt(cx, ty, i)
  {
    IsOf(x, i) && x.record.raw.Blob?
    && EntryOf(cx, ty, i, x.record.raw.d).Some? && HasKey(EntryOf(cx, ty, i, x.record.raw.d).value, key)
  }

  /** What the map holds for an entry that was read: its key, and its value or a default message. */
  predicate Holds(cx: Context, ty: nat, i: nat, held: Option<Message>, entry: Message)
    requires WellFormed(cx.types) && MapAt(cx, ty, i) && |entry.values| == 2
  {
    && held.Some? && |held.value.values| == 2 && held.value.values[0] == entry.values[0]
    && (!entry.values[1].Absent? ==> held.value.values[1] == entry.values[1])
    && !held.value.values[1].Absent?
    && held.value.unknown == []
  }

  function Entries(cx: Context, ty: nat, i: nat, m: Message): seq<Message>
    requires WellFormed(cx.types) && MapAt(cx, ty, i) && Typed(cx.types, ty, m)
  {
    assert TypedValue(cx.types, cx.types[ty][i], m.values[i]);
    assert WellFormedType(cx.types, cx.types[ty]) && WellFormedField(cx.types, cx.types[ty][i]);
    m.values[i].ms
  }

  lemma EntryFirst(cx: Context, ty: nat, d: Octets, fr: Frame, i: nat, key: Value)
    requires WellFormed(cx.types) && Typed(cx.types, ty, fr.m) && d != [] && MapAt(cx, ty, i)
    requires DecodeFrom(cx, ty, d, fr).Some?
    requires Items(cx.types[ty], d).Some? && Items(cx.types[ty], d).value != []
    requires IsOf(Items(cx.types[ty], d).value[0], i)
    ensures var x, ms := Items(cx.types[ty], d).value[0].record, Entries(cx, ty, i, FirstStep(cx, ty, d, fr).m);
            && x.Known? && x.raw.Blob? && EntryOf(cx, ty, i, x.raw.d).Some?
            && var entry := EntryOf(cx, ty, i, x.raw.d).value;
            if HasKey(entry, key) then Holds(cx, ty, i, Lookup(ms, key), entry)
            else Lookup(ms, key) == Lookup(Entries(cx, ty, i, fr.m), key)
  {
    hide ReadRecord, Decode, AfterKnown, Lookup, Insert;
    SplitFirst(cx, ty, d, fr);
    var x := ReadRecord(cx.types[ty], d);
    var f := cx.types[ty][i];
    assert WellFormedType(cx.types, cx.types[ty]) && WellFormedField(cx.types, f);
    AfterSets(cx, ty, fr, i, x.raw);
    var before := Entries(cx, ty, i, fr.m);
    assert Prior(cx, ty, fr, i) == Subs(before);
    var entry := EntryOf(cx, ty, i, x.raw.d).value;
    LookupInserted(before, Complete(cx.types, f.kind.ty, entry), key);
    Completed(cx, f.kind.ty, entry);
  }

  lemma Completed(cx: Context, ty: nat, entry: Message)
    requires WellFormed(cx.types) && ty < |cx.types| && EntryType(cx.types[ty]) && Typed(cx.types, ty, entry)
    requires cx.types[ty][1].kind.MessageOf? ==> cx.types[ty][1].kind.ty < |cx.types|
    ensures var e := Complete(cx.types, ty, entry);
            && !e.values[1].Absent? && (!entry.values[1].Absent? ==> e.values[1] == entry.values[1])
  {
    assert TypedValue(cx.types, cx.types[ty][1], entry.values[1]);
  }

  lemma EntriesSame(cx: Context, ty: nat, i: nat, m: Message, n: Message)
    requires WellFormed(cx.types) && MapAt(cx, ty, i) && Typed(cx.types, ty, m) && Typed(cx.types, ty, n)
    requires |m.values| == |n.values| == |cx.types[ty]| && m.values[i] == n.values[i]
    ensures Entries(cx, ty, i, m) == Entries(cx, ty, i, n)
  {
  }

  /** A key that no record of the map has is left alone. */
  lemma {:induction false} OtherKeysKept(cx: Context, ty: nat, d: Octets, fr: Frame, i: nat, key: Value)
    requires WellFormed(cx.types) && Typed(cx.types, ty, fr.m) && MapAt(cx, ty, i)
    requires DecodeFrom(cx, ty, d, fr).Some? && Items(cx.types[ty], d).Some?
    requires forall k :: 0 <= k < |Items(cx.types[ty], d).value| ==>
               !HasEntry(cx, ty, i, Items(cx.types[ty], d).value[k], key)
    ensures Lookup(Entries(cx, ty, i, DecodeFrom(cx, ty, d, fr).value.m), key)
            == Lookup(Entries(cx, ty, i, fr.m), key)
    decreases |d|
  {
    hide FirstStep, ReadRecord, Typed, DecodeFrom, EntryOf, Entries, Items, Lookup;
    var t := cx.types[ty];
    if d == [] {
      NoRecordsAt(cx, ty, fr, i);
    } else {
      SplitFirst(cx, ty, d, fr);
      var items, next := Items(t, d).value, FirstStep(cx, ty, d, fr);
      var rest := d[ReadRecord(t, d).size..];
      forall k | 0 <= k < |Items(t, rest).value| ensures !HasEntry(cx, ty, i, Items(t, rest).value[k], key) {
        assert items[k + 1] == Items(t, rest).value[k];
      }
      OtherKeysKept(cx, ty, rest, next, i, key);
      OneEntry(cx, ty, d, fr, i, key);
    }
  }

  /** One record that does not have the key. */
  lemma OneEntry(cx: Context, ty: nat, d: Octets, fr: Frame, i: nat, key: Value)
    requires WellFormed(cx.types) && Typed(cx.types, ty, fr.m) && d != [] && MapAt(cx, ty, i)
    requires DecodeFrom(cx, ty, d, fr).Some?
    requires Items(cx.types[ty], d).Some? && Items(cx.types[ty], d).value != []
    requires !HasEntry(cx, ty, i, Items(cx.types[ty], d).value[0], key)
    ensures Lookup(Entries(cx, ty, i, FirstStep(cx, ty, d, fr).m), key) == Lookup(Entries(cx, ty, i, fr.m), key)
  {
    hide FirstStep, ReadRecord, Typed, DecodeFrom, EntryOf, Entries, Items, Lookup, HasKey;
    TypedShape(cx.types, ty, fr.m);
    TypedShape(cx.types, ty, FirstStep(cx, ty, d, fr).m);
    if IsOf(Items(cx.types[ty], d).value[0], i) {
      EntryFirst(cx, ty, d, fr, i, key);
    } else {
      NotOneof(cx.types[ty], i, Items(cx.types[ty], d).value[0]);
      FirstKeeps(cx, ty, d, fr, i);
      EntriesSame(cx, ty, i, fr.m, FirstStep(cx, ty, d, fr).m);
    }
  }

  /** The last entry with a key is the one the map holds. */
  lemma {:induction false} LastEntryWins(cx: Context, ty: nat, d: Octets, fr: Frame, i: nat, key: Value, k: nat)
    requires WellFormed(cx.types) && Typed(cx.types, ty, fr.m) && MapAt(cx, ty, i)
    requires DecodeFrom(cx, ty, d, fr).Some? && Items(cx.types[ty], d).Some?
    requires k < |Items(cx.types[ty], d).value| && HasEntry(cx, ty, i, Items(cx.types[ty], d).value[k], key)
    requires forall j :: k < j < |Items(cx.types[ty], d).value| ==>
               !HasEntry(cx, ty, i, Items(cx.types[ty], d).value[j], key)
    ensures Holds(cx, ty, i, Lookup(Entries(cx, ty, i, DecodeFrom(cx, ty, d, fr).value.m), key),
                  EntryOf(cx, ty, i, Items(cx.types[ty], d).value[k].record.raw.d).value)
    decreases |d|
  {
    hide FirstStep, ReadRecord, Typed, DecodeFrom, EntryOf, Entries, Items, Lookup, Holds;
    var t := cx.types[ty];
    if d == [] {
      NoRecordsAt(cx, ty, fr, i);
    } else {
      SplitFirst(cx, ty, d, fr);
      var items, next := Items(t, d).value, FirstStep(cx, ty, d, fr);
      var rest := d[ReadRecord(t, d).size..];
      forall j | 0 <= j < |Items(t, rest).value| ensures Items(t, rest).value[j] == items[j + 1] {
      }
      if k == 0 {
        EntryFirst(cx, ty, d, fr, i, key);
        OtherKeysKept(cx, ty, rest, next, i, key);
      } else {
        LastEntryWins(cx, ty, rest, next, i, key, k - 1);
      }
    }
  }
}
