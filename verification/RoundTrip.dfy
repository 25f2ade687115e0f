/**
 What a reader gets back from the octets of a message.

 `Reread` says it in terms of the message: an unset required sub-message comes back as the default
 one, an implicit negative zero comes back as zero, and a required cycle that the encoder had to
 cut short makes the octets unreadable. `ReadBack` proves the decoder agrees.
 */
module RoundTrip {
  import opened Octets
  import opened Varint
  import opened Scalars
  import opened Schema
  import opened Records
  import opened Decoder
  import opened Encoder

  // ---------- messages that come from the store itself ----------

  predicate Clean(cx: Context, ty: nat, m: Message)
    requires WellFormed(cx.types) && Typed(cx.types, ty, m)
    decreases m
  {
    var t := cx.types[ty];
    && (forall i :: 0 <= i < |m.values| ==> CleanValue(cx, t[i], m.values[i]))
    && OneofsExclusive(t, m)
    && CleanGroups(t, m.unknown)
  }

  predicate CleanValue(cx: Context, f: Field, v: Value)
    requires WellFormed(cx.types) && TypedValue(cx.types, f, v)
    decreases v
  {
    match v
    case Sub(m) => Clean(cx, f.kind.ty, m)
    case Subs(ms) =>
      && (forall k :: 0 <= k < |ms| ==> Clean(cx, f.kind.ty, ms[k]))
      && (f.rule.Map? ==> forall k :: 0 <= k < |ms| ==> CleanEntry(ms[k]))
      && (f.rule.Map? ==> forall j, k :: 0 <= j < k < |ms| ==> !SameKey(ms[j], ms[k]))
    case _ => true
  }

  predicate CleanEntry(e: Message) {
    |e.values| == 2 && !e.values[1].Absent? && e.unknown == []
  }

  predicate SameKey(a: Message, b: Message) {
    b.values != [] && HasKey(a, b.values[0])
  }

  predicate OneofsExclusive(t: MessageType, m: Message)
    requires |m.values| == |t|
  {
    forall i, j :: 0 <= i < |t| && 0 <= j < |t| && i != j && SameGroup(t[i], t[j])
                   && !m.values[i].Absent?
      ==> m.values[j].Absent?
  }

  predicate CleanGroups(t: MessageType, groups: seq<Group>) {
    && (forall k :: 0 <= k < |groups| ==> CleanGroup(t, groups[k]))
    && forall j, k :: 0 <= j < k < |groups| ==> groups[j].number != groups[k].number
  }

  /** Every stored record reads back as one unknown record of its number. */
  predicate CleanGroup(t: MessageType, g: Group) {
    && g.records != []
    && forall k :: 0 <= k < |g.records| ==> UnknownRecord(t, g.number, g.records[k])
  }

  predicate UnknownRecord(t: MessageType, number: nat, d: Octets) {
    ReadRecord(t, d) == Unknown(number, |d|)
  }

  // ---------- the message read back ----------

  datatype Outcome =
    | Skipped           // nothing was written
    | Failed            // what was written does not decode
    | Stored(v: Value)

  function Reread(cx: Context, ty: nat, m: Message, guard: set<nat>): (r: Option<Message>)
    requires WellFormed(cx.types) && Typed(cx.types, ty, m)
    ensures r.Some? ==> Typed(cx.types, ty, r.value)
    decreases Unguarded(cx, guard), m, 2
  {
    match RereadFields(cx, ty, m, guard, 0)
    case None => None
    case Some(vs) => Some(Message.Message(vs, if cx.keepUnknown then m.unknown else []))
  }

  function RereadFields(cx: Context, ty: nat, m: Message, guard: set<nat>, i: nat): (r: Option<seq<Value>>)
    requires WellFormed(cx.types) && Typed(cx.types, ty, m) && i <= |m.values|
    ensures r.Some? ==> |r.value| == |m.values| - i
    ensures r.Some? ==> forall k :: 0 <= k < |r.value| ==> TypedValue(cx.types, cx.types[ty][i + k], r.value[k])
    decreases Unguarded(cx, guard), m, 1, |m.values| - i
  {
    if i == |m.values| then Some([])
    else
      var f := cx.types[ty][i];
      match (RereadField(cx, f, m.values[i], guard), RereadFields(cx, ty, m, guard, i + 1))
      case (Failed, _) => None
      case (_, None) => None
      case (Skipped, Some(vs)) => if f.rule.Required? then None else Some([DefaultValue(f)] + vs)
      case (Stored(v), Some(vs)) => Some([v] + vs)
  }

  function RereadField(cx: Context, f: Field, v: Value, guard: set<nat>): (r: Outcome)
    requires WellFormed(cx.types) && TypedValue(cx.types, f, v)
    requires WellFormedField(cx.types, f)
    ensures r.Stored? ==> TypedValue(cx.types, f, r.v) && !r.v.Absent?
    decreases Unguarded(cx, guard), v, 1
  {
    match v
    case Absent =>
      if f.kind.MessageOf? && f.rule.Required? && f.kind.ty !in guard then
        DefaultTyped(cx.types, f.kind.ty);
        assert f.kind.ty in Unguarded(cx, guard) && f.kind.ty !in Unguarded(cx, guard + {f.kind.ty});
        Wrapped(Reread(cx, f.kind.ty, Default(cx.types[f.kind.ty]), guard + {f.kind.ty}))
      else Skipped
    case Sub(m) => Wrapped(Reread(cx, f.kind.ty, m, guard))
    case Subs(ms) =>
      if ms == [] then Skipped
      else (
        match RereadSubs(cx, f, ms, guard)
        case None => Failed
        case Some(rs) => Stored(Subs(rs))
      )
    case Num(n) => if LooksDefault(f.kind, n) && !f.WritesDefault() then Skipped else Stored(v)
    case Text(d) => if d == [] && !f.WritesDefault() then Skipped else Stored(v)
    case Nums(ns) => if ns == [] then Skipped else Stored(v)
    case Texts(ds) => if ds == [] then Skipped else Stored(v)
  }

  function Wrapped(r: Option<Message>): Outcome {
    match r
    case None => Failed
    case Some(m) => Stored(Sub(m))
  }

  function RereadSubs(cx: Context, f: Field, ms: seq<Message>, guard: set<nat>): (r: Option<seq<Message>>)
    requires WellFormed(cx.types) && f.kind.MessageOf?
    requires forall k :: 0 <= k < |ms| ==> Typed(cx.types, f.kind.ty, ms[k])
    ensures r.Some? ==> |r.value| == |ms|
    ensures r.Some? ==> forall k :: 0 <= k < |ms| ==> Typed(cx.types, f.kind.ty, r.value[k])
    decreases Unguarded(cx, guard), ms, 0
  {
    if ms == [] then Some([])
    else match (Reread(cx, f.kind.ty, ms[0], guard), RereadSubs(cx, f, ms[1..], guard))
      case (Some(m), Some(rs)) => Some([m] + rs)
      case _ => None
  }

  // ---------- one record ----------

  lemma OneRecord(cx: Context, ty: nat, fr: Frame, i: nat, wire: WireType, shape: Shape, raw: Raw,
                  rest: Octets)
    requires WellFormed(cx.types) && Typed(cx.types, ty, fr.m) && i < |cx.types[ty]|
    requires Expected(cx.types[ty][i], wire) == Some(shape) && RawFits(shape, raw)
    requires raw.Blob? ==> |raw.d| < TWO_TO_64
    ensures Acceptable(cx.types[ty][i], raw)
    ensures DecodeFrom(cx, ty, WriteHeader(cx.types[ty][i].number, wire) + WriteShape(shape, raw) + rest, fr)
            == After(cx, ty, fr, i, raw, rest)
  {
    var t := cx.types[ty];
    assert WellFormedType(cx.types, t) && WellFormedField(cx.types, t[i]);
    WrittenRecord(t, i, wire, shape, raw, rest);
  }

  // ---------- one field ----------

  /** The field at index `i` is untouched so far, and so is every other member of its oneof. */
  predicate Fresh(cx: Context, ty: nat, fr: Frame, i: nat) {
    && WellFormed(cx.types) && Typed(cx.types, ty, fr.m) && i < |cx.types[ty]|
    && fr.m.values[i] == DefaultValue(cx.types[ty][i])
    && forall j :: 0 <= j < |cx.types[ty]| && SameGroup(cx.types[ty][i], cx.types[ty][j])
         ==> fr.m.values[j].Absent?
  }

  lemma TextRecord(cx: Context, ty: nat, fr: Frame, i: nat, d: Octets, rest: Octets)
    requires WellFormed(cx.types) && Typed(cx.types, ty, fr.m) && i < |cx.types[ty]|
    requires Expected(cx.types[ty][i], WireChunk) == Some(AsChunk) && |d| < TWO_TO_32
    ensures Acceptable(cx.types[ty][i], Blob(d))
    ensures DecodeFrom(cx, ty, WriteText(cx.types[ty][i].number, d) + rest, fr)
            == After(cx, ty, fr, i, Blob(d), rest)
  {
    OneRecord(cx, ty, fr, i, WireChunk, AsChunk, Blob(d), rest);
  }

  lemma BodyRecord(cx: Context, ty: nat, fr: Frame, i: nat, body: Octets, rest: Octets)
    requires WellFormed(cx.types) && Typed(cx.types, ty, fr.m) && i < |cx.types[ty]|
    requires cx.types[ty][i].kind.MessageOf? && |body| < TWO_TO_32
    ensures Acceptable(cx.types[ty][i], Blob(body))
    ensures DecodeFrom(cx, ty, WriteBody(cx.types[ty][i].number, body, true) + rest, fr)
            == After(cx, ty, fr, i, Blob(body), rest)
  {
    var number := cx.types[ty][i].number;
    assert |body| % TWO_TO_32 == |body|;
    assert WriteBody(number, body, true) == WriteText(number, body);
    TextRecord(cx, ty, fr, i, body, rest);
  }

  lemma NumberUpdate(cx: Context, f: Field, n: int, prior: Value)
    requires WellFormed(cx.types) && WellFormedField(cx.types, f)
    requires TypedValue(cx.types, f, prior) && !prior.Absent? && InRange(f.kind, n)
    ensures Acceptable(f, Number(ToWire(f.kind, n)))
    ensures Update(cx, f, Number(ToWire(f.kind, n)), prior)
            == Some(if f.IsList() then Nums(prior.ns + [n]) else Num(n))
  {
    WireRoundTrip(f.kind, n);
  }

  lemma NumberRecord(cx: Context, ty: nat, fr: Frame, i: nat, n: int, rest: Octets)
    requires WellFormed(cx.types) && Typed(cx.types, ty, fr.m) && i < |cx.types[ty]|
    requires InRange(cx.types[ty][i].kind, n)
    ensures
      var f := cx.types[ty][i];
      var v := if f.IsList() then Nums(Prior(cx, ty, fr, i).ns + [n]) else Num(n);
      TypedValue(cx.types, f, v) &&
      DecodeFrom(cx, ty, WriteHeader(f.number, KindWire(f.kind)) + WriteNumber(f.kind, n) + rest, fr)
      == DecodeFrom(cx, ty, rest, Assigned(cx, ty, fr, i, v))
  {
    var f := cx.types[ty][i];
    var prior := Prior(cx, ty, fr, i);
    NumberUpdate(cx, f, n, prior);
    WireRoundTrip(f.kind, n);
    OneRecord(cx, ty, fr, i, KindWire(f.kind), ShapeOf(f.kind), Number(ToWire(f.kind, n)), rest);
    AfterStored(cx, ty, fr, i, Number(ToWire(f.kind, n)), rest,
                if f.IsList() then Nums(prior.ns + [n]) else Num(n));
  }

  lemma BytesRecord(cx: Context, ty: nat, fr: Frame, i: nat, d: Octets, rest: Octets)
    requires WellFormed(cx.types) && Typed(cx.types, ty, fr.m) && i < |cx.types[ty]|
    requires cx.types[ty][i].kind.Bytes? && |d| < TWO_TO_32
    ensures
      var f := cx.types[ty][i];
      var v := if f.IsList() then Texts(Prior(cx, ty, fr, i).ds + [d]) else Text(d);
      TypedValue(cx.types, f, v) &&
      DecodeFrom(cx, ty, WriteText(f.number, d) + rest, fr)
      == DecodeFrom(cx, ty, rest, Assigned(cx, ty, fr, i, v))
  {
    var f := cx.types[ty][i];
    var prior := Prior(cx, ty, fr, i);
    TextRecord(cx, ty, fr, i, d, rest);
    AfterStored(cx, ty, fr, i, Blob(d), rest, if f.IsList() then Texts(prior.ds + [d]) else Text(d));
  }

  lemma PackedRecord(cx: Context, ty: nat, fr: Frame, i: nat, ns: seq<int>, rest: Octets)
    requires WellFormed(cx.types) && Typed(cx.types, ty, fr.m) && i < |cx.types[ty]|
    requires cx.types[ty][i].rule.Repeated? && cx.types[ty][i].kind.IsNumeric()
    requires AllInRange(cx.types[ty][i].kind, ns) && |WritePacked(cx.types[ty][i].kind, ns)| < TWO_TO_32
    ensures
      var f := cx.types[ty][i];
      DecodeFrom(cx, ty, WriteText(f.number, WritePacked(f.kind, ns)) + rest, fr)
      == DecodeFrom(cx, ty, rest, Assigned(cx, ty, fr, i, Nums(ns)))
  {
    var f := cx.types[ty][i];
    var prior := Prior(cx, ty, fr, i);
    PackedRoundTrip(f.kind, ns);
    TextRecord(cx, ty, fr, i, WritePacked(f.kind, ns), rest);
    AfterStored(cx, ty, fr, i, Blob(WritePacked(f.kind, ns)), rest, Nums(ns));
  }

  lemma UnpackedSplit(f: Field, ns: seq<int>, rest: Octets)
    requires AllInRange(f.kind, ns) && ns != []
    ensures EncodeUnpacked(f, ns) + rest
            == WriteHeader(f.number, KindWire(f.kind)) + WriteNumber(f.kind, ns[0])
               + (EncodeUnpacked(f, ns[1..]) + rest)
  {
  }

  lemma NumsTyped(types: Types, f: Field, a: seq<int>, b: seq<int>)
    requires TypedValue(types, f, Nums(a)) && AllInRange(f.kind, b)
    ensures TypedValue(types, f, Nums(a + b))
  {
  }

  lemma {:induction false} UnpackedRecords(cx: Context, ty: nat, fr: Frame, i: nat, prior: seq<int>,
                                           ns: seq<int>, rest: Octets)
    requires WellFormed(cx.types) && Typed(cx.types, ty, fr.m) && i < |cx.types[ty]|
    requires cx.types[ty][i].rule.Repeated? && cx.types[ty][i].kind.IsNumeric()
    requires AllInRange(cx.types[ty][i].kind, ns) && ns != []
    requires Prior(cx, ty, fr, i) == Nums(prior)
    ensures TypedValue(cx.types, cx.types[ty][i], Nums(prior + ns))
    ensures DecodeFrom(cx, ty, EncodeUnpacked(cx.types[ty][i], ns) + rest, fr)
            == DecodeFrom(cx, ty, rest, Assigned(cx, ty, fr, i, Nums(prior + ns)))
    decreases |ns|
  {
    hide DecodeFrom, WriteHeader, WriteNumber;
    var f := cx.types[ty][i];
    NumsTyped(cx.types, f, prior, ns);
    UnpackedSplit(f, ns, rest);
    var tail := EncodeUnpacked(f, ns[1..]) + rest;
    NumberRecord(cx, ty, fr, i, ns[0], tail);
    if |ns| == 1 {
      assert tail == rest && ns == [ns[0]];
    } else {
      var next := Assigned(cx, ty, fr, i, Nums(prior + [ns[0]]));
      UnpackedRecords(cx, ty, next, i, prior + [ns[0]], ns[1..], rest);
      assert prior + [ns[0]] + ns[1..] == prior + ns;
      AssignedTwice(cx, ty, fr, i, Nums(prior + [ns[0]]), Nums(prior + ns));
    }
  }

  /** A list of numbers reads the same from its packed and its unpacked form, whichever the schema
      declares. */
  lemma EitherPacking(cx: Context, ty: nat, fr: Frame, i: nat, ns: seq<int>, rest: Octets)
    requires WellFormed(cx.types) && Typed(cx.types, ty, fr.m) && i < |cx.types[ty]|
    requires cx.types[ty][i].rule.Repeated? && cx.types[ty][i].kind.IsNumeric()
    requires Prior(cx, ty, fr, i) == Nums([]) && ns != []
    requires AllInRange(cx.types[ty][i].kind, ns) && |WritePacked(cx.types[ty][i].kind, ns)| < TWO_TO_32
    ensures var f := cx.types[ty][i];
            DecodeFrom(cx, ty, WriteText(f.number, WritePacked(f.kind, ns)) + rest, fr)
            == DecodeFrom(cx, ty, EncodeUnpacked(f, ns) + rest, fr)
            == DecodeFrom(cx, ty, rest, Assigned(cx, ty, fr, i, Nums(ns)))
  {
    hide DecodeFrom, WriteText, WritePacked, EncodeUnpacked;
    PackedRecord(cx, ty, fr, i, ns, rest);
    UnpackedRecords(cx, ty, fr, i, [], ns, rest);
    assert [] + ns == ns;
  }

  lemma {:induction false} TextRecords(cx: Context, ty: nat, fr: Frame, i: nat, ds: seq<Octets>,
                                       rest: Octets)
    requires WellFormed(cx.types) && Typed(cx.types, ty, fr.m) && i < |cx.types[ty]|
    requires cx.types[ty][i].rule.Repeated? && cx.types[ty][i].kind.Bytes?
    requires |EncodeTexts(cx.types[ty][i], ds)| < TWO_TO_32 && ds != []
    ensures
      DecodeFrom(cx, ty, EncodeTexts(cx.types[ty][i], ds) + rest, fr)
      == DecodeFrom(cx, ty, rest, Assigned(cx, ty, fr, i, Texts(Prior(cx, ty, fr, i).ds + ds)))
    decreases |ds|
  {
    hide DecodeFrom, WriteText, WellFormed, Default;
    var f := cx.types[ty][i];
    var prior := Prior(cx, ty, fr, i);
    var head, tail := WriteText(f.number, ds[0]), EncodeTexts(f, ds[1..]);
    assert EncodeTexts(f, ds) + rest == head + (tail + rest);
    BytesRecord(cx, ty, fr, i, ds[0], tail + rest);
    var first := Texts(prior.ds + [ds[0]]);
    if ds[1..] == [] {
      assert tail + rest == rest && ds == [ds[0]];
    } else {
      TextRecords(cx, ty, Assigned(cx, ty, fr, i, first), i, ds[1..], rest);
      assert prior.ds + [ds[0]] + ds[1..] == prior.ds + ds;
      AssignedTwice(cx, ty, fr, i, first, Texts(prior.ds + ds));
    }
  }

  // ---------- nested messages ----------

  /** A sub-message read into a fresh field. */
  lemma SubReadBack(cx: Context, ty: nat, fr: Frame, i: nat, body: Octets, rest: Octets, r: Option<Message>)
    requires Fresh(cx, ty, fr, i) && cx.types[ty][i].IsSingularMessage() && |body| < TWO_TO_32
    requires cx.types[ty][i].kind.ty < |cx.types|
    requires Typed(cx.types, cx.types[ty][i].kind.ty, Default(cx.types[cx.types[ty][i].kind.ty]))
    requires r == Decode(cx, cx.types[ty][i].kind.ty, body, Default(cx.types[cx.types[ty][i].kind.ty]))
    ensures DecodeFrom(cx, ty, WriteBody(cx.types[ty][i].number, body, true) + rest, fr)
            == match r
               case None => None
               case Some(m) => DecodeFrom(cx, ty, rest, Assigned(cx, ty, fr, i, Sub(m)))
  {
    hide DecodeFrom, Decode;
    var f := cx.types[ty][i];
    BodyRecord(cx, ty, fr, i, body, rest);
    var prior := Prior(cx, ty, fr, i);
    assert prior == Sub(Default(cx.types[f.kind.ty]));
    match r
    case None => BodyFails(cx, ty, fr, i, body, rest);
    case Some(m) => AfterStored(cx, ty, fr, i, Blob(body), rest, Sub(m));
  }

  /** An element or entry read into a list that holds `done`. */
  lemma ElementReadBack(cx: Context, ty: nat, fr: Frame, i: nat, done: seq<Message>, body: Octets,
                        rest: Octets, r: Option<Message>)
    requires WellFormed(cx.types) && Typed(cx.types, ty, fr.m) && i < |cx.types[ty]|
    requires cx.types[ty][i].kind.MessageOf? && cx.types[ty][i].IsList() && |body| < TWO_TO_32
    requires Prior(cx, ty, fr, i) == Subs(done)
    requires Typed(cx.types, cx.types[ty][i].kind.ty, Default(cx.types[cx.types[ty][i].kind.ty]))
    requires r == Decode(cx, cx.types[ty][i].kind.ty, body, Default(cx.types[cx.types[ty][i].kind.ty]))
    ensures DecodeFrom(cx, ty, WriteBody(cx.types[ty][i].number, body, true) + rest, fr)
            == match r
               case None => None
               case Some(m) =>
                 DecodeFrom(cx, ty, rest,
                            Assigned(cx, ty, fr, i, Subs(Added(cx.types, cx.types[ty][i], done, m))))
  {
    hide DecodeFrom, Decode;
    var f := cx.types[ty][i];
    BodyRecord(cx, ty, fr, i, body, rest);
    match r
    case None => BodyFails(cx, ty, fr, i, body, rest);
    case Some(m) => AfterStored(cx, ty, fr, i, Blob(body), rest, Subs(Added(cx.types, f, done, m)));
  }

  /** The entry that a map holds is complete already, and its key is new, so it goes last. */
  predicate JoinsLast(f: Field, done: seq<Message>, m: Message) {
    f.rule.Map? ==> CleanEntry(m) && forall k :: 0 <= k < |done| ==> !SameKey(done[k], m)
  }

  lemma {:induction false} InsertLast(entries: seq<Message>, entry: Message)
    requires entry.values != []
    requires forall k :: 0 <= k < |entries| ==> !HasKey(entries[k], entry.values[0])
    ensures Insert(entries, entry) == entries + [entry]
  {
    if entries != [] {
      InsertLast(entries[1..], entry);
    }
  }

  lemma AddedLast(types: Types, f: Field, done: seq<Message>, m: Message)
    requires WellFormed(types) && WellFormedField(types, f) && f.kind.MessageOf? && f.IsList()
    requires TypedValue(types, f, Subs(done)) && Typed(types, f.kind.ty, m)
    requires JoinsLast(f, done, m)
    ensures Added(types, f, done, m) == done + [m]
  {
    if f.rule.Map? {
      assert Complete(types, f.kind.ty, m).values == m.values;
      assert Complete(types, f.kind.ty, m) == m;
      InsertLast(done, m);
    }
  }
}
