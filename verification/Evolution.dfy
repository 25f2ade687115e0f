/**
 Forwarding by an older schema. A program that knows fewer fields keeps the records it cannot
 interpret and re-emits them behind its own fields; a program with the newer schema then reads the
 same message as from the original octets.

 The newer reading of an input turns out to be a function of what the older program makes of it:
 `Lifts` relates an older message, stored records included, to the newer one it stands for.
 */
module Evolution {
  import opened Octets
  import opened Scalars
  import opened Schema
  import opened Records
  import opened Decoder
  import opened Encoder
  import opened RoundTrip
  import opened Stability

  // ---------- older and newer schemas ----------

  predicate PlainRule(r: Rule) {
    r.Implicit? || r.Optional? || r.Required? || r.Repeated?
  }

  /** No oneofs and no maps. */
  predicate Plain(types: Types) {
    forall k, i :: 0 <= k < |types| && 0 <= i < |types[k]| ==> PlainRule(types[k][i].rule)
  }

  predicate Extends(o: Types, n: Types) {
    && |o| == |n|
    && forall k :: 0 <= k < |o| ==> forall f :: f in o[k] ==> f in n[k]
  }

  /** An older schema, a newer one that has all its fields, and decoders that keep unknown records. */
  predicate Evolved(c: Context, e: Context) {
    && WellFormed(c.types) && WellFormed(e.types) && Plain(e.types) && Extends(c.types, e.types)
    && c.keepUnknown && e.keepUnknown
  }

  /** The newer schema demands nothing that the older one did not. */
  predicate NothingNewRequired(o: Types, n: Types) {
    forall k, f :: 0 <= k < |n| && k < |o| && f in n[k] && f.rule.Required? ==> f in o[k]
  }

  lemma PlainField(types: Types, ty: nat, i: nat)
    requires Plain(types) && ty < |types| && i < |types[ty]|
    ensures PlainRule(types[ty][i].rule)
  {
  }

  /** A field of the older schema has its own place in the newer one. */
  lemma OldPlace(c: Context, e: Context, ty: nat, i: nat)
    requires Evolved(c, e) && ty < |c.types| && i < |c.types[ty]|
    ensures ty < |e.types|
    ensures var j := IndexOf(e.types[ty], c.types[ty][i].number, 0);
            j.Some? && e.types[ty][j.value] == c.types[ty][i]
  {
    var f := c.types[ty][i];
    assert f in c.types[ty];
    assert f in e.types[ty];
    var j :| 0 <= j < |e.types[ty]| && e.types[ty][j] == f;
    assert WellFormedType(e.types, e.types[ty]);
    IndexOfField(e.types[ty], j);
  }

  /** And a newer field that the older schema has a number for is the same field there. */
  lemma SameField(c: Context, e: Context, ty: nat, j: nat)
    requires Evolved(c, e) && ty < |c.types| && ty < |e.types| && j < |e.types[ty]|
    ensures var i := IndexOf(c.types[ty], e.types[ty][j].number, 0);
            i.Some? ==> c.types[ty][i.value] == e.types[ty][j]
                        && IndexOf(e.types[ty], c.types[ty][i.value].number, 0) == Some(j)
  {
    var i := IndexOf(c.types[ty], e.types[ty][j].number, 0);
    if i.Some? {
      OldPlace(c, e, ty, i.value);
      assert WellFormedType(e.types, e.types[ty]);
      IndexOfField(e.types[ty], j);
    }
  }

  // ---------- stored records ----------

  /** The groups whose numbers a message type does not know either. */
  function StillUnknown(t: MessageType, groups: seq<Group>): seq<Group> {
    if groups == [] then []
    else if IndexOf(t, groups[0].number, 0).None? then [groups[0]] + StillUnknown(t, groups[1..])
    else StillUnknown(t, groups[1..])
  }

  lemma {:induction false} StillUnknownStored(t: MessageType, groups: seq<Group>, number: nat, record: Octets)
    ensures StillUnknown(t, Store(groups, number, record))
            == if IndexOf(t, number, 0).None? then Store(StillUnknown(t, groups), number, record)
               else StillUnknown(t, groups)
    decreases |groups|
  {
    hide IndexOf;
    if groups != [] && groups[0].number != number {
      StillUnknownStored(t, groups[1..], number, record);
      assert Store(groups, number, record)[1..] == Store(groups[1..], number, record);
      assert ([groups[0]] + StillUnknown(t, groups[1..]))[1..] == StillUnknown(t, groups[1..]);
    } else if groups != [] {
      assert Store(groups, number, record)[1..] == groups[1..];
    }
  }

  /** What an absent value is updated from. */
  function Fresh(types: Types, f: Field, v: Value): (r: Value)
    requires WellFormed(types) && WellFormedField(types, f) && TypedValue(types, f, v)
    ensures TypedValue(types, f, r) && !r.Absent?
  {
    if !v.Absent? then v
    else if f.kind.MessageOf? then
      DefaultTyped(types, f.kind.ty);
      Sub(Default(types[f.kind.ty]))
    else if f.kind.Bytes? then Text([])
    else Num(0)
  }

  /** The record is one occurrence of field `j`, and nothing more. */
  predicate Occurrence(t: MessageType, j: nat, record: Octets) {
    var r := ReadRecord(t, record);
    r.Known? && r.index == j && r.size == |record|
  }

  /** The value that a field gets from records stored for it. */
  function Folded(e: Context, ty: nat, j: nat, records: seq<Octets>): (r: Option<Value>)
    requires WellFormed(e.types) && ty < |e.types| && j < |e.types[ty]|
    ensures r.Some? ==> TypedValue(e.types, e.types[ty][j], r.value)
    decreases |records|
  {
    var t := e.types[ty];
    assert WellFormedType(e.types, t) && WellFormedField(e.types, t[j]);
    if records == [] then
      DefaultTyped(e.types, ty);
      assert Default(t).values[j] == DefaultValue(t[j]);
      Some(DefaultValue(t[j]))
    else
      var last := records[|records| - 1];
      match Folded(e, ty, j, records[..|records| - 1])
      case None => None
      case Some(v) =>
        if Occurrence(t, j, last)
        then Update(e, t[j], ReadRecord(t, last).raw, Fresh(e.types, t[j], v))
        else None
  }

  lemma FoldedMore(e: Context, ty: nat, j: nat, records: seq<Octets>, last: Octets)
    requires WellFormed(e.types) && ty < |e.types| && j < |e.types[ty]| && WellFormedField(e.types, e.types[ty][j])
    ensures Folded(e, ty, j, records + [last])
            == if Folded(e, ty, j, records).None? || !Occurrence(e.types[ty], j, last) then None
               else Update(e, e.types[ty][j], ReadRecord(e.types[ty], last).raw,
                           Fresh(e.types, e.types[ty][j], Folded(e, ty, j, records).value))
  {
    assert (records + [last])[..|records|] == records;
  }

  // ---------- the newer message an older one stands for ----------

  /** The stored records of newer fields are, for the newer schema, single occurrences of those
      fields, at any depth; when `deep`, the occurrences can also be interpreted. */
  predicate Liftable(c: Context, e: Context, deep: bool, ty: nat, m: Message)
    requires Evolved(c, e) && Typed(c.types, ty, m)
    decreases m
  {
    && (forall j :: 0 <= j < |e.types[ty]| ==> NewFieldReads(c, e, deep, ty, m, j))
    && (forall i :: 0 <= i < |m.values| ==> LiftableValue(c, e, deep, c.types[ty][i], m.values[i]))
  }

  predicate NewFieldReads(c: Context, e: Context, deep: bool, ty: nat, m: Message, j: nat)
    requires Evolved(c, e) && ty < |c.types| && j < |e.types[ty]|
  {
    IndexOf(c.types[ty], e.types[ty][j].number, 0).None? ==>
      var records := RecordsOf(m.unknown, e.types[ty][j].number);
      && (forall k :: 0 <= k < |records| ==> Occurrence(e.types[ty], j, records[k]))
      && (deep ==> Folded(e, ty, j, records).Some?)
  }

  predicate LiftableValue(c: Context, e: Context, deep: bool, f: Field, v: Value)
    requires Evolved(c, e) && TypedValue(c.types, f, v)
    decreases v
  {
    match v
    case Sub(m) => Liftable(c, e, deep, f.kind.ty, m)
    case Subs(ms) => forall k :: 0 <= k < |ms| ==> Liftable(c, e, deep, f.kind.ty, ms[k])
    case _ => true
  }

  predicate Lifts(c: Context, e: Context, ty: nat, m: Message, w: Message)
    requires Evolved(c, e) && Typed(c.types, ty, m) && Typed(e.types, ty, w)
    decreases m
  {
    && w.unknown == StillUnknown(e.types[ty], m.unknown)
    && (forall j :: 0 <= j < |w.values| ==> NewFieldIs(c, e, ty, m, j, w.values[j]))
    && (forall i :: 0 <= i < |m.values| ==> OldFieldIs(c, e, ty, m, i, w))
  }

  predicate NewFieldIs(c: Context, e: Context, ty: nat, m: Message, j: nat, v: Value)
    requires Evolved(c, e) && ty < |c.types| && j < |e.types[ty]|
  {
    IndexOf(c.types[ty], e.types[ty][j].number, 0).None?
    ==> Folded(e, ty, j, RecordsOf(m.unknown, e.types[ty][j].number)) == Some(v)
  }

  predicate OldFieldIs(c: Context, e: Context, ty: nat, m: Message, i: nat, w: Message)
    requires Evolved(c, e) && Typed(c.types, ty, m) && Typed(e.types, ty, w) && i < |m.values|
    decreases m, 0, i
  {
    OldPlace(c, e, ty, i);
    ValueLifts(c, e, c.types[ty][i], m.values[i], w.values[IndexOf(e.types[ty], c.types[ty][i].number, 0).value])
  }

  predicate ValueLifts(c: Context, e: Context, f: Field, v: Value, w: Value)
    requires Evolved(c, e) && TypedValue(c.types, f, v) && TypedValue(e.types, f, w)
    decreases v
  {
    match v
    case Sub(m) => w.Sub? && Lifts(c, e, f.kind.ty, m, w.m)
    case Subs(ms) => w.Subs? && |ms| == |w.ms| && forall k :: 0 <= k < |ms| ==> Lifts(c, e, f.kind.ty, ms[k], w.ms[k])
    case _ => v == w
  }

  // ---------- one message for each ----------

  /** An older message stands for one newer message at most. */
  lemma {:induction false} LiftsOnce(c: Context, e: Context, ty: nat, m: Message, w: Message, x: Message)
    requires Evolved(c, e) && Typed(c.types, ty, m) && Typed(e.types, ty, w) && Typed(e.types, ty, x)
    requires Lifts(c, e, ty, m, w) && Lifts(c, e, ty, m, x)
    ensures w == x
    decreases m, 1
  {
    hide Folded, IndexOf;
    forall j | 0 <= j < |w.values| ensures w.values[j] == x.values[j] {
      var i := IndexOf(c.types[ty], e.types[ty][j].number, 0);
      SameField(c, e, ty, j);
      assert NewFieldIs(c, e, ty, m, j, w.values[j]) && NewFieldIs(c, e, ty, m, j, x.values[j]);
      if i.Some? {
        IndexBound(c.types[ty], e.types[ty][j].number);
        assert OldFieldIs(c, e, ty, m, i.value, w) && OldFieldIs(c, e, ty, m, i.value, x);
        ValueLiftsOnce(c, e, e.types[ty][j], m.values[i.value], w.values[j], x.values[j]);
      }
    }
    assert w.values == x.values;
  }

  lemma IndexBound(t: MessageType, number: nat)
    ensures IndexOf(t, number, 0).Some? ==> IndexOf(t, number, 0).value < |t|
  {
  }

  lemma {:induction false} ValueLiftsOnce(c: Context, e: Context, f: Field, v: Value, w: Value, x: Value)
    requires Evolved(c, e) && TypedValue(c.types, f, v) && TypedValue(e.types, f, w) && TypedValue(e.types, f, x)
    requires ValueLifts(c, e, f, v, w) && ValueLifts(c, e, f, v, x)
    ensures w == x
    decreases v, 0
  {
    hide Lifts;
    match v
    case Sub(m) => LiftsOnce(c, e, f.kind.ty, m, w.m, x.m);
    case Subs(ms) =>
      forall k | 0 <= k < |ms| ensures w.ms[k] == x.ms[k] {
        LiftsOnce(c, e, f.kind.ty, ms[k], w.ms[k], x.ms[k]);
      }
      assert w.ms == x.ms;
    case _ =>
  }

  lemma DefaultLifts(c: Context, e: Context, ty: nat)
    requires Evolved(c, e) && ty < |c.types|
    ensures ty < |e.types|
    ensures Typed(c.types, ty, Default(c.types[ty])) && Typed(e.types, ty, Default(e.types[ty]))
    ensures Lifts(c, e, ty, Default(c.types[ty]), Default(e.types[ty]))
  {
    DefaultTyped(c.types, ty);
    DefaultTyped(e.types, ty);
    var m, w := Default(c.types[ty]), Default(e.types[ty]);
    forall j | 0 <= j < |w.values| ensures NewFieldIs(c, e, ty, m, j, w.values[j]) {
      assert w.values[j] == DefaultValue(e.types[ty][j]);
    }
    forall i | 0 <= i < |m.values| ensures OldFieldIs(c, e, ty, m, i, w) {
      hide IndexOf;
      OldPlace(c, e, ty, i);
      IndexBound(e.types[ty], c.types[ty][i].number);
      var j := IndexOf(e.types[ty], c.types[ty][i].number, 0).value;
      assert m.values[i] == DefaultValue(c.types[ty][i]) == DefaultValue(e.types[ty][j]) == w.values[j];
      DefaultValueLifts(c, e, c.types[ty][i]);
    }
  }

  lemma DefaultValueLifts(c: Context, e: Context, f: Field)
    requires Evolved(c, e) && TypedValue(c.types, f, DefaultValue(f)) && TypedValue(e.types, f, DefaultValue(f))
    ensures ValueLifts(c, e, f, DefaultValue(f), DefaultValue(f))
  {
  }

  // ---------- a field updated on both sides ----------

  /** Without oneofs a field is updated from its own value. */
  lemma PriorIsFresh(e: Context, ty: nat, fr: Frame, j: nat)
    requires WellFormed(e.types) && Plain(e.types) && Typed(e.types, ty, fr.m) && j < |e.types[ty]|
    ensures WellFormedField(e.types, e.types[ty][j]) && TypedValue(e.types, e.types[ty][j], fr.m.values[j])
    ensures Prior(e, ty, fr, j) == Fresh(e.types, e.types[ty][j], fr.m.values[j])
  {
    PlainField(e.types, ty, j);
    assert WellFormedType(e.types, e.types[ty]) && WellFormedField(e.types, e.types[ty][j]);
  }

  lemma OldIsPlain(c: Context, e: Context)
    requires Evolved(c, e)
    ensures Plain(c.types)
  {
    forall k, i | 0 <= k < |c.types| && 0 <= i < |c.types[k]| ensures PlainRule(c.types[k][i].rule) {
      OldPlace(c, e, k, i);
      PlainField(e.types, k, IndexOf(e.types[k], c.types[k][i].number, 0).value);
    }
  }

  lemma FreshLifts(c: Context, e: Context, f: Field, v: Value, w: Value)
    requires Evolved(c, e) && WellFormedField(c.types, f) && WellFormedField(e.types, f)
    requires TypedValue(c.types, f, v) && TypedValue(e.types, f, w) && ValueLifts(c, e, f, v, w)
    ensures ValueLifts(c, e, f, Fresh(c.types, f, v), Fresh(e.types, f, w))
  {
    if v.Absent? && f.kind.MessageOf? {
      DefaultLifts(c, e, f.kind.ty);
    }
  }

  lemma SetLifts(c: Context, e: Context, ty: nat, m: Message, w: Message, i: nat, v: Value, x: Value)
    requires Evolved(c, e) && Typed(c.types, ty, m) && Typed(e.types, ty, w) && Lifts(c, e, ty, m, w)
    requires i < |c.types[ty]| && TypedValue(c.types, c.types[ty][i], v) && TypedValue(e.types, c.types[ty][i], x)
    requires ValueLifts(c, e, c.types[ty][i], v, x)
    ensures var j := IndexOf(e.types[ty], c.types[ty][i].number, 0);
            && j.Some? && e.types[ty][j.value] == c.types[ty][i]
            && Typed(c.types, ty, Set(c.types[ty], m, i, v)) && Typed(e.types, ty, Set(e.types[ty], w, j.value, x))
            && Lifts(c, e, ty, Set(c.types[ty], m, i, v), Set(e.types[ty], w, j.value, x))
  {
    hide IndexOf, Folded, StillUnknown, ValueLifts;
    OldPlace(c, e, ty, i);
    OldIsPlain(c, e);
    var j := IndexOf(e.types[ty], c.types[ty][i].number, 0).value;
    IndexBound(e.types[ty], c.types[ty][i].number);
    SetTyped(c.types, ty, m, i, v);
    SetTyped(e.types, ty, w, j, x);
    SetPlain(c.types, ty, m, i, v);
    SetPlain(e.types, ty, w, j, x);
    var m', w' := Set(c.types[ty], m, i, v), Set(e.types[ty], w, j, x);
    forall b | 0 <= b < |w'.values| ensures NewFieldIs(c, e, ty, m', b, w'.values[b]) {
      assert NewFieldIs(c, e, ty, m, b, w.values[b]);
      if b == j {
        KnownThere(c, ty, i);
      }
    }
    forall a | 0 <= a < |m'.values| ensures OldFieldIs(c, e, ty, m', a, w') {
      assert OldFieldIs(c, e, ty, m, a, w);
      OldPlace(c, e, ty, a);
      if a != i {
        PlacesDiffer(c, e, ty, a, i);
      }
    }
  }

  lemma KnownThere(c: Context, ty: nat, i: nat)
    requires WellFormed(c.types) && ty < |c.types| && i < |c.types[ty]|
    ensures IndexOf(c.types[ty], c.types[ty][i].number, 0) == Some(i)
  {
    assert WellFormedType(c.types, c.types[ty]);
    IndexOfField(c.types[ty], i);
  }

  lemma PlacesDiffer(c: Context, e: Context, ty: nat, a: nat, b: nat)
    requires Evolved(c, e) && ty < |c.types| && ty < |e.types| && a < |c.types[ty]| && b < |c.types[ty]| && a != b
    ensures IndexOf(e.types[ty], c.types[ty][a].number, 0) != IndexOf(e.types[ty], c.types[ty][b].number, 0)
  {
    OldPlace(c, e, ty, a);
    OldPlace(c, e, ty, b);
    assert WellFormedType(c.types, c.types[ty]);
  }

  /** Without oneofs a write touches one field. */
  lemma SetPlain(types: Types, ty: nat, m: Message, i: nat, v: Value)
    requires Plain(types) && ty < |types| && |m.values| == |types[ty]| && i < |types[ty]|
    ensures Set(types[ty], m, i, v).values == m.values[i := v]
  {
    PlainField(types, ty, i);
  }

  // ---------- a record the older program cannot interpret ----------

  /** Its number is new: the newer program reads an occurrence of the field, as stored. */
  lemma NewFieldUpdate(c: Context, e: Context, deep: bool, ty: nat, m: Message, w: Message, number: nat,
                       record: Octets, j: nat)
    requires Evolved(c, e) && Typed(c.types, ty, m) && Typed(e.types, ty, w) && Lifts(c, e, ty, m, w)
    requires IndexOf(c.types[ty], number, 0).None? && IndexOf(e.types[ty], number, 0) == Some(j) && j < |e.types[ty]|
    requires NewFieldReads(c, e, deep, ty, StoreUnknown(m, number, record), j)
    ensures Occurrence(e.types[ty], j, record)
    ensures WellFormedField(e.types, e.types[ty][j]) && TypedValue(e.types, e.types[ty][j], w.values[j])
    ensures var x := Update(e, e.types[ty][j], ReadRecord(e.types[ty], record).raw,
                            Fresh(e.types, e.types[ty][j], w.values[j]));
            && (x.Some? ==> NewFieldIs(c, e, ty, StoreUnknown(m, number, record), j, x.value))
            && (deep ==> x.Some?)
  {
    hide Folded, StillUnknown, OldFieldIs, Store, RecordsOf, Update;
    assert WellFormedType(e.types, e.types[ty]) && WellFormedField(e.types, e.types[ty][j]);
    assert NewFieldIs(c, e, ty, m, j, w.values[j]);
    RecordsOfStored(m.unknown, number, record, number);
    var records := RecordsOf(m.unknown, number);
    FoldedMore(e, ty, j, records, record);
    assert (records + [record])[|records|] == record;
  }

  lemma StoredNewField(c: Context, e: Context, ty: nat, m: Message, w: Message, number: nat, record: Octets,
                       j: nat, x: Value)
    requires Evolved(c, e) && Typed(c.types, ty, m) && Typed(e.types, ty, w) && Lifts(c, e, ty, m, w)
    requires IndexOf(c.types[ty], number, 0).None? && IndexOf(e.types[ty], number, 0) == Some(j) && j < |e.types[ty]|
    requires TypedValue(e.types, e.types[ty][j], x)
    requires NewFieldIs(c, e, ty, StoreUnknown(m, number, record), j, x)
    ensures Typed(c.types, ty, StoreUnknown(m, number, record)) && Typed(e.types, ty, Set(e.types[ty], w, j, x))
    ensures Lifts(c, e, ty, StoreUnknown(m, number, record), Set(e.types[ty], w, j, x))
  {
    hide Folded, StillUnknown, ValueLifts, Store, RecordsOf;
    var t := e.types[ty];
    assert WellFormedType(e.types, t);
    SetTyped(e.types, ty, w, j, x);
    SetPlain(e.types, ty, w, j, x);
    StillUnknownStored(t, m.unknown, number, record);
    var m', w' := StoreUnknown(m, number, record), Set(t, w, j, x);
    assert Typed(c.types, ty, m');
    forall b | 0 <= b < |w'.values| ensures NewFieldIs(c, e, ty, m', b, w'.values[b]) {
      assert NewFieldIs(c, e, ty, m, b, w.values[b]);
      RecordsOfStored(m.unknown, number, record, t[b].number);
      if b != j {
        assert t[b].number != t[j].number;
      }
    }
    forall a | 0 <= a < |m'.values| ensures OldFieldIs(c, e, ty, m', a, w') {
      assert OldFieldIs(c, e, ty, m, a, w);
      OldPlace(c, e, ty, a);
      IndexMissing(c.types[ty], number, a);
    }
  }

  lemma IndexMissing(t: MessageType, number: nat, a: nat)
    requires IndexOf(t, number, 0).None? && a < |t|
    ensures t[a].number != number
  {
  }

  /** Its number is unknown to both: both store it. */
  lemma StoredUnknown(c: Context, e: Context, ty: nat, m: Message, w: Message, number: nat, record: Octets)
    requires Evolved(c, e) && Typed(c.types, ty, m) && Typed(e.types, ty, w) && Lifts(c, e, ty, m, w)
    requires IndexOf(e.types[ty], number, 0).None?
    ensures Typed(c.types, ty, StoreUnknown(m, number, record)) && Typed(e.types, ty, StoreUnknown(w, number, record))
    ensures Lifts(c, e, ty, StoreUnknown(m, number, record), StoreUnknown(w, number, record))
  {
    hide Folded, StillUnknown, ValueLifts, Store, RecordsOf;
    StillUnknownStored(e.types[ty], m.unknown, number, record);
    var m', w' := StoreUnknown(m, number, record), StoreUnknown(w, number, record);
    assert Typed(c.types, ty, m') && Typed(e.types, ty, w');
    forall b | 0 <= b < |w'.values| ensures NewFieldIs(c, e, ty, m', b, w'.values[b]) {
      assert NewFieldIs(c, e, ty, m, b, w.values[b]);
      IndexMissing(e.types[ty], number, b);
      RecordsOfStored(m.unknown, number, record, e.types[ty][b].number);
    }
    forall a | 0 <= a < |m'.values| ensures OldFieldIs(c, e, ty, m', a, w') {
      assert OldFieldIs(c, e, ty, m, a, w);
    }
  }

  // ---------- what can be read in the end could be read before ----------

  /** Every stored record stays stored, at any depth. */
  lemma {:induction false} LiftableBefore(c: Context, e: Context, deep: bool, ty: nat, d: Octets, fr: Frame)
    requires Evolved(c, e) && Typed(c.types, ty, fr.m)
    requires DecodeFrom(c, ty, d, fr).Some? && Liftable(c, e, deep, ty, DecodeFrom(c, ty, d, fr).value.m)
    ensures Liftable(c, e, deep, ty, fr.m)
    decreases |d|, 0
  {
    hide Liftable, AfterKnown;
    if d != [] {
      TypedShape(c.types, ty, fr.m);
      match ReadRecord(c.types[ty], d)
      case Unknown(number, size) =>
        LiftableBefore(c, e, deep, ty, d[size..], AfterUnknown(c, ty, fr, number, d[..size]));
        LiftableUnstored(c, e, deep, ty, fr.m, number, d[..size]);
      case Known(i, raw, size) =>
        LiftableBefore(c, e, deep, ty, d[size..], AfterKnown(c, ty, fr, i, raw).value);
        LiftableUnset(c, e, deep, ty, fr, i, raw);
    }
  }

  lemma LiftableUnstored(c: Context, e: Context, deep: bool, ty: nat, m: Message, number: nat, record: Octets)
    requires Evolved(c, e) && Typed(c.types, ty, m) && Typed(c.types, ty, StoreUnknown(m, number, record))
    requires Liftable(c, e, deep, ty, StoreUnknown(m, number, record))
    ensures Liftable(c, e, deep, ty, m)
  {
    hide Folded, Store, RecordsOf, LiftableValue;
    var m' := StoreUnknown(m, number, record);
    forall j | 0 <= j < |e.types[ty]| ensures NewFieldReads(c, e, deep, ty, m, j) {
      assert NewFieldReads(c, e, deep, ty, m', j);
      var k := e.types[ty][j].number;
      assert WellFormedType(e.types, e.types[ty]) && WellFormedField(e.types, e.types[ty][j]);
      RecordsOfStored(m.unknown, number, record, k);
      FoldedMore(e, ty, j, RecordsOf(m.unknown, k), record);
      var records, more := RecordsOf(m.unknown, k), RecordsOf(m'.unknown, k);
      assert forall a :: 0 <= a < |records| ==> records[a] == more[a];
    }
    forall i | 0 <= i < |m.values| ensures LiftableValue(c, e, deep, c.types[ty][i], m.values[i]) {
      assert m'.values[i] == m.values[i];
    }
  }

  lemma {:induction false} LiftableUnset(c: Context, e: Context, deep: bool, ty: nat, fr: Frame, i: nat, raw: Raw)
    requires Evolved(c, e) && Typed(c.types, ty, fr.m) && i < |c.types[ty]| && Acceptable(c.types[ty][i], raw)
    requires AfterKnown(c, ty, fr, i, raw).Some? && Liftable(c, e, deep, ty, AfterKnown(c, ty, fr, i, raw).value.m)
    ensures Liftable(c, e, deep, ty, fr.m)
    decreases RawSize(raw), 4
  {
    hide Folded, RecordsOf, LiftableValue, UpdateMessage, Set;
    var f, m, prior := c.types[ty][i], fr.m, Prior(c, ty, fr, i);
    var v := Update(c, f, raw, prior).value;
    var m' := AfterKnown(c, ty, fr, i, raw).value.m;
    OldIsPlain(c, e);
    SetPlain(c.types, ty, m, i, v);
    PriorIsFresh(c, ty, fr, i);
    forall j | 0 <= j < |e.types[ty]| ensures NewFieldReads(c, e, deep, ty, m, j) {
      assert NewFieldReads(c, e, deep, ty, m', j);
    }
    forall a | 0 <= a < |m.values| ensures LiftableValue(c, e, deep, c.types[ty][a], m.values[a]) {
      assert LiftableValue(c, e, deep, c.types[ty][a], m'.values[a]);
      if a == i {
        if f.kind.MessageOf? {
          LiftableUpdate(c, e, deep, f, raw.d, prior);
        }
        LiftableFresh(c, e, deep, f, m.values[i]);
      }
    }
  }

  lemma LiftableFresh(c: Context, e: Context, deep: bool, f: Field, v: Value)
    requires Evolved(c, e) && WellFormedField(c.types, f) && TypedValue(c.types, f, v)
    requires f.kind.MessageOf? ==> LiftableValue(c, e, deep, f, Fresh(c.types, f, v))
    ensures LiftableValue(c, e, deep, f, v)
  {
  }

  lemma {:induction false} LiftableUpdate(c: Context, e: Context, deep: bool, f: Field, d: Octets, prior: Value)
    requires Evolved(c, e) && WellFormedField(c.types, f) && f.kind.MessageOf? && PlainRule(f.rule)
    requires TypedValue(c.types, f, prior) && !prior.Absent?
    requires UpdateMessage(c, f, d, prior).Some? && LiftableValue(c, e, deep, f, UpdateMessage(c, f, d, prior).value)
    ensures LiftableValue(c, e, deep, f, prior)
    decreases |d|, 2
  {
    hide Liftable, DecodeFrom, Typed;
    if !f.IsList() {
      LiftableBefore(c, e, deep, f.kind.ty, d, Frame(prior.m, {}));
    } else {
      var r := UpdateMessage(c, f, d, prior).value;
      assert forall k :: 0 <= k < |prior.ms| ==> prior.ms[k] == r.ms[k];
    }
  }

  // ---------- both programs on the same octets ----------

  lemma KnownToBoth(c: Context, e: Context, ty: nat, d: Octets)
    requires Evolved(c, e) && ty < |c.types| && ReadRecord(c.types[ty], d).Known?
    ensures ty < |e.types|
    ensures var r := ReadRecord(c.types[ty], d);
            var j := IndexOf(e.types[ty], c.types[ty][r.index].number, 0);
            j.Some? && ReadRecord(e.types[ty], d) == Known(j.value, r.raw, r.size)
  {
    hide Skip, ReadShape, ReadHeader;
    var r := ReadRecord(c.types[ty], d);
    OldPlace(c, e, ty, r.index);
  }

  lemma UnknownToOld(c: Context, e: Context, ty: nat, d: Octets)
    requires Evolved(c, e) && ty < |c.types| && ty < |e.types| && ReadRecord(c.types[ty], d).Unknown?
    ensures var r := ReadRecord(c.types[ty], d);
            var j := IndexOf(e.types[ty], r.number, 0);
            && IndexOf(c.types[ty], r.number, 0).None?
            && (j.None? ==> ReadRecord(e.types[ty], d) == r)
            && (j.Some? && Occurrence(e.types[ty], j.value, d[..r.size])
                ==> ReadRecord(e.types[ty], d) == ReadRecord(e.types[ty], d[..r.size]))
  {
    hide Skip, ReadShape, ReadHeader;
    var r := ReadRecord(c.types[ty], d);
    var j := IndexOf(e.types[ty], r.number, 0);
    if j.Some? && Occurrence(e.types[ty], j.value, d[..r.size]) {
      assert d[..r.size] + d[r.size..] == d;
      RecordAppend(e.types[ty], d[..r.size], d[r.size..]);
    }
  }

  /** The newer program has seen every field that the older one has. */
  predicate SeenToo(c: Context, e: Context, ty: nat, a: set<nat>, b: set<nat>)
    requires ty < |c.types| && ty < |e.types|
  {
    forall i :: i in a && i < |c.types[ty]| ==>
      var j := IndexOf(e.types[ty], c.types[ty][i].number, 0);
      j.Some? && j.value in b
  }

  lemma RequiredSeenToo(c: Context, e: Context, ty: nat, a: set<nat>, b: set<nat>)
    requires Evolved(c, e) && ty < |c.types| && ty < |e.types|
    requires NothingNewRequired(c.types, e.types) && SeenToo(c, e, ty, a, b) && RequiredSeen(c.types[ty], a)
    ensures RequiredSeen(e.types[ty], b)
  {
    hide IndexOf;
    forall j | 0 <= j < |e.types[ty]| && e.types[ty][j].rule.Required? ensures j in b {
      var f := e.types[ty][j];
      assert f in e.types[ty];
      assert f in c.types[ty];
      var i :| 0 <= i < |c.types[ty]| && c.types[ty][i] == f;
      assert i in a;
      KnownThere(e, ty, j);
    }
  }

  /** What the newer program makes of an input follows from what the older one does: when it accepts,
      the messages correspond, and it accepts if it demands nothing new. */
  lemma {:induction false} Simulates(c: Context, e: Context, deep: bool, ty: nat, d: Octets, fo: Frame, fn: Frame)
    requires Evolved(c, e) && Typed(c.types, ty, fo.m) && Typed(e.types, ty, fn.m) && Lifts(c, e, ty, fo.m, fn.m)
    requires DecodeFrom(c, ty, d, fo).Some? && Liftable(c, e, deep, ty, DecodeFrom(c, ty, d, fo).value.m)
    ensures ty < |c.types| && ty < |e.types|
    ensures var o, n := DecodeFrom(c, ty, d, fo).value, DecodeFrom(e, ty, d, fn);
            && (n.Some? ==> Lifts(c, e, ty, o.m, n.value.m))
            && (deep && NothingNewRequired(c.types, e.types) && SeenToo(c, e, ty, fo.seen, fn.seen)
                ==> n.Some? && SeenToo(c, e, ty, o.seen, n.value.seen))
    decreases |d|, 0, 2
  {
    hide Lifts, Liftable, NothingNewRequired, SeenToo, DecodeFrom, FirstStep, ReadRecord, Typed;
    TypedShape(c.types, ty, fo.m);
    TypedShape(e.types, ty, fn.m);
    DecodeEmpty(c, ty, fo);
    DecodeEmpty(e, ty, fn);
    if d != [] {
      DecodeStep(c, ty, d, fo);
      DecodeStep(e, ty, d, fn);
      var size, po := ReadRecord(c.types[ty], d).size, FirstStep(c, ty, d, fo).value;
      LiftableBefore(c, e, deep, ty, d[size..], po);
      StepSimulates(c, e, deep, ty, d, fo, fn);
      if FirstStep(e, ty, d, fn).Some? {
        Simulates(c, e, deep, ty, d[size..], po, FirstStep(e, ty, d, fn).value);
      }
    }
  }

  lemma {:induction false} StepSimulates(c: Context, e: Context, deep: bool, ty: nat, d: Octets, fo: Frame, fn: Frame)
    requires Evolved(c, e) && Typed(c.types, ty, fo.m) && Typed(e.types, ty, fn.m) && Lifts(c, e, ty, fo.m, fn.m)
    requires ty < |c.types| && ty < |e.types|
    requires FirstStep(c, ty, d, fo).Some? && Liftable(c, e, deep, ty, FirstStep(c, ty, d, fo).value.m)
    ensures var o, n := FirstStep(c, ty, d, fo).value, FirstStep(e, ty, d, fn);
            && !ReadRecord(e.types[ty], d).Bad?
            && ReadRecord(e.types[ty], d).size == ReadRecord(c.types[ty], d).size
            && (n.Some? ==> Lifts(c, e, ty, o.m, n.value.m))
            && (n.Some? && SeenToo(c, e, ty, fo.seen, fn.seen) ==> SeenToo(c, e, ty, o.seen, n.value.seen))
            && (deep && NothingNewRequired(c.types, e.types) ==> n.Some?)
    decreases |d|, 0, 1
  {
    hide Lifts, Liftable, NothingNewRequired, SeenToo, AfterKnown, ReadRecord;
    if ReadRecord(c.types[ty], d).Unknown? {
      UnknownStep(c, e, deep, ty, d, fo, fn);
    } else {
      KnownStep(c, e, deep, ty, d, fo, fn);
    }
  }

  lemma UnknownStep(c: Context, e: Context, deep: bool, ty: nat, d: Octets, fo: Frame, fn: Frame)
    requires Evolved(c, e) && Typed(c.types, ty, fo.m) && Typed(e.types, ty, fn.m) && Lifts(c, e, ty, fo.m, fn.m)
    requires ReadRecord(c.types[ty], d).Unknown? && ty < |c.types| && ty < |e.types|
    requires var r := ReadRecord(c.types[ty], d);
             Liftable(c, e, deep, ty, AfterUnknown(c, ty, fo, r.number, d[..r.size]).m)
    ensures var r := ReadRecord(c.types[ty], d);
            var n := FirstStep(e, ty, d, fn);
            && !ReadRecord(e.types[ty], d).Bad? && ReadRecord(e.types[ty], d).size == r.size
            && (n.Some? ==> Lifts(c, e, ty, AfterUnknown(c, ty, fo, r.number, d[..r.size]).m, n.value.m))
            && (n.Some? && SeenToo(c, e, ty, fo.seen, fn.seen) ==> SeenToo(c, e, ty, fo.seen, n.value.seen))
            && (deep ==> n.Some?)
  {
    hide Lifts, Liftable, Update;
    var r := ReadRecord(c.types[ty], d);
    var record, j := d[..r.size], IndexOf(e.types[ty], r.number, 0);
    UnknownToOld(c, e, ty, d);
    if j.None? {
      StoredUnknown(c, e, ty, fo.m, fn.m, r.number, record);
    } else {
      IndexBound(e.types[ty], r.number);
      LiftableReads(c, e, deep, ty, StoreUnknown(fo.m, r.number, record), j.value);
      NewFieldUpdate(c, e, deep, ty, fo.m, fn.m, r.number, record, j.value);
      PriorIsFresh(e, ty, fn, j.value);
      var x := Update(e, e.types[ty][j.value], ReadRecord(e.types[ty], record).raw,
                      Fresh(e.types, e.types[ty][j.value], fn.m.values[j.value]));
      if x.Some? {
        StoredNewField(c, e, ty, fo.m, fn.m, r.number, record, j.value, x.value);
      }
    }
  }

  lemma LiftableReads(c: Context, e: Context, deep: bool, ty: nat, m: Message, j: nat)
    requires Evolved(c, e) && Typed(c.types, ty, m) && Liftable(c, e, deep, ty, m)
    requires ty < |e.types| && j < |e.types[ty]|
    ensures NewFieldReads(c, e, deep, ty, m, j)
  {
  }

  lemma {:induction false} KnownStep(c: Context, e: Context, deep: bool, ty: nat, d: Octets, fo: Frame, fn: Frame)
    requires Evolved(c, e) && Typed(c.types, ty, fo.m) && Typed(e.types, ty, fn.m) && Lifts(c, e, ty, fo.m, fn.m)
    requires ReadRecord(c.types[ty], d).Known? && ty < |c.types| && ty < |e.types|
    requires var r := ReadRecord(c.types[ty], d);
             var o := AfterKnown(c, ty, fo, r.index, r.raw);
             o.Some? && Liftable(c, e, deep, ty, o.value.m)
    ensures var r := ReadRecord(c.types[ty], d);
            var o, n := AfterKnown(c, ty, fo, r.index, r.raw).value, FirstStep(e, ty, d, fn);
            && ReadRecord(e.types[ty], d).Known? && ReadRecord(e.types[ty], d).size == r.size
            && (n.Some? ==> Lifts(c, e, ty, o.m, n.value.m))
            && (n.Some? && SeenToo(c, e, ty, fo.seen, fn.seen) ==> SeenToo(c, e, ty, o.seen, n.value.seen))
            && (deep && NothingNewRequired(c.types, e.types) ==> n.Some?)
    decreases |d|, 0, 0
  {
    hide Lifts, Liftable, Update, NothingNewRequired, IndexOf;
    var r := ReadRecord(c.types[ty], d);
    var i, f := r.index, c.types[ty][r.index];
    KnownToBoth(c, e, ty, d);
    OldPlace(c, e, ty, i);
    IndexBound(e.types[ty], f.number);
    var j := IndexOf(e.types[ty], f.number, 0).value;
    var v, w := Prior(c, ty, fo, i), Prior(e, ty, fn, j);
    PriorLifts(c, e, ty, fo, fn, i, j);
    var v1 := Update(c, f, r.raw, v).value;
    LiftableAt(c, e, deep, ty, AfterKnown(c, ty, fo, i, r.raw).value.m, i);
    UpdateSimulates(c, e, deep, f, r.raw, v, w);
    var w1 := Update(e, f, r.raw, w);
    if w1.Some? {
      SetLifts(c, e, ty, fo.m, fn.m, i, v1, w1.value);
    }
  }

  lemma LiftableAt(c: Context, e: Context, deep: bool, ty: nat, m: Message, i: nat)
    requires Evolved(c, e) && Typed(c.types, ty, m) && Liftable(c, e, deep, ty, m) && i < |m.values|
    ensures LiftableValue(c, e, deep, c.types[ty][i], m.values[i])
  {
  }

  lemma PriorLifts(c: Context, e: Context, ty: nat, fo: Frame, fn: Frame, i: nat, j: nat)
    requires Evolved(c, e) && Typed(c.types, ty, fo.m) && Typed(e.types, ty, fn.m) && Lifts(c, e, ty, fo.m, fn.m)
    requires i < |c.types[ty]| && IndexOf(e.types[ty], c.types[ty][i].number, 0) == Some(j) && j < |e.types[ty]|
    requires e.types[ty][j] == c.types[ty][i]
    ensures ValueLifts(c, e, c.types[ty][i], Prior(c, ty, fo, i), Prior(e, ty, fn, j))
  {
    hide ValueLifts, Fresh, GetForUpdate;
    OldIsPlain(c, e);
    PriorIsFresh(c, ty, fo, i);
    PriorIsFresh(e, ty, fn, j);
    assert OldFieldIs(c, e, ty, fo.m, i, fn.m);
    FreshLifts(c, e, c.types[ty][i], fo.m.values[i], fn.m.values[j]);
  }

  lemma {:induction false} UpdateSimulates(c: Context, e: Context, deep: bool, f: Field, raw: Raw, v: Value, w: Value)
    requires Evolved(c, e) && WellFormedField(c.types, f) && WellFormedField(e.types, f) && PlainRule(f.rule)
    requires TypedValue(c.types, f, v) && TypedValue(e.types, f, w) && !v.Absent? && !w.Absent? && Acceptable(f, raw)
    requires ValueLifts(c, e, f, v, w)
    requires Update(c, f, raw, v).Some? && LiftableValue(c, e, deep, f, Update(c, f, raw, v).value)
    ensures var x := Update(e, f, raw, w);
            && (x.Some? ==> ValueLifts(c, e, f, Update(c, f, raw, v).value, x.value))
            && (deep && NothingNewRequired(c.types, e.types) ==> x.Some?)
    decreases RawSize(raw), 3
  {
    if f.kind.MessageOf? {
      hide Lifts, Liftable, NothingNewRequired, UpdateMessage, ReadPacked;
      MessageSimulates(c, e, deep, f, raw.d, v, w);
    } else {
      hide ReadPacked, FromWire, UpdateMessage;
    }
  }

  lemma {:induction false} MessageSimulates(c: Context, e: Context, deep: bool, f: Field, d: Octets, v: Value, w: Value)
    requires Evolved(c, e) && WellFormedField(c.types, f) && WellFormedField(e.types, f) && PlainRule(f.rule)
    requires TypedValue(c.types, f, v) && TypedValue(e.types, f, w) && !v.Absent? && !w.Absent?
    requires f.kind.MessageOf? && ValueLifts(c, e, f, v, w)
    requires UpdateMessage(c, f, d, v).Some? && LiftableValue(c, e, deep, f, UpdateMessage(c, f, d, v).value)
    ensures var x := UpdateMessage(e, f, d, w);
            && (x.Some? ==> ValueLifts(c, e, f, UpdateMessage(c, f, d, v).value, x.value))
            && (deep && NothingNewRequired(c.types, e.types) ==> x.Some?)
    decreases |d|, 2
  {
    hide Lifts, Liftable, NothingNewRequired, DecodeFrom, Decode, Typed;
    var ty := f.kind.ty;
    if !f.IsList() {
      DecodeSimulates(c, e, deep, ty, d, v.m, w.m);
    } else {
      DefaultLifts(c, e, ty);
      assert UpdateMessage(c, f, d, v).value.ms[|v.ms|] == Decode(c, ty, d, Default(c.types[ty])).value;
      DecodeSimulates(c, e, deep, ty, d, Default(c.types[ty]), Default(e.types[ty]));
    }
  }

  lemma {:induction false} DecodeSimulates(c: Context, e: Context, deep: bool, ty: nat, d: Octets, m: Message,
                                           w: Message)
    requires Evolved(c, e) && Typed(c.types, ty, m) && Typed(e.types, ty, w) && Lifts(c, e, ty, m, w)
    requires Decode(c, ty, d, m).Some? && Liftable(c, e, deep, ty, Decode(c, ty, d, m).value)
    ensures var o, n := Decode(c, ty, d, m).value, Decode(e, ty, d, w);
            && (n.Some? ==> Lifts(c, e, ty, o, n.value))
            && (deep && NothingNewRequired(c.types, e.types) ==> n.Some?)
    decreases |d|, 1
  {
    hide Lifts, Liftable, NothingNewRequired, DecodeFrom, SeenToo, RequiredSeen;
    Simulates(c, e, deep, ty, d, Frame(m, {}), Frame(w, {}));
    NothingSeen(c, e, ty);
    var o, n := DecodeFrom(c, ty, d, Frame(m, {})).value, DecodeFrom(e, ty, d, Frame(w, {}));
    if deep && NothingNewRequired(c.types, e.types) {
      RequiredSeenToo(c, e, ty, o.seen, n.value.seen);
    }
  }

  lemma NothingSeen(c: Context, e: Context, ty: nat)
    requires ty < |c.types| && ty < |e.types|
    ensures SeenToo(c, e, ty, {}, {})
  {
  }

  // ---------- forwarding ----------

  /** A message that has a newer counterpart can be interpreted in full. */
  lemma {:induction false} LiftsDeep(c: Context, e: Context, ty: nat, m: Message, w: Message)
    requires Evolved(c, e) && Typed(c.types, ty, m) && Typed(e.types, ty, w) && Lifts(c, e, ty, m, w)
    requires Liftable(c, e, false, ty, m)
    ensures Liftable(c, e, true, ty, m)
    decreases m, 1
  {
    hide Folded, IndexOf, RecordsOf, Occurrence;
    forall j | 0 <= j < |e.types[ty]| ensures NewFieldReads(c, e, true, ty, m, j) {
      assert NewFieldReads(c, e, false, ty, m, j) && NewFieldIs(c, e, ty, m, j, w.values[j]);
    }
    forall i | 0 <= i < |m.values| ensures LiftableValue(c, e, true, c.types[ty][i], m.values[i]) {
      assert LiftableValue(c, e, false, c.types[ty][i], m.values[i]) && OldFieldIs(c, e, ty, m, i, w);
      OldPlace(c, e, ty, i);
      IndexBound(e.types[ty], c.types[ty][i].number);
      var j := IndexOf(e.types[ty], c.types[ty][i].number, 0).value;
      ValueLiftsDeep(c, e, c.types[ty][i], m.values[i], w.values[j]);
    }
  }

  lemma {:induction false} ValueLiftsDeep(c: Context, e: Context, f: Field, v: Value, w: Value)
    requires Evolved(c, e) && TypedValue(c.types, f, v) && TypedValue(e.types, f, w) && ValueLifts(c, e, f, v, w)
    requires LiftableValue(c, e, false, f, v)
    ensures LiftableValue(c, e, true, f, v)
    decreases v, 0
  {
    hide Lifts, Liftable;
    match v
    case Sub(m) => LiftsDeep(c, e, f.kind.ty, m, w.m);
    case Subs(ms) =>
      forall k | 0 <= k < |ms| ensures Liftable(c, e, true, f.kind.ty, ms[k]) {
        LiftsDeep(c, e, f.kind.ty, ms[k], w.ms[k]);
      }
    case _ =>
  }

  /** Two inputs that the older program decodes to the same message are the same message to the newer
      one, whenever it accepts both; and it accepts both or neither if it demands nothing new. */
  lemma SameToBoth(c: Context, e: Context, ty: nat, d: Octets, again: Octets, m: Message)
    requires Evolved(c, e) && ty < |c.types| && ty < |e.types|
    requires Typed(c.types, ty, Default(c.types[ty])) && Typed(e.types, ty, Default(e.types[ty]))
    requires Decode(c, ty, d, Default(c.types[ty])) == Some(m) == Decode(c, ty, again, Default(c.types[ty]))
    requires Liftable(c, e, false, ty, m)
    ensures var a, b := Decode(e, ty, d, Default(e.types[ty])), Decode(e, ty, again, Default(e.types[ty]));
            && (a.Some? && b.Some? ==> a == b)
            && (NothingNewRequired(c.types, e.types) ==> a == b)
  {
    hide Lifts, Liftable, NothingNewRequired, Typed, Decode;
    DefaultLifts(c, e, ty);
    DecodeSimulates(c, e, false, ty, d, Default(c.types[ty]), Default(e.types[ty]));
    DecodeSimulates(c, e, false, ty, again, Default(c.types[ty]), Default(e.types[ty]));
    var a, b := Decode(e, ty, d, Default(e.types[ty])), Decode(e, ty, again, Default(e.types[ty]));
    if a.Some? || b.Some? {
      LiftsDeep(c, e, ty, m, if a.Some? then a.value else b.value);
      DecodeSimulates(c, e, true, ty, d, Default(c.types[ty]), Default(e.types[ty]));
      DecodeSimulates(c, e, true, ty, again, Default(c.types[ty]), Default(e.types[ty]));
    }
    if a.Some? && b.Some? {
      LiftsOnce(c, e, ty, m, a.value, b.value);
    }
  }

  lemma PlainSettles(types: Types)
    requires Plain(types)
    ensures MapsSettle(types)
  {
    forall k, i | 0 <= k < |types| && 0 <= i < |types[k]| ensures MapSettles(types, types[k][i]) {
      PlainField(types, k, i);
    }
  }

  /** What the older program made of the octets, encoded again by it, is for the newer program the
      same message as the octets themselves. */
  lemma Forwarding(c: Context, e: Context, ty: nat, d: Octets, m: Message)
    requires Evolved(c, e) && ty < |c.types| && ty < |e.types|
    requires Typed(c.types, ty, Default(c.types[ty])) && Typed(e.types, ty, Default(e.types[ty]))
    requires Decode(c, ty, d, Default(c.types[ty])) == Some(m)
    requires Liftable(c, e, false, ty, m) && NoNegativeZero(c, ty, m) && |Encode(c, ty, m, {}, true)| < TWO_TO_31
    ensures var direct := Decode(e, ty, d, Default(e.types[ty]));
            var forwarded := Decode(e, ty, Encode(c, ty, m, {}, true), Default(e.types[ty]));
            && (direct.Some? && forwarded.Some? ==> forwarded == direct)
            && (NothingNewRequired(c.types, e.types) ==> forwarded == direct)
  {
    hide Liftable, NothingNewRequired, NoNegativeZero, Typed, Decode, Encode;
    OldIsPlain(c, e);
    PlainSettles(c.types);
    Reencoded(c, ty, d, m);
    SameToBoth(c, e, ty, d, Encode(c, ty, m, {}, true), m);
  }
}
