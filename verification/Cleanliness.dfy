/** Decoding keeps the store in order: what comes out of a decoder can be encoded and read back. */
module Cleanliness {
  import opened Octets
  import opened Scalars
  import opened Schema
  import opened Records
  import opened Decoder
  import opened RoundTrip
  import opened ReadBack

  // ---------- unknown records ----------

  predicate Lacks(groups: seq<Group>, number: nat) {
    forall k :: 0 <= k < |groups| ==> groups[k].number != number
  }

  lemma {:induction false} StoreLacks(groups: seq<Group>, number: nat, record: Octets, other: nat)
    requires Lacks(groups, other) && number != other
    ensures Lacks(Store(groups, number, record), other)
    decreases |groups|
  {
    if groups != [] && groups[0].number != number {
      StoreLacks(groups[1..], number, record, other);
    }
  }

  lemma CleanGroupsCons(t: MessageType, g: Group, rest: seq<Group>)
    requires CleanGroup(t, g) && Lacks(rest, g.number) && CleanGroups(t, rest)
    ensures CleanGroups(t, [g] + rest)
  {
    hide CleanGroup;
    var r := [g] + rest;
    forall k | 0 <= k < |r| ensures CleanGroup(t, r[k]) {
      assert k > 0 ==> r[k] == rest[k - 1];
    }
    forall j, k | 0 <= j < k < |r| ensures r[j].number != r[k].number {
      assert r[k] == rest[k - 1] && (j > 0 ==> r[j] == rest[j - 1]);
    }
  }

  lemma CleanGroupMore(t: MessageType, g: Group, record: Octets)
    requires (g.records == [] || CleanGroup(t, g)) && UnknownRecord(t, g.number, record)
    ensures CleanGroup(t, g.(records := g.records + [record]))
  {
  }

  lemma {:induction false} StoredClean(t: MessageType, groups: seq<Group>, number: nat, record: Octets)
    requires CleanGroups(t, groups) && UnknownRecord(t, number, record)
    ensures CleanGroups(t, Store(groups, number, record))
    decreases |groups|
  {
    hide CleanGroup, UnknownRecord;
    if groups == [] {
      CleanGroupMore(t, Group(number, []), record);
      assert [] + [record] == [record];
    } else {
      var g, rest := groups[0], groups[1..];
      assert Lacks(rest, g.number) && CleanGroup(t, g) && CleanGroups(t, rest);
      if g.number == number {
        CleanGroupMore(t, g, record);
        CleanGroupsCons(t, g.(records := g.records + [record]), rest);
      } else {
        StoredClean(t, rest, number, record);
        StoreLacks(rest, number, record, g.number);
        CleanGroupsCons(t, g, Store(rest, number, record));
      }
    }
  }

  lemma UnknownKeepsClean(cx: Context, ty: nat, fr: Frame, number: nat, size: nat, d: Octets)
    requires WellFormed(cx.types) && Typed(cx.types, ty, fr.m) && Clean(cx, ty, fr.m)
    requires size <= |d| && ReadRecord(cx.types[ty], d) == Unknown(number, size)
    ensures Clean(cx, ty, AfterUnknown(cx, ty, fr, number, d[..size]).m)
  {
    RecordWindow(cx.types[ty], d, size);
    StoredClean(cx.types[ty], fr.m.unknown, number, d[..size]);
  }

  // ---------- known fields ----------

  lemma SetKeepsClean(cx: Context, ty: nat, m: Message, i: nat, v: Value)
    requires WellFormed(cx.types) && Typed(cx.types, ty, m) && Clean(cx, ty, m) && i < |cx.types[ty]|
    requires TypedValue(cx.types, cx.types[ty][i], v) && CleanValue(cx, cx.types[ty][i], v) && !v.Absent?
    ensures Typed(cx.types, ty, Set(cx.types[ty], m, i, v)) && Clean(cx, ty, Set(cx.types[ty], m, i, v))
  {
    hide Typed, TypedValue;
    TypedShape(cx.types, ty, m);
    SetTyped(cx.types, ty, m, i, v);
    SetExclusive(cx.types[ty], m, i, v);
  }

  lemma SetExclusive(t: MessageType, m: Message, i: nat, v: Value)
    requires |m.values| == |t| && OneofsExclusive(t, m) && i < |t|
    ensures OneofsExclusive(t, Set(t, m, i, v))
  {
  }

  lemma PriorClean(cx: Context, ty: nat, m: Message, i: nat)
    requires WellFormed(cx.types) && Typed(cx.types, ty, m) && Clean(cx, ty, m) && i < |cx.types[ty]|
    requires WellFormedField(cx.types, cx.types[ty][i])
    requires TypedValue(cx.types, cx.types[ty][i], GetForUpdate(cx.types, cx.types[ty], m, i))
    ensures CleanValue(cx, cx.types[ty][i], GetForUpdate(cx.types, cx.types[ty], m, i))
  {
    var f := cx.types[ty][i];
    if m.values[i].Absent? && f.kind.MessageOf? {
      DefaultClean(cx, f.kind.ty);
    }
  }

  predicate DistinctKeys(ms: seq<Message>) {
    forall j, k :: 0 <= j < k < |ms| ==> !SameKey(ms[j], ms[k])
  }

  predicate LacksKey(ms: seq<Message>, e: Message) {
    forall k :: 0 <= k < |ms| ==> !SameKey(e, ms[k])
  }

  lemma DistinctKeysCons(e: Message, rest: seq<Message>)
    requires LacksKey(rest, e) && DistinctKeys(rest)
    ensures DistinctKeys([e] + rest)
  {
    hide SameKey;
    var r := [e] + rest;
    forall j, k | 0 <= j < k < |r| ensures !SameKey(r[j], r[k]) {
      assert r[k] == rest[k - 1] && (j > 0 ==> r[j] == rest[j - 1]);
    }
  }

  lemma {:induction false} InsertLacks(entries: seq<Message>, entry: Message, e: Message)
    requires entry.values != [] && LacksKey(entries, e) && !SameKey(e, entry)
    ensures LacksKey(Insert(entries, entry), e)
    decreases |entries|
  {
    if entries != [] && !HasKey(entries[0], entry.values[0]) {
      InsertLacks(entries[1..], entry, e);
    }
  }

  lemma {:induction false} InsertDistinct(entries: seq<Message>, entry: Message)
    requires entry.values != [] && DistinctKeys(entries)
    requires forall k :: 0 <= k < |entries| ==> entries[k].values != []
    ensures DistinctKeys(Insert(entries, entry))
    decreases |entries|
  {
    if entries != [] {
      var e, rest := entries[0], entries[1..];
      assert LacksKey(rest, e) && DistinctKeys(rest);
      if HasKey(e, entry.values[0]) {
        assert LacksKey(rest, entry);
        DistinctKeysCons(entry, rest);
      } else {
        InsertDistinct(rest, entry);
        InsertLacks(rest, entry, e);
        DistinctKeysCons(e, Insert(rest, entry));
      }
    }
  }

  lemma {:induction false} InsertMember(entries: seq<Message>, entry: Message, k: nat)
    requires entry.values != [] && k < |Insert(entries, entry)|
    ensures Insert(entries, entry)[k] == entry || Insert(entries, entry)[k] in entries
    decreases |entries|
  {
    if entries != [] && !HasKey(entries[0], entry.values[0]) && k > 0 {
      InsertMember(entries[1..], entry, k - 1);
    }
  }

  lemma CompleteClean(cx: Context, ty: nat, e: Message)
    requires WellFormed(cx.types) && Typed(cx.types, ty, e) && Clean(cx, ty, e) && EntryType(cx.types[ty])
    requires cx.types[ty][1].kind.MessageOf? ==> cx.types[ty][1].kind.ty < |cx.types|
    ensures var r := Complete(cx.types, ty, e);
            Typed(cx.types, ty, r) && Clean(cx, ty, r) && CleanEntry(r)
  {
    var t, r := cx.types[ty], Complete(cx.types, ty, e);
    assert TypedValue(cx.types, t[0], e.values[0]) && TypedValue(cx.types, t[1], e.values[1]);
    assert CleanValue(cx, t[0], e.values[0]) && CleanValue(cx, t[1], e.values[1]);
    if t[1].kind.MessageOf? {
      DefaultClean(cx, t[1].kind.ty);
    }
    forall i | 0 <= i < |t| ensures TypedValue(cx.types, t[i], r.values[i]) {
    }
    assert OneofsExclusive(t, r);
  }

  lemma AddedClean(cx: Context, f: Field, ms: seq<Message>, m: Message)
    requires WellFormed(cx.types) && WellFormedField(cx.types, f) && f.kind.MessageOf? && f.IsList()
    requires TypedValue(cx.types, f, Subs(ms)) && CleanValue(cx, f, Subs(ms))
    requires Typed(cx.types, f.kind.ty, m) && Clean(cx, f.kind.ty, m)
    ensures CleanValue(cx, f, Subs(Added(cx.types, f, ms, m)))
  {
    hide Clean, Typed, Insert;
    if f.rule.Map? {
      TypedShape(cx.types, f.kind.ty, m);
      CompleteClean(cx, f.kind.ty, m);
      var entry := Complete(cx.types, f.kind.ty, m);
      var r := Insert(ms, entry);
      PushTyped(cx.types, f.kind.ty, ms, m);
      InsertDistinct(ms, entry);
      forall k | 0 <= k < |r|
        ensures Typed(cx.types, f.kind.ty, r[k]) && Clean(cx, f.kind.ty, r[k]) && CleanEntry(r[k])
      {
        InsertMember(ms, entry, k);
      }
    }
  }

  lemma {:induction false} UpdateClean(cx: Context, f: Field, d: Octets, prior: Value)
    requires WellFormed(cx.types) && WellFormedField(cx.types, f) && f.kind.MessageOf?
    requires TypedValue(cx.types, f, prior) && !prior.Absent? && CleanValue(cx, f, prior)
    ensures var r := UpdateMessage(cx, f, d, prior); r.Some? ==> CleanValue(cx, f, r.value)
    decreases |d|, 2
  {
    hide Clean, Typed;
    var ty := f.kind.ty;
    if !f.IsList() {
      DecodedClean(cx, ty, d, prior.m);
    } else {
      DefaultClean(cx, ty);
      var r := Decode(cx, ty, d, Default(cx.types[ty]));
      DecodedClean(cx, ty, d, Default(cx.types[ty]));
      if r.Some? {
        AddedClean(cx, f, prior.ms, r.value);
      }
    }
  }

  lemma {:induction false} KnownKeepsClean(cx: Context, ty: nat, fr: Frame, i: nat, raw: Raw)
    requires WellFormed(cx.types) && Typed(cx.types, ty, fr.m) && Clean(cx, ty, fr.m) && i < |cx.types[ty]|
    requires Acceptable(cx.types[ty][i], raw)
    ensures var r := AfterKnown(cx, ty, fr, i, raw); r.Some? ==> Clean(cx, ty, r.value.m)
    decreases RawSize(raw), 4
  {
    TypedShape(cx.types, ty, fr.m);
    hide Clean, Typed, UpdateMessage;
    var f, prior := cx.types[ty][i], Prior(cx, ty, fr, i);
    PriorClean(cx, ty, fr.m, i);
    var v := Update(cx, f, raw, prior);
    if v.Some? {
      if f.kind.MessageOf? {
        UpdateClean(cx, f, raw.d, prior);
      }
      SetKeepsClean(cx, ty, fr.m, i, v.value);
    }
  }

  lemma {:induction false} FrameClean(cx: Context, ty: nat, d: Octets, fr: Frame)
    requires WellFormed(cx.types) && Typed(cx.types, ty, fr.m) && Clean(cx, ty, fr.m)
    ensures var r := DecodeFrom(cx, ty, d, fr); r.Some? ==> Clean(cx, ty, r.value.m)
    decreases |d|, 0
  {
    TypedShape(cx.types, ty, fr.m);
    hide Clean, Typed, AfterKnown;
    if d != [] {
      match ReadRecord(cx.types[ty], d)
      case Bad =>
      case Unknown(number, size) =>
        UnknownKeepsClean(cx, ty, fr, number, size, d);
        FrameClean(cx, ty, d[size..], AfterUnknown(cx, ty, fr, number, d[..size]));
      case Known(i, raw, size) =>
        KnownKeepsClean(cx, ty, fr, i, raw);
        if AfterKnown(cx, ty, fr, i, raw).Some? {
          FrameClean(cx, ty, d[size..], AfterKnown(cx, ty, fr, i, raw).value);
        }
    }
  }

  /** Whatever is decoded into a clean message leaves a clean message: oneofs hold one member, maps
      one entry a key, and every stored record reads as unknown. */
  lemma {:induction false} DecodedClean(cx: Context, ty: nat, d: Octets, m: Message)
    requires WellFormed(cx.types) && Typed(cx.types, ty, m) && Clean(cx, ty, m)
    ensures var r := Decode(cx, ty, d, m); r.Some? ==> Clean(cx, ty, r.value)
    decreases |d|, 1
  {
    FrameClean(cx, ty, d, Frame(m, {}));
  }
}
