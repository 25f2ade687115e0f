/**
 Message types, messages, and the typed property store a message is.

 A message type is the list of its fields in metadata order. A message holds one value per field
 and the raw records it could not interpret, grouped by field number. The containers that the
 program hashes (maps and unknown records) are listed in the order their iterator visits them, so
 a statement about every message is a statement about every iteration order.
 */
module Schema {
  import opened Octets
  import opened Scalars

  const MAX_FIELD_NUMBER: nat := 0x1fff_ffff

  datatype Rule =
    | Implicit            // zero and absent are one
    | Optional            // tracked presence
    | Required
    | Oneof(group: nat)
    | Repeated(packed: bool)
    | Map                 // a list of entry messages with distinct keys
    | Entry               // the two fields of a map entry

  datatype Field = Field(number: nat, kind: Kind, rule: Rule)
  {
    predicate IsList() {
      rule.Repeated? || rule.Map?
    }

    predicate IsSingularMessage() {
      kind.MessageOf? && !IsList()
    }

    /** A default value is written all the same. */
    predicate WritesDefault() {
      rule.Optional? || rule.Required? || rule.Oneof? || rule.Entry?
    }

    /** The store tells an unset field from one set to its default. */
    predicate TracksPresence() {
      !IsList() && (kind.MessageOf? || rule.Optional? || rule.Oneof?)
    }
  }

  type MessageType = seq<Field>

  type Types = seq<MessageType>

  datatype Group = Group(number: nat, records: seq<Octets>)

  datatype Message = Message(values: seq<Value>, unknown: seq<Group>)

  datatype Value =
    | Absent
    | Num(n: int)
    | Text(d: Octets)
    | Sub(m: Message)
    | Nums(ns: seq<int>)
    | Texts(ds: seq<Octets>)
    | Subs(ms: seq<Message>)

  // ---------- well-formed schemas ----------

  predicate LegalNumber(n: nat) {
    1 <= n <= MAX_FIELD_NUMBER && !(19000 <= n <= 19999)
  }

  predicate DistinctNumbers(t: MessageType) {
    forall i, j :: 0 <= i < j < |t| ==> t[i].number != t[j].number
  }

  predicate EntryType(t: MessageType) {
    |t| == 2 && t[0].rule == t[1].rule == Entry && t[0].number == 1 && t[1].number == 2
    && !t[0].kind.MessageOf?
  }

  predicate WellFormedField(types: Types, f: Field) {
    && LegalNumber(f.number)
    && (f.kind.MessageOf? ==> f.kind.ty < |types|)
    && (f.rule.Map? ==> f.kind.MessageOf? && EntryType(types[f.kind.ty]))
  }

  predicate WellFormedType(types: Types, t: MessageType) {
    DistinctNumbers(t) && forall i :: 0 <= i < |t| ==> WellFormedField(types, t[i])
  }

  predicate WellFormed(types: Types) {
    forall k :: 0 <= k < |types| ==> WellFormedType(types, types[k])
  }

  // ---------- well-typed messages ----------

  function DefaultValue(f: Field): Value {
    if f.IsList() then
      if f.kind.MessageOf? then Subs([]) else if f.kind.Bytes? then Texts([]) else Nums([])
    else if f.TracksPresence() then Absent
    else if f.kind.Bytes? then Text([])
    else Num(0)
  }

  function Default(t: MessageType): (m: Message)
    ensures |m.values| == |t|
  {
    Message(seq(|t|, i requires 0 <= i < |t| => DefaultValue(t[i])), [])
  }

  predicate Typed(types: Types, ty: nat, m: Message)
    decreases m
  {
    && ty < |types|
    && |m.values| == |types[ty]|
    && forall i :: 0 <= i < |m.values| ==> TypedValue(types, types[ty][i], m.values[i])
  }

  predicate TypedValue(types: Types, f: Field, v: Value)
    decreases v
  {
    match v
    case Absent => f.TracksPresence()
    case Num(n) => !f.IsList() && InRange(f.kind, n)
    case Text(_) => !f.IsList() && f.kind.Bytes?
    case Sub(m) => !f.IsList() && f.kind.MessageOf? && Typed(types, f.kind.ty, m)
    case Nums(ns) => f.rule.Repeated? && AllInRange(f.kind, ns) && f.kind.IsNumeric()
    case Texts(_) => f.rule.Repeated? && f.kind.Bytes?
    case Subs(ms) =>
      f.IsList() && f.kind.MessageOf? && forall k :: 0 <= k < |ms| ==> Typed(types, f.kind.ty, ms[k])
  }

  lemma TypedShape(types: Types, ty: nat, m: Message)
    requires Typed(types, ty, m)
    ensures ty < |types| && |m.values| == |types[ty]|
  {
  }

  lemma DefaultTyped(types: Types, ty: nat)
    requires WellFormed(types) && ty < |types|
    ensures Typed(types, ty, Default(types[ty]))
  {
    var t := types[ty];
    assert WellFormedType(types, t);
    forall i | 0 <= i < |t|
      ensures TypedValue(types, t[i], DefaultValue(t[i]))
    {
      assert WellFormedField(types, t[i]);
    }
  }

  // ---------- the property store ----------

  predicate SameGroup(f: Field, g: Field) {
    f.rule.Oneof? && g.rule.Oneof? && f.rule.group == g.rule.group
  }

  /** The member of the field's oneof, from index `j` on, that holds a message of the same type.
      The one variant behind a oneof is reused whenever its type already fits. */
  function Sibling(t: MessageType, m: Message, i: nat, j: nat): (r: Option<nat>)
    requires |m.values| == |t| && i < |t| && j <= |t|
    ensures r.Some? ==> r.value < |t| && SameGroup(t[i], t[r.value])
                        && t[r.value].kind == t[i].kind && m.values[r.value].Sub?
    ensures r.None? ==> forall k :: j <= k < |t| && SameGroup(t[i], t[k]) && m.values[k].Sub?
                                    ==> t[k].kind != t[i].kind
    decreases |t| - j
  {
    if j == |t| then None
    else if SameGroup(t[i], t[j]) && t[j].kind == t[i].kind && m.values[j].Sub? then Some(j)
    else Sibling(t, m, i, j + 1)
  }

  /** messageProperty with initialisation allowed: never `Absent`. */
  function GetForUpdate(types: Types, t: MessageType, m: Message, i: nat): (v: Value)
    requires |m.values| == |t| && i < |t|
    requires t[i].kind.MessageOf? ==> t[i].kind.ty < |types|
    ensures !v.Absent?
  {
    var f := t[i];
    if !m.values[i].Absent? then m.values[i]
    else if f.kind.MessageOf? then
      match Sibling(t, m, i, 0)
      case Some(j) => m.values[j]
      case None => Sub(Default(types[f.kind.ty]))
    else if f.kind.Bytes? then Text([])
    else Num(0)
  }

  /** setMessageProperty: writing a oneof member unsets the others. */
  function Set(t: MessageType, m: Message, i: nat, v: Value): (r: Message)
    requires |m.values| == |t| && i < |t|
    ensures |r.values| == |t| && r.values[i] == v && r.unknown == m.unknown
    ensures forall j :: 0 <= j < |t| && j != i ==>
              r.values[j] == if SameGroup(t[i], t[j]) then Absent else m.values[j]
  {
    m.(values := seq(|t|, j requires 0 <= j < |t| =>
                       if j == i then v else if SameGroup(t[i], t[j]) then Absent else m.values[j]))
  }

  /** A value that was set is the value read back for update. */
  lemma GetAfterSet(types: Types, t: MessageType, m: Message, i: nat, v: Value)
    requires |m.values| == |t| && i < |t| && !v.Absent?
    requires t[i].kind.MessageOf? ==> t[i].kind.ty < |types|
    ensures GetForUpdate(types, t, Set(t, m, i, v), i) == v
  {
  }

  /** The last of two writes to a field wins. */
  lemma SetAfterSet(t: MessageType, m: Message, i: nat, v: Value, w: Value)
    requires |m.values| == |t| && i < |t|
    ensures Set(t, Set(t, m, i, v), i, w) == Set(t, m, i, w)
  {
    assert Set(t, Set(t, m, i, v), i, w).values == Set(t, m, i, w).values;
  }

  lemma SetTyped(types: Types, ty: nat, m: Message, i: nat, v: Value)
    requires Typed(types, ty, m) && i < |types[ty]| && TypedValue(types, types[ty][i], v)
    ensures Typed(types, ty, Set(types[ty], m, i, v))
  {
  }

  lemma GetForUpdateTyped(types: Types, ty: nat, m: Message, i: nat)
    requires WellFormed(types) && Typed(types, ty, m) && i < |types[ty]|
    requires types[ty][i].kind.MessageOf? ==> types[ty][i].kind.ty < |types|
    ensures TypedValue(types, types[ty][i], GetForUpdate(types, types[ty], m, i))
  {
    var f := types[ty][i];
    assert TypedValue(types, f, m.values[i]);
    if m.values[i].Absent? {
      if f.kind.MessageOf? {
        DefaultTyped(types, f.kind.ty);
        var s := Sibling(types[ty], m, i, 0);
        if s.Some? {
          assert TypedValue(types, types[ty][s.value], m.values[s.value]);
        }
      }
    }
  }

  // ---------- unknown records ----------

  /** unknownEntries[number].append(record): a new number goes last. */
  function Store(groups: seq<Group>, number: nat, record: Octets): (r: seq<Group>)
    ensures |r| >= |groups|
  {
    if groups == [] then [Group(number, [record])]
    else if groups[0].number == number then
      [groups[0].(records := groups[0].records + [record])] + groups[1..]
    else [groups[0]] + Store(groups[1..], number, record)
  }

  function StoreUnknown(m: Message, number: nat, record: Octets): Message {
    m.(unknown := Store(m.unknown, number, record))
  }

  // ---------- map entries ----------

  /** MapIterator::push: an entry replaces the one with its key; the unknown records that the
      scratch entry has collected stay behind, and a message value that never came is a default one. */
  function Push(types: Types, ty: nat, entries: seq<Message>, entry: Message): (r: seq<Message>)
    requires ty < |types| && EntryType(types[ty]) && |entry.values| == 2
    requires types[ty][1].kind.MessageOf? ==> types[ty][1].kind.ty < |types|
  {
    Insert(entries, Complete(types, ty, entry))
  }

  function Complete(types: Types, ty: nat, entry: Message): (r: Message)
    requires ty < |types| && EntryType(types[ty]) && |entry.values| == 2
    requires types[ty][1].kind.MessageOf? ==> types[ty][1].kind.ty < |types|
    ensures |r.values| == 2 && r.values[0] == entry.values[0] && r.unknown == []
  {
    var value := if entry.values[1].Absent? && types[ty][1].kind.MessageOf?
                 then Sub(Default(types[types[ty][1].kind.ty]))
                 else entry.values[1];
    Message([entry.values[0], value], [])
  }

  predicate HasKey(entry: Message, key: Value) {
    entry.values != [] && entry.values[0] == key
  }

  function Insert(entries: seq<Message>, entry: Message): (r: seq<Message>)
    requires entry.values != []
  {
    if entries == [] then [entry]
    else if HasKey(entries[0], entry.values[0]) then [entry] + entries[1..]
    else [entries[0]] + Insert(entries[1..], entry)
  }
}
