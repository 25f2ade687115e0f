/** What the round trip amounts to for a caller of the serializer. */
module Consequences {
  import opened Octets
  import opened Varint
  import opened Scalars
  import opened Schema
  import opened Records
  import opened Decoder
  import opened Encoder
  import opened RoundTrip
  import opened ReadBack

  // ---------- exactly which messages come back unchanged ----------

  /** Nothing for the encoder to make up or to lose, at any depth. */
  predicate Settled(cx: Context, ty: nat, m: Message)
    requires WellFormed(cx.types) && Typed(cx.types, ty, m)
    decreases m
  {
    && (cx.keepUnknown || m.unknown == [])
    && forall i :: 0 <= i < |m.values| ==> SettledValue(cx, cx.types[ty][i], m.values[i])
  }

  /** Not an unset required sub-message, and not a negative zero without presence. */
  predicate SettledValue(cx: Context, f: Field, v: Value)
    requires WellFormed(cx.types) && TypedValue(cx.types, f, v)
    decreases v
  {
    match v
    case Absent => !(f.kind.MessageOf? && f.rule.Required?)
    case Num(n) => f.WritesDefault() || !LooksDefault(f.kind, n) || n == 0
    case Sub(m) => Settled(cx, f.kind.ty, m)
    case Subs(ms) => forall k :: 0 <= k < |ms| ==> Settled(cx, f.kind.ty, ms[k])
    case _ => true
  }

  lemma {:induction false} RereadSame(cx: Context, ty: nat, m: Message, guard: set<nat>)
    requires WellFormed(cx.types) && Typed(cx.types, ty, m)
    ensures Reread(cx, ty, m, guard) == Some(m) <==> Settled(cx, ty, m)
    decreases m, 2
  {
    FieldsSame(cx, ty, m, guard, 0);
    assert m.values[0..] == m.values;
    match RereadFields(cx, ty, m, guard, 0)
    case None =>
    case Some(vs) => assert m == Message.Message(m.values, m.unknown);
  }

  lemma {:induction false} FieldsSame(cx: Context, ty: nat, m: Message, guard: set<nat>, i: nat)
    requires WellFormed(cx.types) && Typed(cx.types, ty, m) && i <= |m.values|
    ensures RereadFields(cx, ty, m, guard, i) == Some(m.values[i..])
            <==> forall j :: i <= j < |m.values| ==> SettledValue(cx, cx.types[ty][j], m.values[j])
    decreases m, 1, |m.values| - i
  {
    hide RereadField, SettledValue;
    if i < |m.values| {
      var f, v := cx.types[ty][i], m.values[i];
      FieldSame(cx, f, v, guard);
      FieldsSame(cx, ty, m, guard, i + 1);
      assert m.values[i..] == [v] + m.values[i + 1..];
      match (Kept(f, RereadField(cx, f, v, guard)), RereadFields(cx, ty, m, guard, i + 1))
      case (Some(w), Some(vs)) => assert ([w] + vs)[0] == w && ([w] + vs)[1..] == vs;
      case _ =>
    } else {
      assert m.values[i..] == [];
    }
  }

  function Kept(f: Field, o: Outcome): Option<Value> {
    match o
    case Failed => None
    case Skipped => if f.rule.Required? then None else Some(DefaultValue(f))
    case Stored(v) => Some(v)
  }

  lemma {:induction false} FieldSame(cx: Context, f: Field, v: Value, guard: set<nat>)
    requires WellFormed(cx.types) && WellFormedField(cx.types, f) && TypedValue(cx.types, f, v)
    ensures Kept(f, RereadField(cx, f, v, guard)) == Some(v) <==> SettledValue(cx, f, v)
    decreases v, 1
  {
    match v
    case Sub(m) => RereadSame(cx, f.kind.ty, m, guard);
    case Subs(ms) => SubsSame(cx, f, ms, guard);
    case _ =>
  }

  lemma {:induction false} SubsSame(cx: Context, f: Field, ms: seq<Message>, guard: set<nat>)
    requires WellFormed(cx.types) && f.kind.MessageOf?
    requires forall k :: 0 <= k < |ms| ==> Typed(cx.types, f.kind.ty, ms[k])
    ensures RereadSubs(cx, f, ms, guard) == Some(ms)
            <==> forall k :: 0 <= k < |ms| ==> Settled(cx, f.kind.ty, ms[k])
    decreases ms, 0
  {
    hide Reread, Settled;
    if ms != [] {
      RereadSame(cx, f.kind.ty, ms[0], guard);
      SubsSame(cx, f, ms[1..], guard);
      assert ms == [ms[0]] + ms[1..];
    }
  }

  /** A clean message within the size limit is decoded from its own octets to itself exactly when
      no required sub-message is unset and no implicit negative zero occurs in it. */
  lemma DecodeEncode(cx: Context, ty: nat, m: Message)
    requires WellFormed(cx.types) && Typed(cx.types, ty, m) && Clean(cx, ty, m)
    requires |Encode(cx, ty, m, {}, true)| < TWO_TO_31
    ensures Typed(cx.types, ty, Default(cx.types[ty]))
    ensures Decode(cx, ty, Encode(cx, ty, m, {}, true), Default(cx.types[ty])) == Some(m)
            <==> Settled(cx, ty, m)
  {
    ReadBack.ReadBack(cx, ty, m, {});
    RereadSame(cx, ty, m, {});
  }

  predicate NeedsMessage(f: Field) {
    f.rule.Required? && f.kind.MessageOf?
  }

  // ---------- the 32-bit length of a nested body ----------

  lemma {:induction false} CutIsIdle(cx: Context, ty: nat, m: Message, guard: set<nat>)
    requires WellFormed(cx.types) && Typed(cx.types, ty, m)
    requires |Encode(cx, ty, m, guard, true)| < TWO_TO_32
    ensures Encode(cx, ty, m, guard, true) == Encode(cx, ty, m, guard, false)
    decreases Unguarded(cx, guard), m, 2
  {
    FieldsCutIdle(cx, ty, m, guard, 0);
  }

  lemma {:induction false} FieldsCutIdle(cx: Context, ty: nat, m: Message, guard: set<nat>, i: nat)
    requires WellFormed(cx.types) && Typed(cx.types, ty, m) && i <= |m.values|
    requires |EncodeFields(cx, ty, m, guard, true, i)| < TWO_TO_32
    ensures EncodeFields(cx, ty, m, guard, true, i) == EncodeFields(cx, ty, m, guard, false, i)
    decreases Unguarded(cx, guard), m, 1, |m.values| - i
  {
    hide EncodeField;
    if i < |m.values| {
      FieldCutIdle(cx, cx.types[ty][i], m.values[i], guard);
      FieldsCutIdle(cx, ty, m, guard, i + 1);
    }
  }

  lemma BodyCutIdle(number: nat, body: Octets)
    requires |WriteBody(number, body, true)| < TWO_TO_32
    ensures WriteBody(number, body, true) == WriteBody(number, body, false)
  {
    hide Write, WriteHeader;
  }

  lemma {:induction false} FieldCutIdle(cx: Context, f: Field, v: Value, guard: set<nat>)
    requires WellFormed(cx.types) && WellFormedField(cx.types, f) && TypedValue(cx.types, f, v)
    requires |EncodeField(cx, f, v, guard, true)| < TWO_TO_32
    ensures EncodeField(cx, f, v, guard, true) == EncodeField(cx, f, v, guard, false)
    decreases Unguarded(cx, guard), v, 1
  {
    hide Encode, EncodeSubs, EncodeScalar, WriteBody;
    match v
    case Absent =>
      if NeedsMessage(f) && f.kind.ty !in guard {
        var sub := f.kind.ty;
        assert sub in Unguarded(cx, guard) && sub !in Unguarded(cx, guard + {sub});
        DefaultTyped(cx.types, sub);
        BodyCutIdle(f.number, Encode(cx, sub, Default(cx.types[sub]), guard + {sub}, true));
        CutIsIdle(cx, sub, Default(cx.types[sub]), guard + {sub});
      }
    case Sub(m) =>
      BodyCutIdle(f.number, Encode(cx, f.kind.ty, m, guard, true));
      CutIsIdle(cx, f.kind.ty, m, guard);
    case Subs(ms) => SubsCutIdle(cx, f, ms, guard);
    case _ =>
  }

  lemma {:induction false} SubsCutIdle(cx: Context, f: Field, ms: seq<Message>, guard: set<nat>)
    requires WellFormed(cx.types) && f.kind.MessageOf?
    requires forall k :: 0 <= k < |ms| ==> Typed(cx.types, f.kind.ty, ms[k])
    requires |EncodeSubs(cx, f, ms, guard, true)| < TWO_TO_32
    ensures EncodeSubs(cx, f, ms, guard, true) == EncodeSubs(cx, f, ms, guard, false)
    decreases Unguarded(cx, guard), ms, 0
  {
    hide Encode, WriteBody;
    if ms != [] {
      BodyCutIdle(f.number, Encode(cx, f.kind.ty, ms[0], guard, true));
      CutIsIdle(cx, f.kind.ty, ms[0], guard);
      SubsCutIdle(cx, f, ms[1..], guard);
    }
  }
}
