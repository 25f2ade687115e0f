/**
 Required sub-messages. The encoder makes up the ones that are unset, and gives up where a type
 needs itself. The octets of a message are readable exactly when every message in them has a type
 whose needs come to an end.
 */
module Required {
  import opened Octets
  import opened Varint
  import opened Scalars
  import opened Schema
  import opened Decoder
  import opened Encoder
  import opened RoundTrip
  import opened ReadBack
  import opened Consequences

  // ---------- needs that come to an end ----------

  /** All the message types that a type needs are in the set. */
  predicate NeedsOnly(t: MessageType, s: set<nat>) {
    forall i :: 0 <= i < |t| && NeedsMessage(t[i]) ==> t[i].kind.ty in s
  }

  /** The types whose needs end after fewer than `k` steps. */
  function Grounded(types: Types, k: nat): (r: set<nat>)
    ensures forall ty :: ty in r ==> ty < |types|
  {
    if k == 0 then {} else set ty | ty in Below(|types|) && NeedsOnly(types[ty], Grounded(types, k - 1))
  }

  /** The types whose needs end. */
  function GroundedTypes(types: Types): set<nat> {
    Grounded(types, |types|)
  }

  /** A ranking that every required sub-message type descends. */
  ghost predicate Ranked(types: Types, rank: nat -> nat) {
    forall ty, i :: 0 <= ty < |types| && 0 <= i < |types[ty]| && NeedsMessage(types[ty][i])
                    ==> rank(types[ty][i].kind.ty) < rank(ty)
  }

  /** Every type of the set needs a message of a type of the set. */
  predicate RequiredCycle(types: Types, c: set<nat>) {
    forall ty :: ty in c ==> ty < |types| && NeedsAny(types[ty], c)
  }

  predicate NeedsAny(t: MessageType, c: set<nat>) {
    exists i :: 0 <= i < |t| && NeedsOneOf(t[i], c)
  }

  predicate NeedsOneOf(f: Field, c: set<nat>) {
    NeedsMessage(f) && f.kind.ty in c
  }

  lemma NeedInCycle(types: Types, c: set<nat>, ty: nat)
    requires RequiredCycle(types, c) && ty in c
    ensures ty < |types| && NeedsAny(types[ty], c)
  {
    hide NeedsAny;
  }

  lemma {:induction false} GroundedGrows(types: Types, k: nat)
    ensures Grounded(types, k) <= Grounded(types, k + 1)
  {
    if k > 0 {
      GroundedGrows(types, k - 1);
    }
  }

  lemma {:induction false} GroundedAbove(types: Types, j: nat, k: nat)
    requires j <= k
    ensures Grounded(types, j) <= Grounded(types, k)
    decreases k - j
  {
    hide Grounded;
    if j < k {
      GroundedGrows(types, k - 1);
      GroundedAbove(types, j, k - 1);
    }
  }

  lemma {:induction false} BelowSize(n: nat)
    ensures |Below(n)| == n
  {
    if n > 0 {
      BelowSize(n - 1);
      assert n - 1 !in Below(n - 1);
    }
  }

  lemma SubsetSize(a: set<nat>, b: set<nat>)
    requires a <= b
    ensures |a| <= |b| && (a != b ==> |a| < |b|)
  {
    var rest := b - a;
    assert b == a + rest && a !! rest;
    assert |b| == |a| + |rest|;
    if a != b {
      assert rest != {};
    }
  }

  /** The sets grow until they stand still. */
  lemma {:induction false} GrowsOrStands(types: Types, k: nat)
    ensures Grounded(types, k) == Grounded(types, k + 1) || |Grounded(types, k + 1)| >= k + 1
    decreases k
  {
    GroundedGrows(types, k);
    SubsetSize(Grounded(types, k), Grounded(types, k + 1));
    if k > 0 {
      GrowsOrStands(types, k - 1);
    }
  }

  /** After as many steps as there are types they stand still. */
  lemma GroundedStands(types: Types)
    ensures Grounded(types, |types| + 1) == GroundedTypes(types)
  {
    hide Grounded;
    var n := |types|;
    GrowsOrStands(types, n);
    BelowSize(n);
    var g := Grounded(types, n + 1);
    assert g <= Below(n);
    SubsetSize(g, Below(n));
  }

  /** The other types form a cycle. */
  lemma UngroundedCycle(types: Types)
    requires WellFormed(types)
    ensures RequiredCycle(types, Below(|types|) - GroundedTypes(types))
  {
    hide Grounded, NeedsAny;
    GroundedStands(types);
    var n, g := |types|, GroundedTypes(types);
    var c := Below(n) - g;
    forall ty | ty in c ensures ty < n && NeedsAny(types[ty], c) {
      InGrounded(types, n + 1, ty);
      UnmetNeed(types, ty, g);
    }
  }

  lemma UnmetNeed(types: Types, ty: nat, g: set<nat>)
    requires WellFormed(types) && ty < |types| && !NeedsOnly(types[ty], g)
    ensures NeedsAny(types[ty], Below(|types|) - g)
  {
    var i :| 0 <= i < |types[ty]| && NeedsMessage(types[ty][i]) && types[ty][i].kind.ty !in g;
    assert WellFormedType(types, types[ty]) && WellFormedField(types, types[ty][i]);
    assert NeedsOneOf(types[ty][i], Below(|types|) - g);
  }

  lemma InGrounded(types: Types, k: nat, ty: nat)
    requires k > 0
    ensures ty in Grounded(types, k) <==> ty < |types| && NeedsOnly(types[ty], Grounded(types, k - 1))
  {
  }

  /** No type of a cycle is ever grounded. */
  lemma {:induction false} CycleUngrounded(types: Types, c: set<nat>, k: nat)
    requires RequiredCycle(types, c)
    ensures forall ty :: ty in c ==> ty !in Grounded(types, k)
    decreases k
  {
    hide Grounded, RequiredCycle;
    if k == 0 {
      NoneGrounded(types);
    } else {
      CycleUngrounded(types, c, k - 1);
      forall ty | ty in c ensures ty !in Grounded(types, k) {
        NeedInCycle(types, c, ty);
        NeedNotIn(types[ty], c, Grounded(types, k - 1));
        InGrounded(types, k, ty);
      }
    }
  }

  lemma NoneGrounded(types: Types)
    ensures Grounded(types, 0) == {}
  {
  }

  lemma NeedNotIn(t: MessageType, c: set<nat>, s: set<nat>)
    requires NeedsAny(t, c) && forall x :: x in c ==> x !in s
    ensures !NeedsOnly(t, s)
  {
    var i :| 0 <= i < |t| && NeedsOneOf(t[i], c);
    assert t[i].kind.ty !in s;
  }

  /** The number of steps in which the needs of a grounded type end. */
  function Height(types: Types, ty: nat, k: nat): (h: nat)
    requires ty in Grounded(types, k)
    ensures 1 <= h <= k && ty in Grounded(types, h) && ty !in Grounded(types, h - 1)
    decreases k
  {
    if ty in Grounded(types, k - 1) then Height(types, ty, k - 1) else k
  }

  lemma {:induction false} HeightIsLeast(types: Types, ty: nat, j: nat, k: nat)
    requires ty in Grounded(types, j) && ty in Grounded(types, k)
    ensures Height(types, ty, k) <= j
    decreases k
  {
    var h := Height(types, ty, k);
    if j < h {
      GroundedAbove(types, j, h - 1);
    }
  }

  function Rank(types: Types): nat -> nat {
    ty => if ty in GroundedTypes(types) then Height(types, ty, |types|) else 0
  }

  lemma {:induction false} RankedGrounded(types: Types, rank: nat -> nat, ty: nat)
    requires WellFormed(types) && Ranked(types, rank) && ty < |types|
    ensures ty in Grounded(types, rank(ty) + 1)
    decreases rank(ty)
  {
    hide Grounded;
    InGrounded(types, rank(ty) + 1, ty);
    forall i | 0 <= i < |types[ty]| && NeedsMessage(types[ty][i])
      ensures types[ty][i].kind.ty in Grounded(types, rank(ty))
    {
      var sub := types[ty][i].kind.ty;
      assert WellFormedType(types, types[ty]) && WellFormedField(types, types[ty][i]);
      RankedGrounded(types, rank, sub);
      GroundedAbove(types, rank(sub) + 1, rank(ty));
    }
  }

  lemma RankDescends(types: Types)
    requires WellFormed(types) && GroundedTypes(types) == Below(|types|)
    ensures Ranked(types, Rank(types))
  {
    hide Grounded;
    var n, rank := |types|, Rank(types);
    forall ty, i | 0 <= ty < n && 0 <= i < |types[ty]| && NeedsMessage(types[ty][i])
      ensures rank(types[ty][i].kind.ty) < rank(ty)
    {
      var sub, h := types[ty][i].kind.ty, Height(types, ty, n);
      assert WellFormedType(types, types[ty]) && WellFormedField(types, types[ty][i]);
      InGrounded(types, h, ty);
      assert sub in Grounded(types, h - 1);
      HeightIsLeast(types, sub, h - 1, n);
    }
  }

  ghost predicate NoCycle(types: Types) {
    forall c: set<nat> :: RequiredCycle(types, c) ==> c == {}
  }

  /** A schema has a ranking exactly when no set of its types is a cycle. */
  lemma RankedIff(types: Types)
    requires WellFormed(types)
    ensures (exists rank: nat -> nat :: Ranked(types, rank)) <==> NoCycle(types)
  {
    hide RequiredCycle, Grounded;
    if NoCycle(types) {
      UngroundedCycle(types);
      assert Below(|types|) - GroundedTypes(types) == {};
      assert GroundedTypes(types) == Below(|types|);
      RankDescends(types);
    }
    if rank: nat -> nat :| Ranked(types, rank) {
      forall c: set<nat> | RequiredCycle(types, c) ensures c == {} {
        if ty :| ty in c {
          NeedInCycle(types, c, ty);
          RankedGrounded(types, rank, ty);
          CycleUngrounded(types, c, rank(ty) + 1);
          assert false;
        }
      }
    }
  }

  // ---------- which messages can be read back ----------

  /** The fields read back one and all, or the message does not. */
  lemma {:induction false} FieldsReadIff(cx: Context, ty: nat, m: Message, guard: set<nat>, j: nat)
    requires WellFormed(cx.types) && Typed(cx.types, ty, m) && j <= |m.values|
    ensures RereadFields(cx, ty, m, guard, j).Some?
            <==> forall i :: j <= i < |m.values| ==>
                   Kept(cx.types[ty][i], RereadField(cx, cx.types[ty][i], m.values[i], guard)).Some?
    decreases |m.values| - j
  {
    hide RereadField;
    if j < |m.values| {
      FieldsReadIff(cx, ty, m, guard, j + 1);
    }
  }

  /** Every message, at any depth, has a type whose needs end. */
  predicate Supported(cx: Context, ty: nat, m: Message)
    requires WellFormed(cx.types) && Typed(cx.types, ty, m)
    decreases m
  {
    ty in GroundedTypes(cx.types)
    && forall i :: 0 <= i < |m.values| ==> SupportedValue(cx, cx.types[ty][i], m.values[i])
  }

  predicate SupportedValue(cx: Context, f: Field, v: Value)
    requires WellFormed(cx.types) && TypedValue(cx.types, f, v)
    decreases v
  {
    match v
    case Sub(m) => Supported(cx, f.kind.ty, m)
    case Subs(ms) => forall k :: 0 <= k < |ms| ==> Supported(cx, f.kind.ty, ms[k])
    case _ => true
  }

  /** No type under construction is needed again. */
  predicate Free(types: Types, guard: set<nat>, k: nat) {
    forall g :: g in guard ==> g !in Grounded(types, k)
  }

  /** A made-up message of a grounded type reads back. */
  lemma {:induction false} DefaultReads(cx: Context, ty: nat, guard: set<nat>, k: nat)
    requires WellFormed(cx.types) && ty < |cx.types| && k > 0
    requires ty in Grounded(cx.types, k) && Free(cx.types, guard, k - 1)
    ensures Typed(cx.types, ty, Default(cx.types[ty]))
    ensures Reread(cx, ty, Default(cx.types[ty]), guard).Some?
    decreases k, 1
  {
    hide RereadField;
    DefaultTyped(cx.types, ty);
    var t, m := cx.types[ty], Default(cx.types[ty]);
    FieldsReadIff(cx, ty, m, guard, 0);
    forall i | 0 <= i < |t| ensures Kept(t[i], RereadField(cx, t[i], m.values[i], guard)).Some? {
      DefaultFieldReads(cx, ty, guard, k, i);
    }
  }

  lemma {:induction false} DefaultFieldReads(cx: Context, ty: nat, guard: set<nat>, k: nat, i: nat)
    requires WellFormed(cx.types) && ty < |cx.types| && k > 0 && i < |cx.types[ty]|
    requires ty in Grounded(cx.types, k) && Free(cx.types, guard, k - 1)
    requires TypedValue(cx.types, cx.types[ty][i], Default(cx.types[ty]).values[i])
    ensures Kept(cx.types[ty][i], RereadField(cx, cx.types[ty][i], Default(cx.types[ty]).values[i], guard)).Some?
    decreases k, 0
  {
    hide Reread;
    var f := cx.types[ty][i];
    assert WellFormedType(cx.types, cx.types[ty]) && WellFormedField(cx.types, f);
    if NeedsMessage(f) {
      assert f.kind.ty in Grounded(cx.types, k - 1);
      AbsentReads(cx, f, guard, k - 1);
    }
  }

  /** An unset required sub-message of a grounded type is made up readably. */
  lemma {:induction false} AbsentReads(cx: Context, f: Field, guard: set<nat>, k: nat)
    requires WellFormed(cx.types) && WellFormedField(cx.types, f) && NeedsMessage(f)
    requires f.kind.ty in Grounded(cx.types, k) && Free(cx.types, guard, k)
    ensures TypedValue(cx.types, f, Absent) && Kept(f, RereadField(cx, f, Absent, guard)).Some?
    decreases k, 2
  {
    hide Reread, Grounded;
    var sub := f.kind.ty;
    var h := Height(cx.types, sub, k);
    GroundedAbove(cx.types, h - 1, k);
    DefaultReads(cx, sub, guard + {sub}, h);
  }

  /** A message of an ungrounded type does not read back, however much of it is set. */
  lemma {:induction false} CycleFails(cx: Context, c: set<nat>, ty: nat, m: Message, guard: set<nat>)
    requires WellFormed(cx.types) && Typed(cx.types, ty, m) && RequiredCycle(cx.types, c) && ty in c
    ensures Reread(cx, ty, m, guard).None?
    decreases Unguarded(cx, guard), m
  {
    hide RereadFields, WellFormed, RequiredCycle, RereadField;
    NeedInCycle(cx.types, c, ty);
    var i :| 0 <= i < |cx.types[ty]| && NeedsOneOf(cx.types[ty][i], c);
    NeedFails(cx, c, ty, m, guard, i);
    FieldsReadIff(cx, ty, m, guard, 0);
  }

  lemma {:induction false} NeedFails(cx: Context, c: set<nat>, ty: nat, m: Message, guard: set<nat>, i: nat)
    requires WellFormed(cx.types) && Typed(cx.types, ty, m) && RequiredCycle(cx.types, c)
    requires i < |cx.types[ty]| && NeedsOneOf(cx.types[ty][i], c)
    ensures Kept(cx.types[ty][i], RereadField(cx, cx.types[ty][i], m.values[i], guard)).None?
    decreases Unguarded(cx, guard), m, 0
  {
    hide Reread, RequiredCycle;
    var f := cx.types[ty][i];
    assert WellFormedType(cx.types, cx.types[ty]) && WellFormedField(cx.types, f);
    assert TypedValue(cx.types, f, m.values[i]);
    if m.values[i].Sub? {
      CycleFails(cx, c, f.kind.ty, m.values[i].m, guard);
    } else if f.kind.ty !in guard {
      var sub := f.kind.ty;
      DefaultTyped(cx.types, sub);
      assert sub in Unguarded(cx, guard) && sub !in Unguarded(cx, guard + {sub});
      CycleFails(cx, c, sub, Default(cx.types[sub]), guard + {sub});
    }
  }

  lemma {:induction false} ReadIff(cx: Context, ty: nat, m: Message)
    requires WellFormed(cx.types) && Typed(cx.types, ty, m)
    ensures Reread(cx, ty, m, {}).Some? <==> Supported(cx, ty, m)
    decreases m, 2
  {
    hide RereadField, Grounded, SupportedValue;
    FieldsReadIff(cx, ty, m, {}, 0);
    if ty in GroundedTypes(cx.types) {
      forall i | 0 <= i < |m.values|
        ensures Kept(cx.types[ty][i], RereadField(cx, cx.types[ty][i], m.values[i], {})).Some?
                <==> SupportedValue(cx, cx.types[ty][i], m.values[i])
      {
        FieldReadIff(cx, ty, m, i);
      }
    } else {
      UngroundedCycle(cx.types);
      CycleFails(cx, Below(|cx.types|) - GroundedTypes(cx.types), ty, m, {});
    }
  }

  lemma {:induction false} FieldReadIff(cx: Context, ty: nat, m: Message, i: nat)
    requires WellFormed(cx.types) && Typed(cx.types, ty, m) && i < |m.values| && ty in GroundedTypes(cx.types)
    ensures Kept(cx.types[ty][i], RereadField(cx, cx.types[ty][i], m.values[i], {})).Some?
            <==> SupportedValue(cx, cx.types[ty][i], m.values[i])
    decreases m, 1
  {
    hide Reread, Supported, Grounded;
    var f, v := cx.types[ty][i], m.values[i];
    assert WellFormedType(cx.types, cx.types[ty]) && WellFormedField(cx.types, f);
    assert TypedValue(cx.types, f, v);
    match v
    case Absent =>
      if NeedsMessage(f) {
        NeedIsGrounded(cx.types, ty, i);
        AbsentReads(cx, f, {}, |cx.types|);
      }
    case Sub(x) => ReadIff(cx, f.kind.ty, x);
    case Subs(ms) => SubsReadIff(cx, f, ms);
    case _ =>
  }

  lemma NeedIsGrounded(types: Types, ty: nat, i: nat)
    requires ty in GroundedTypes(types) && i < |types[ty]| && NeedsMessage(types[ty][i])
    ensures types[ty][i].kind.ty in GroundedTypes(types)
  {
    var n := |types|;
    assert types[ty][i].kind.ty in Grounded(types, n - 1);
    GroundedGrows(types, n - 1);
  }

  lemma {:induction false} SubsReadIff(cx: Context, f: Field, ms: seq<Message>)
    requires WellFormed(cx.types) && f.kind.MessageOf?
    requires forall k :: 0 <= k < |ms| ==> Typed(cx.types, f.kind.ty, ms[k])
    ensures RereadSubs(cx, f, ms, {}).Some? <==> forall k :: 0 <= k < |ms| ==> Supported(cx, f.kind.ty, ms[k])
    decreases ms, 0
  {
    hide Reread, Supported;
    if ms != [] {
      ReadIff(cx, f.kind.ty, ms[0]);
      SubsReadIff(cx, f, ms[1..]);
      assert ms == [ms[0]] + ms[1..];
    }
  }

  // ---------- the promises ----------

  /** A printed message is accepted exactly when the needs of every type in it end. */
  lemma AcceptedIff(cx: Context, ty: nat, m: Message)
    requires WellFormed(cx.types) && Typed(cx.types, ty, m) && Clean(cx, ty, m)
    requires |Encode(cx, ty, m, {}, true)| < TWO_TO_31
    ensures Typed(cx.types, ty, Default(cx.types[ty]))
    ensures Decode(cx, ty, Encode(cx, ty, m, {}, true), Default(cx.types[ty])).Some? <==> Supported(cx, ty, m)
  {
    hide Encode, Decode, Reread, Supported, Clean;
    ReadBack.ReadBack(cx, ty, m, {});
    ReadIff(cx, ty, m);
  }

  lemma {:induction false} AllSupported(cx: Context, ty: nat, m: Message)
    requires WellFormed(cx.types) && Typed(cx.types, ty, m) && GroundedTypes(cx.types) == Below(|cx.types|)
    ensures Supported(cx, ty, m)
    decreases m
  {
    hide GroundedTypes, Below;
    forall i | 0 <= i < |m.values| ensures SupportedValue(cx, cx.types[ty][i], m.values[i]) {
      assert TypedValue(cx.types, cx.types[ty][i], m.values[i]);
      match m.values[i]
      case Sub(x) => AllSupported(cx, cx.types[ty][i].kind.ty, x);
      case Subs(ms) =>
        forall k | 0 <= k < |ms| ensures Supported(cx, cx.types[ty][i].kind.ty, ms[k]) {
          AllSupported(cx, cx.types[ty][i].kind.ty, ms[k]);
        }
      case _ =>
    }
  }

  /** Without a required cycle whatever is printed is accepted. */
  lemma AcyclicAccepted(cx: Context, ty: nat, m: Message)
    requires WellFormed(cx.types) && NoCycle(cx.types)
    requires Typed(cx.types, ty, m) && Clean(cx, ty, m) && |Encode(cx, ty, m, {}, true)| < TWO_TO_31
    ensures Typed(cx.types, ty, Default(cx.types[ty]))
    ensures Decode(cx, ty, Encode(cx, ty, m, {}, true), Default(cx.types[ty])).Some?
  {
    hide Encode, Decode, Supported, Clean, RequiredCycle;
    UngroundedCycle(cx.types);
    assert Below(|cx.types|) - GroundedTypes(cx.types) == {};
    assert GroundedTypes(cx.types) == Below(|cx.types|);
    AllSupported(cx, ty, m);
    AcceptedIff(cx, ty, m);
  }

  /** On a required cycle encoding ends even so (it is a function), but no message of a type on it is
      ever accepted, whatever it holds. */
  lemma CycleRejected(cx: Context, c: set<nat>, ty: nat, m: Message)
    requires WellFormed(cx.types) && RequiredCycle(cx.types, c) && ty in c
    requires Typed(cx.types, ty, m) && Clean(cx, ty, m) && |Encode(cx, ty, m, {}, true)| < TWO_TO_31
    ensures Typed(cx.types, ty, Default(cx.types[ty]))
    ensures Decode(cx, ty, Encode(cx, ty, m, {}, true), Default(cx.types[ty])).None?
  {
    hide Encode, Decode, Reread, RequiredCycle, Clean;
    ReadBack.ReadBack(cx, ty, m, {});
    CycleFails(cx, c, ty, m, {});
  }
}
