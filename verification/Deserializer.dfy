/**
 The deserializer as the program runs it: one cursor over the whole input, a stack of end
 positions that is tested by inequality only, a one-entry cache of the field being filled that is
 written back late, a word-packed set of seen fields, and an error that stops nobody but the frame
 that met it. It accepts exactly what the reference decoder accepts, with the same message.
 */
module Deserializer {
  import opened Octets
  import opened Varint
  import opened Scalars
  import opened Schema
  import opened Records
  import opened Decoder
  import opened Progress
  import opened Cursors
  import opened Bitsets
  import Inputs

  datatype Error =
    | NoError
    | InvalidHeader
    | UnexpectedEndOfStream
    | InvalidFormat
    | UnknownType
    | MessageTooLarge
    | Unmodelled        // an unknown field as long as 2^63: the program adds it as a negative number

  class Deserializer {
    const cx: Context
    const cursor: Cursor
    var limits: seq<nat>
    var wireType: WireType
    var lastError: Error
    var cachedIndex: int
    var cachedValue: Value

    constructor (cx: Context, data: Octets)
      requires WellFormed(cx.types) && |data| < TWO_TO_32
      ensures this.cx == cx && fresh(cursor) && cursor.data == data && cursor.it == 0
      ensures Valid() && limits == [|data|] && cachedIndex == -1 && !HasError()
    {
      this.cx := cx;
      cursor := new Cursor(data);
      limits := [|data|];
      wireType := WireVarint;
      lastError := NoError;
      cachedIndex, cachedValue := -1, Absent;
    }

    predicate HasError()
      reads this`lastError
    {
      !lastError.NoError?
    }

    /** Limits lie inside the input, and each nested one has cost two octets. */
    ghost predicate Valid()
      reads this`limits, cursor
    {
      && WellFormed(cx.types)
      && |cursor.data| < TWO_TO_32
      && (forall k :: 0 <= k < |limits| ==> limits[k] <= |cursor.data|)
      && 2 * |limits| <= cursor.it + 2
    }

    function Top(): nat
      requires limits != []
      reads this`limits
    {
      limits[|limits| - 1]
    }

    /** The cached value, if any, is one that the cached field can hold. */
    ghost predicate CacheFits(ty: nat)
      requires ty < |cx.types|
      reads this`cachedIndex, this`cachedValue
    {
      cachedIndex == -1
      || (0 <= cachedIndex < |cx.types[ty]| && !cachedValue.Absent?
          && TypedValue(cx.types, cx.types[ty][cachedIndex], cachedValue))
    }

    /** The message with the pending write carried out. */
    ghost function Effective(ty: nat, m: Message): (r: Message)
      requires Typed(cx.types, ty, m) && CacheFits(ty)
      reads this`cachedIndex, this`cachedValue
      ensures Typed(cx.types, ty, r)
    {
      if cachedIndex == -1 then m
      else SetTyped(cx.types, ty, m, cachedIndex, cachedValue);
           Set(cx.types[ty], m, cachedIndex, cachedValue)
    }

    // ---------- skipping what is not known ----------

    method SkipField() returns (ok: bool)
      requires Valid() && cursor.IsValid()
      modifies cursor, this`lastError
      ensures old(cursor.it) <= cursor.it && (HasError() || lastError == old(lastError))
      ensures old(HasError()) ==> HasError()
      ensures match Skip(wireType, old(cursor.Rest()))
              case None => !ok && HasError()
              case Some(n) => ok && cursor.it == old(cursor.it) + n && lastError == old(lastError)
      ensures ok ==> cursor.IsValid() && cursor.it > old(cursor.it)
    {
      match wireType {
        case WireVarint => cursor.PassVarint();
        case Wire32 => cursor.Advance(4);
        case Wire64 => cursor.Advance(8);
        case WireChunk =>
          var length := cursor.ReadVarint();
          if length.None? {
            cursor.Advance(cursor.BytesLeft() + 1);
          } else if length.value >= TWO_TO_63 {
            lastError := Unmodelled;
            return false;
          } else {
            cursor.Advance(length.value);
          }
      }
      if !cursor.IsValid() {
        lastError := UnexpectedEndOfStream;
        return false;
      }
      return true;
    }

    // ---------- the next known field ----------

    /** The reference result still due when the frame of type `ty` is at a record boundary. An error,
        once met, leaves nothing due. */
    ghost predicate Owes(ty: nat, m: Message, seen: set<nat>, limit: nat, total: Option<Frame>)
      requires Valid() && ty < |cx.types| && Typed(cx.types, ty, m) && CacheFits(ty) && limit <= |cursor.data|
      reads this, cursor
    {
      if HasError() then total == None
      else total == Due(cx, ty, cursor.data, cursor.it, limit, Frame(Effective(ty, m), seen))
    }

    /** The same just behind the header, which started at `fieldBegin`, of an unknown field. */
    ghost predicate OwesUnknown(ty: nat, m: Message, seen: set<nat>, limit: nat, fieldBegin: nat,
                                number: nat, total: Option<Frame>)
      requires Valid() && ty < |cx.types| && Typed(cx.types, ty, m) && CacheFits(ty) && limit <= |cursor.data|
      requires fieldBegin < cursor.it && cursor.IsValid()
      reads this, cursor
    {
      if HasError() then total == None
      else total == match Skip(wireType, cursor.Rest())
                    case None => None
                    case Some(n) =>
                      Due(cx, ty, cursor.data, cursor.it + n, limit,
                          AfterUnknown(cx, ty, Frame(Effective(ty, m), seen), number,
                                       cursor.data[fieldBegin..cursor.it + n]))
    }

    /** The same just behind the header of field `i`. */
    ghost predicate OwesField(ty: nat, m: Message, seen: set<nat>, limit: nat, i: nat, total: Option<Frame>)
      requires Valid() && ty < |cx.types| && Typed(cx.types, ty, m) && CacheFits(ty) && limit <= |cursor.data|
      requires i < |cx.types[ty]|
      reads this, cursor
    {
      if HasError() then total == None
      else total == DueField(cx, ty, cursor.data, cursor.it, limit, i, wireType,
                             Frame(Effective(ty, m), seen))
    }

    /** The same at the start of the nested body that the top limit ends. */
    ghost predicate OwesBody(ty: nat, m: Message, seen: set<nat>, limit: nat, i: nat, total: Option<Frame>)
      requires Valid() && ty < |cx.types| && Typed(cx.types, ty, m) && CacheFits(ty) && limit <= |cursor.data|
      requires i < |cx.types[ty]| && cx.types[ty][i].kind.MessageOf?
      requires limits != [] && cursor.it <= Top()
      reads this, cursor
    {
      if HasError() then total == None
      else total == DueBody(cx, ty, cursor.data, cursor.it, Top(), limit, i,
                            Frame(Effective(ty, m), seen))
    }

    /** decodeHeader, split into what it reads. */
    method DecodeHeader() returns (r: Option<nat>)
      requires Valid() && cursor.IsValid()
      modifies cursor, this`wireType
      ensures match ReadHeader(old(cursor.Rest()))
              case Fail => r == None && old(cursor.it) <= cursor.it && cursor.IsValid()
              case Got(h, size) => r == Some(h.number) && wireType == h.wire
                                   && cursor.it == old(cursor.it) + size && cursor.IsValid()
    {
      if cursor.BytesLeft() == 0 {
        return None;
      }
      var v := cursor.ReadVarint();
      if v.None? {
        return None;
      }
      var header := v.value % TWO_TO_32;
      var wire := WireOfCode(header % 8);
      if wire.None? || header / 8 == 0 {
        return None;
      }
      wireType := wire.value;
      return Some(header / 8);
    }

    /** An unknown field: its octets, header included, are kept for a later encoding. */
    method PassUnknown(ty: nat, m0: Message, fieldBegin: nat, number: nat, ghost seen: set<nat>,
                       ghost limit: nat, ghost total: Option<Frame>)
      returns (ok: bool, m: Message)
      requires Valid() && ty < |cx.types| && Typed(cx.types, ty, m0) && CacheFits(ty) && limit <= |cursor.data|
      requires fieldBegin < cursor.it && cursor.IsValid()
      requires OwesUnknown(ty, m0, seen, limit, fieldBegin, number, total)
      modifies cursor, this`lastError
      ensures Valid() && Typed(cx.types, ty, m) && old(cursor.it) <= cursor.it
      ensures old(HasError()) ==> HasError()
      ensures !ok ==> HasError() && total == None
      ensures ok ==> cursor.IsValid() && cursor.it > old(cursor.it) && Owes(ty, m, seen, limit, total)
    {
      hide DecodeFrom, Due, Skip;
      m := m0;
      ok := SkipField();
      if ok && cx.keepUnknown {
        m := StoreUnknown(m, number, cursor.data[fieldBegin..cursor.it]);
      }
    }

    /** A nested message: read its length and push where it ends. */
    method EnterBody(ty: nat, m: Message, i: nat, ghost seen: set<nat>, ghost limit: nat,
                     ghost total: Option<Frame>)
      returns (ok: bool)
      requires Valid() && ty < |cx.types| && Typed(cx.types, ty, m) && CacheFits(ty) && limit <= |cursor.data|
      requires i < |cx.types[ty]| && cx.types[ty][i].kind.MessageOf?
      requires cursor.IsValid() && limits != [] && 2 * |limits| < cursor.it + 2
      requires OwesField(ty, m, seen, limit, i, total)
      modifies cursor, this`limits, this`lastError
      ensures Valid() && old(cursor.it) <= cursor.it && (old(HasError()) ==> HasError())
      ensures !ok ==> limits == old(limits) && HasError() && total == None
      ensures ok ==> cursor.IsValid() && |limits| == |old(limits)| + 1
                     && limits[..|old(limits)|] == old(limits)
                     && cursor.it <= Top() && OwesBody(ty, m, seen, limit, i, total)
      ensures ok ==> |limits| <= |cursor.data| / 2 + 1
    {
      hide DueField, DueBody, Effective, CacheFits, Typed;
      BodyDue(cx, ty, cursor.data, cursor.it, limit, Frame(Effective(ty, m), seen), i, wireType);
      var length := cursor.ReadVarint();
      if length.None? || cursor.BytesLeft() < length.value {
        lastError := UnexpectedEndOfStream;
        return false;
      }
      limits := limits + [cursor.it + length.value];
      return true;
    }

    /** Read a header and look its number up: an error, an unknown number, or a field index. */
    method Locate(ty: nat, m: Message, ghost seen: set<nat>, ghost total: Option<Frame>)
      returns (number: Option<nat>, i: Option<nat>)
      requires Valid() && ty < |cx.types| && Typed(cx.types, ty, m) && CacheFits(ty) && limits != []
      requires cursor.IsValid() && cursor.it != Top() && Owes(ty, m, seen, Top(), total)
      modifies cursor, this`wireType, this`lastError
      ensures Valid() && cursor.IsValid() && (old(HasError()) ==> HasError())
      ensures old(cursor.it) <= cursor.it && (number.Some? ==> old(cursor.it) < cursor.it)
      ensures i.Some? ==> i.value < |cx.types[ty]|
      ensures match (number, i)
              case (None, _) => HasError() && total == None
              case (Some(n), None) => OwesUnknown(ty, m, seen, Top(), old(cursor.it), n, total)
              case (Some(_), Some(k)) => OwesField(ty, m, seen, Top(), k, total)
    {
      hide ReadHeader, Skip, IndexOf, Due, DueField, AfterUnknown, Effective, CacheFits, Typed;
      ghost var at, fr := cursor.it, Frame(Effective(ty, m), seen);
      i := None;
      number := DecodeHeader();
      if number.None? {
        NothingDue(cx, ty, cursor.data, at, Top(), fr);
        lastError := InvalidHeader;
        return;
      }
      i := IndexOf(cx.types[ty], number.value, 0);
      if i.None? {
        UnknownDue(cx, ty, cursor.data, at, Top(), fr);
        assert cursor.Rest() == cursor.data[cursor.it..];
      } else {
        KnownDue(cx, ty, cursor.data, at, Top(), fr, i.value);
      }
    }

    /** One turn of the loop in nextFieldIndex: -1 on an error, -2 when an unknown field was passed. */
    method NextRecord(ty: nat, m0: Message, ghost seen: set<nat>, ghost total: Option<Frame>)
      returns (index: int, m: Message)
      requires Valid() && ty < |cx.types| && Typed(cx.types, ty, m0) && CacheFits(ty) && limits != []
      requires cursor.IsValid() && cursor.it != Top() && Owes(ty, m0, seen, Top(), total)
      modifies cursor, this`limits, this`wireType, this`lastError
      ensures Valid() && Typed(cx.types, ty, m) && -2 <= index < |cx.types[ty]|
      ensures old(cursor.it) <= cursor.it && (old(HasError()) ==> HasError())
      ensures index == -1 ==> limits == old(limits) && HasError() && total == None
      ensures index != -1 ==> old(cursor.it) < cursor.it && cursor.IsValid() && |limits| >= |old(limits)|
      ensures index == -2 ==> limits == old(limits) && Owes(ty, m, seen, Top(), total)
      ensures index >= 0 ==> Found(ty, m, index, seen, old(limits), total)
    {
      hide Effective, CacheFits, Typed, Owes, OwesField, OwesUnknown, OwesBody;
      m := m0;
      var fieldBegin := cursor.it;
      ghost var limit := Top();
      var number, i := Locate(ty, m, seen, total);
      if number.None? {
        return -1, m;
      }
      var ok;
      if i.None? {
        ok, m := PassUnknown(ty, m, fieldBegin, number.value, seen, limit, total);
        return if ok then -2 else -1, m;
      }
      if cx.types[ty][i.value].kind.MessageOf? {
        ok := EnterBody(ty, m, i.value, seen, limit, total);
        if !ok {
          return -1, m;
        }
      }
      return i.value, m;
    }

    /** A field has been found: the cursor is at its payload, or at its body with the limit pushed. */
    ghost predicate Found(ty: nat, m: Message, i: nat, seen: set<nat>, outer: seq<nat>, total: Option<Frame>)
      requires Valid() && ty < |cx.types| && Typed(cx.types, ty, m) && CacheFits(ty) && i < |cx.types[ty]|
      reads this, cursor
    {
      && outer != [] && outer[|outer| - 1] <= |cursor.data|
      && (if cx.types[ty][i].kind.MessageOf? then
            |limits| == |outer| + 1 && limits[..|outer|] == outer && cursor.it <= Top()
            && OwesBody(ty, m, seen, outer[|outer| - 1], i, total)
          else
            limits == outer && OwesField(ty, m, seen, Top(), i, total))
    }

    method NextFieldIndex(ty: nat, m0: Message, ghost seen: set<nat>, ghost total: Option<Frame>)
      returns (index: int, m: Message)
      requires Valid() && ty < |cx.types| && Typed(cx.types, ty, m0) && CacheFits(ty) && limits != []
      requires Owes(ty, m0, seen, Top(), total)
      modifies cursor, this`limits, this`wireType, this`lastError
      ensures Valid() && Typed(cx.types, ty, m) && -1 <= index < |cx.types[ty]|
      ensures old(cursor.it) <= cursor.it && (old(HasError()) ==> HasError())
      ensures index == -1 ==> limits == old(limits) || limits == old(limits[..|limits| - 1])
      ensures index == -1 ==>
                if HasError() then total == None
                else cursor.it == old(Top()) && limits == old(limits[..|limits| - 1])
                     && total == Some(Frame(Effective(ty, m), seen))
      ensures index >= 0 ==> old(cursor.it) < cursor.it && cursor.IsValid() && |limits| >= |old(limits)|
      ensures index >= 0 ==> Found(ty, m, index, seen, old(limits), total)
    {
      hide Due, Effective, CacheFits, Typed, Found;
      m := m0;
      while cursor.IsValid() && cursor.it != Top()
        invariant Valid() && Typed(cx.types, ty, m) && limits == old(limits)
        invariant old(cursor.it) <= cursor.it && (old(HasError()) ==> HasError())
        invariant Owes(ty, m, seen, Top(), total)
        decreases |cursor.data| - cursor.it
      {
        index, m := NextRecord(ty, m, seen, total);
        if index != -2 {
          return;
        }
      }
      DueAtLimit(cx, ty, cursor.data, Top(), Frame(Effective(ty, m), seen));
      DuePastLimit(cx, ty, cursor.data, cursor.it, Top(), Frame(Effective(ty, m), seen));
      if !cursor.IsValid() {
        lastError := UnexpectedEndOfStream;
      }
      limits := limits[..|limits| - 1];
      return -1, m;
    }

    // ---------- scalar fields ----------

    /** The cached value is one that field `f` holds. */
    predicate Caches(f: Field)
      reads this`cachedValue
    {
      WellFormedField(cx.types, f) && TypedValue(cx.types, f, cachedValue) && !cachedValue.Absent?
    }

    /** One number joins the cached list or replaces the cached number. */
    method TakeSingle(f: Field) returns (ok: bool)
      requires f.kind.IsNumeric() && Caches(f)
      modifies cursor, this`cachedValue
      ensures old(cursor.it) <= cursor.it
      ensures match ReadNumber(f.kind, old(cursor.Rest()))
              case Fail => !ok
              case Got(n, size) =>
                ok && cursor.IsValid() && cursor.it == old(cursor.it) + size
                && cachedValue == if f.IsList() then Nums(old(cachedValue).ns + [n]) else Num(n)
    {
      hide ReadNumber;
      var n := cursor.TakeNumber(f.kind);
      ok := n.Some?;
      if ok {
        cachedValue := if f.IsList() then Nums(cachedValue.ns + [n.value]) else Num(n.value);
      }
    }

    /** A chunk of numbers replaces the cached list. */
    method TakeList(f: Field) returns (ok: bool)
      requires f.kind.IsNumeric() && Caches(f)
      modifies cursor, this`cachedValue
      ensures old(cursor.it) <= cursor.it
      ensures match ReadChunk(old(cursor.Rest()))
              case Fail => !ok
              case Got(d, size) =>
                ok == ReadPacked(f.kind, d).Some?
                && (ok ==> cursor.it == old(cursor.it) + size && cachedValue == Nums(ReadPacked(f.kind, d).value))
    {
      hide ReadPacked;
      var ns := cursor.TakePacked(f.kind);
      ok := ns.Some?;
      if ok {
        cachedValue := Nums(ns.value);
      }
    }

    /** A chunk of octets joins the cached list or replaces the cached octets. */
    method TakeOctets(f: Field) returns (ok: bool)
      requires f.kind.Bytes? && Caches(f)
      modifies cursor, this`cachedValue
      ensures old(cursor.it) <= cursor.it
      ensures match ReadChunk(old(cursor.Rest()))
              case Fail => !ok
              case Got(d, size) =>
                ok && cursor.IsValid() && cursor.it == old(cursor.it) + size
                && cachedValue == if f.IsList() then Texts(old(cachedValue).ds + [d]) else Text(d)
    {
      var d := cursor.TakeChunk();
      ok := d.Some?;
      if ok {
        cachedValue := if f.IsList() then Texts(cachedValue.ds + [d.value]) else Text(d.value);
      }
    }

    /** deserializeEnum: the wire type only matters to a list. */
    method DeserializeEnum(f: Field) returns (ok: bool)
      requires f.kind.Enum? && Caches(f)
      modifies cursor, this`cachedValue
      ensures old(cursor.it) <= cursor.it
      ensures var r := TakeField(cx.types, f, wireType, old(cursor.Rest()), old(cachedValue));
              ok == r.Got? && (ok ==> cachedValue == r.value && cursor.it == old(cursor.it) + r.size)
    {
      hide TakeField, ReadNumber, ReadPacked, ReadChunk, TypedValue;
      TakeByShape(cx.types, f, wireType, cursor.Rest(), cachedValue);
      if !f.rule.Repeated? || wireType == WireVarint {
        ok := TakeSingle(f);
      } else if wireType == WireChunk {
        ok := TakeList(f);
      } else {
        ok := false;
      }
    }

    /** The handler registered for the field's type, once the wire type is what it expects. */
    method RunHandler(f: Field, nonPacked: bool) returns (ok: bool)
      requires !f.kind.MessageOf? && !f.kind.Enum? && Caches(f)
      requires nonPacked == (wireType != WireChunk && f.rule.Repeated?)
      requires if f.rule.Repeated? && !nonPacked then wireType == WireChunk else wireType == KindWire(f.kind)
      modifies cursor, this`cachedValue
      ensures old(cursor.it) <= cursor.it
      ensures var r := TakeField(cx.types, f, wireType, old(cursor.Rest()), old(cachedValue));
              ok == r.Got? && (ok ==> cachedValue == r.value && cursor.it == old(cursor.it) + r.size)
    {
      hide TakeField, ReadNumber, ReadPacked, ReadChunk, TypedValue;
      TakeByShape(cx.types, f, wireType, cursor.Rest(), cachedValue);
      if f.kind.Bytes? {
        ok := TakeOctets(f);
      } else if f.rule.Repeated? && !nonPacked {
        ok := TakeList(f);
      } else {
        ok := TakeSingle(f);
      }
    }

    /** deserializeScalarField: false when no handler is registered, which only happens to unpacked
        lists of octet strings; any other failure leaves an error and no cached value. */
    method DeserializeScalarField(f: Field) returns (handled: bool)
      requires !f.kind.MessageOf? && !f.kind.Enum? && Caches(f)
      modifies cursor, this`cachedValue, this`lastError
      ensures old(cursor.it) <= cursor.it
      ensures var r := TakeField(cx.types, f, wireType, old(cursor.Rest()), old(cachedValue));
              if r.Got? then
                handled && lastError == old(lastError) && cachedValue == r.value
                && cursor.it == old(cursor.it) + r.size
              else handled ==> cachedValue == Absent && HasError()
      ensures handled == !(f.kind.Bytes? && f.rule.Repeated? && wireType != WireChunk)
      ensures !handled ==> lastError == old(lastError)
    {
      hide TakeField, TypedValue;
      TakeByShape(cx.types, f, wireType, cursor.Rest(), cachedValue);
      var nonPacked := wireType != WireChunk && f.rule.Repeated?;
      if nonPacked && f.kind.Bytes? {
        return false;
      }
      var expected := if f.rule.Repeated? && !nonPacked then WireChunk else KindWire(f.kind);
      if expected != wireType {
        lastError := InvalidHeader;
        cachedValue := Absent;
        return true;
      }
      var ok := RunHandler(f, nonPacked);
      if !ok {
        cachedValue := Absent;
        lastError := UnexpectedEndOfStream;
      }
      return true;
    }

    /** The two scalar branches of deserializeMessage. */
    method DeserializeValue(f: Field) returns (ok: bool)
      requires !f.kind.MessageOf? && Caches(f)
      modifies cursor, this`cachedValue, this`lastError
      ensures old(cursor.it) <= cursor.it && (old(HasError()) ==> HasError())
      ensures var r := TakeField(cx.types, f, wireType, old(cursor.Rest()), old(cachedValue));
              if r.Got? then
                ok && lastError == old(lastError) && cachedValue == r.value
                && cursor.it == old(cursor.it) + r.size
              else !ok && HasError()
    {
      hide TakeField, TypedValue;
      if f.kind.Enum? {
        ok := DeserializeEnum(f);
        if !ok {
          lastError := UnknownType;
        }
        return;
      }
      var handled := DeserializeScalarField(f);
      if !handled {
        lastError := UnknownType;
      }
      return handled && !cachedValue.Absent?;
    }

    // ---------- the write-back cache ----------

    /** The pending write, if any, is carried out. */
    method StoreCachedValue(ty: nat, m0: Message) returns (m: Message)
      requires ty < |cx.types| && Typed(cx.types, ty, m0) && CacheFits(ty)
      modifies this`cachedIndex, this`cachedValue
      ensures cachedIndex == -1 && m == old(Effective(ty, m0))
    {
      m := m0;
      if cachedIndex >= 0 && !cachedValue.Absent? {
        SetTyped(cx.types, ty, m, cachedIndex, cachedValue);
        m := Set(cx.types[ty], m, cachedIndex, cachedValue);
        cachedValue := Absent;
        cachedIndex := -1;
      }
    }

    /** The cache moves to field `i`: it then holds what that field would be updated from, and to
        write back through it is to assign the field of the message as it was meant to be. */
    method FetchCache(ty: nat, m0: Message, i: nat, ghost seen: set<nat>) returns (m: Message)
      requires WellFormed(cx.types) && ty < |cx.types| && Typed(cx.types, ty, m0) && CacheFits(ty)
      requires i < |cx.types[ty]|
      modifies this`cachedIndex, this`cachedValue
      ensures Typed(cx.types, ty, m) && cachedIndex == i && CacheFits(ty)
      ensures Caches(cx.types[ty][i])
      ensures cachedValue == Prior(cx, ty, old(Frame(Effective(ty, m0), seen)), i)
      ensures WritesThrough(ty, m, i, seen, old(Frame(Effective(ty, m0), seen)))
    {
      m := m0;
      ghost var fr := Frame(Effective(ty, m0), seen);
      assert WellFormedType(cx.types, cx.types[ty]) && WellFormedField(cx.types, cx.types[ty][i]);
      if cachedIndex != i {
        m := StoreCachedValue(ty, m);
        GetForUpdateTyped(cx.types, ty, m, i);
        cachedValue := GetForUpdate(cx.types, cx.types[ty], m, i);
        cachedIndex := i;
        WriteThroughSet(ty, m, i, seen);
      } else {
        GetAfterSet(cx.types, cx.types[ty], m, i, cachedValue);
        WriteThroughCache(ty, m, i, seen, cachedValue);
      }
    }

    /** Setting field `i` of `m` is assigning it in `fr`. */
    ghost predicate WritesThrough(ty: nat, m: Message, i: nat, seen: set<nat>, fr: Frame)
      requires WellFormed(cx.types) && ty < |cx.types| && Typed(cx.types, ty, m) && i < |cx.types[ty]|
      requires Typed(cx.types, ty, fr.m)
    {
      forall w :: TypedValue(cx.types, cx.types[ty][i], w) ==>
        Assigned(cx, ty, fr, i, w) == Frame(Set(cx.types[ty], m, i, w), seen + {i})
    }

    lemma WriteThroughSet(ty: nat, m: Message, i: nat, seen: set<nat>)
      requires WellFormed(cx.types) && ty < |cx.types| && Typed(cx.types, ty, m) && i < |cx.types[ty]|
      ensures WritesThrough(ty, m, i, seen, Frame(m, seen))
    {
    }

    lemma WriteThroughCache(ty: nat, m: Message, i: nat, seen: set<nat>, v: Value)
      requires WellFormed(cx.types) && ty < |cx.types| && Typed(cx.types, ty, m) && i < |cx.types[ty]|
      requires TypedValue(cx.types, cx.types[ty][i], v)
      ensures Typed(cx.types, ty, Set(cx.types[ty], m, i, v))
      ensures WritesThrough(ty, m, i, seen, Frame(Set(cx.types[ty], m, i, v), seen))
    {
      SetTyped(cx.types, ty, m, i, v);
      forall w | TypedValue(cx.types, cx.types[ty][i], w)
        ensures Assigned(cx, ty, Frame(Set(cx.types[ty], m, i, v), seen), i, w)
                == Frame(Set(cx.types[ty], m, i, w), seen + {i})
      {
        SetAfterSet(cx.types[ty], m, i, v, w);
      }
    }

    // ---------- nested messages ----------

    /** What a frame owes its caller: the reference result for the body up to the top limit. */
    ghost function Promised(ty: nat, m: Message): (r: Option<Message>)
      requires Valid() && limits != [] && cursor.it <= Top() && Typed(cx.types, ty, m)
      reads this`limits, this`lastError, cursor
      ensures r.Some? ==> Typed(cx.types, ty, r.value)
    {
      if HasError() then None else Decode(cx, ty, cursor.data[cursor.it..Top()], m)
    }

    /** The cache is set aside while a nested message is read. */
    method DeserializeMessageField(ty: nat, m0: Message) returns (ok: bool, m: Message)
      requires Valid() && limits != [] && cursor.it <= Top() && Typed(cx.types, ty, m0)
      modifies this, cursor
      ensures Valid() && Typed(cx.types, ty, m) && old(cursor.it) <= cursor.it
      ensures |limits| >= |old(limits)| - 1 && (!ok || old(HasError()) ==> HasError())
      ensures cachedIndex == old(cachedIndex) && cachedValue == old(cachedValue)
      ensures match old(Promised(ty, m0))
              case None => HasError()
              case Some(r) => ok && !HasError() && m == r && cursor.it == old(Top())
                              && limits == old(limits[..|limits| - 1])
      decreases |cursor.data| - cursor.it, 2
    {
      hide Promised, Typed;
      var prevCachedValue, prevCachedIndex := cachedValue, cachedIndex;
      cachedValue, cachedIndex := Absent, -1;
      ok, m := DeserializeMessage(ty, m0);
      cachedValue, cachedIndex := prevCachedValue, prevCachedIndex;
    }

    /** The message branches of deserializeMessage: a message is filled in place, a list gets a new
        element first, a map gets the entry pushed once it has been read. */
    method DeserializeSub(f: Field) returns (ok: bool)
      requires Valid() && limits != [] && cursor.it <= Top() && f.kind.MessageOf? && Caches(f)
      modifies this, cursor
      ensures Valid() && Caches(f) && old(cursor.it) <= cursor.it && cachedIndex == old(cachedIndex)
      ensures |limits| >= |old(limits)| - 1 && (!ok || old(HasError()) ==> HasError())
      ensures if old(HasError()) then HasError()
              else match UpdateMessage(cx, f, old(cursor.data[cursor.it..Top()]), old(cachedValue))
                   case None => HasError()
                   case Some(v) => ok && !HasError() && cachedValue == v && cursor.it == old(Top())
                                   && limits == old(limits[..|limits| - 1])
      decreases |cursor.data| - cursor.it, 3
    {
      hide Decode, Push;
      var ty := f.kind.ty;
      var m;
      if !f.IsList() {
        ok, m := DeserializeMessageField(ty, cachedValue.m);
        cachedValue := Sub(m);
        return;
      }
      DefaultTyped(cx.types, ty);
      if f.rule.Map? {
        ok, m := DeserializeMessageField(ty, Default(cx.types[ty]));
        if ok {
          PushTyped(cx.types, ty, cachedValue.ms, m);
          cachedValue := Subs(Push(cx.types, ty, cachedValue.ms, m));
        }
      } else {
        var elements := cachedValue.ms;
        cachedValue := Subs(elements + [Default(cx.types[ty])]);
        ok, m := DeserializeMessageField(ty, Default(cx.types[ty]));
        cachedValue := Subs(elements + [m]);
      }
    }

    /** The field the cache has moved to is read. `fr` is the frame its value was fetched from. */
    method FillMessage(ty: nat, m: Message, i: nat, ghost seen: set<nat>, ghost fr: Frame,
                       ghost outer: seq<nat>, ghost total: Option<Frame>)
      returns (ok: bool)
      requires Valid() && ty < |cx.types| && Typed(cx.types, ty, m) && Typed(cx.types, ty, fr.m)
      requires i < |cx.types[ty]| && cx.types[ty][i].kind.MessageOf? && Caches(cx.types[ty][i])
      requires cachedIndex == i && cachedValue == Prior(cx, ty, fr, i) && WritesThrough(ty, m, i, seen, fr)
      requires outer != [] && outer[|outer| - 1] <= |cursor.data|
      requires |limits| == |outer| + 1 && limits[..|outer|] == outer && cursor.it <= Top()
      requires total == if HasError() then None
                        else DueBody(cx, ty, cursor.data, cursor.it, Top(), outer[|outer| - 1], i, fr)
      modifies this, cursor
      ensures Valid() && CacheFits(ty) && old(cursor.it) <= cursor.it && |limits| >= |outer|
      ensures old(HasError()) || !ok ==> HasError()
      ensures HasError() ==> total == None
      ensures !HasError() ==> limits == outer && Owes(ty, m, seen + {i}, Top(), total)
      decreases |cursor.data| - cursor.it, 4
    {
      hide Typed, TypedValue, Decode, DecodeFrom, Prior, UpdateMessage, Due, DueBody, WellFormedField, Set;
      TypedShape(cx.types, ty, m);
      var f := cx.types[ty][i];
      BodyDone(cx, ty, cursor.data, cursor.it, Top(), outer[|outer| - 1], i, fr);
      ghost var v := UpdateMessage(cx, f, cursor.data[cursor.it..Top()], cachedValue);
      ok := DeserializeSub(f);
      if !HasError() {
        assert Assigned(cx, ty, fr, i, v.value) == Frame(Set(cx.types[ty], m, i, v.value), seen + {i});
      }
    }

    method FillScalar(ty: nat, m: Message, i: nat, ghost seen: set<nat>, ghost fr: Frame,
                      ghost total: Option<Frame>)
      returns (ok: bool)
      requires Valid() && ty < |cx.types| && Typed(cx.types, ty, m) && Typed(cx.types, ty, fr.m)
      requires i < |cx.types[ty]| && !cx.types[ty][i].kind.MessageOf? && Caches(cx.types[ty][i])
      requires cachedIndex == i && cachedValue == Prior(cx, ty, fr, i) && WritesThrough(ty, m, i, seen, fr)
      requires cursor.IsValid() && limits != []
      requires total == if HasError() then None
                        else DueField(cx, ty, cursor.data, cursor.it, Top(), i, wireType, fr)
      modifies cursor, this`cachedValue, this`lastError
      ensures Valid() && old(cursor.it) <= cursor.it && (ok ==> CacheFits(ty))
      ensures old(HasError()) || !ok ==> HasError()
      ensures HasError() ==> total == None
      ensures !HasError() ==> Owes(ty, m, seen + {i}, Top(), total)
    {
      hide Typed, TypedValue, DecodeFrom, Prior, Due, DueField, WellFormedField, TakeField, Set;
      TypedShape(cx.types, ty, m);
      var f := cx.types[ty][i];
      ScalarDone(cx, ty, cursor.data, cursor.it, Top(), i, wireType, fr);
      ghost var r := TakeField(cx.types, f, wireType, cursor.Rest(), cachedValue);
      ok := DeserializeValue(f);
      if !HasError() {
        assert Assigned(cx, ty, fr, i, r.value) == Frame(Set(cx.types[ty], m, i, r.value), seen + {i});
      }
    }

    /** The body of the loop in deserializeMessage. */
    method DeserializeField(ty: nat, m0: Message, i: nat, ghost seen: set<nat>, ghost outer: seq<nat>,
                            ghost total: Option<Frame>)
      returns (ok: bool, m: Message)
      requires Valid() && ty < |cx.types| && Typed(cx.types, ty, m0) && CacheFits(ty) && i < |cx.types[ty]|
      requires cursor.IsValid() && Found(ty, m0, i, seen, outer, total)
      modifies this, cursor
      ensures Valid() && Typed(cx.types, ty, m) && old(cursor.it) <= cursor.it
      ensures |limits| >= |outer| && (ok ==> CacheFits(ty))
      ensures old(HasError()) || !ok ==> HasError()
      ensures HasError() ==> total == None
      ensures ok ==> limits != [] && Owes(ty, m, seen + {i}, Top(), total)
      ensures !HasError() ==> limits == outer
      decreases |cursor.data| - cursor.it, 5
    {
      hide Typed, TypedValue, DecodeFrom, Prior, Due, DueField, DueBody, WellFormedField, Effective, WritesThrough;
      ghost var fr := Frame(Effective(ty, m0), seen);
      m := FetchCache(ty, m0, i, seen);
      if cx.types[ty][i].kind.MessageOf? {
        ok := FillMessage(ty, m, i, seen, fr, outer, total);
      } else {
        ok := FillScalar(ty, m, i, seen, fr, total);
      }
    }

    // ---------- whole frames ----------

    /** checkRequiredFields: an error that is pending is not replaced. */
    method CheckRequiredFields(ty: nat, seenFields: seq<bv64>, ghost seen: set<nat>) returns (ok: bool)
      requires ty < |cx.types| && Tracks(seenFields, |cx.types[ty]|, seen)
      modifies this`lastError
      ensures old(HasError()) ==> ok && lastError == old(lastError)
      ensures !old(HasError()) ==> ok == RequiredSeen(cx.types[ty], seen) && HasError() == !ok
      ensures ok && !old(HasError()) ==>
                forall i :: 0 <= i < |cx.types[ty]| && cx.types[ty][i].rule.Required? ==> i in seen
    {
      hide Has;
      if HasError() {
        return true;
      }
      var t := cx.types[ty];
      ok := true;
      for i := 0 to |t|
        invariant ok == forall j :: 0 <= j < i && t[j].rule.Required? ==> j in seen
      {
        if t[i].rule.Required? && !Has(seenFields, i) {
          ok := false;
        }
      }
      if !ok {
        lastError := InvalidFormat;
      }
    }

    /** The loop of deserializeMessage, with the words of the fields it has seen. */
    method DeserializeFields(ty: nat, m0: Message, ghost total: Option<Frame>)
      returns (ok: bool, m: Message, seenFields: seq<bv64>, ghost seen: set<nat>)
      requires Valid() && limits != [] && ty < |cx.types| && Typed(cx.types, ty, m0) && CacheFits(ty)
      requires Owes(ty, m0, {}, Top(), total)
      modifies this, cursor
      ensures Valid() && Typed(cx.types, ty, m) && old(cursor.it) <= cursor.it
      ensures |limits| >= |old(limits)| - 1 && (!ok || old(HasError()) ==> HasError())
      ensures HasError() ==> total == None
      ensures ok ==> CacheFits(ty) && Tracks(seenFields, |cx.types[ty]|, seen)
      ensures !HasError() ==> cursor.it == old(Top()) && limits == old(limits[..|limits| - 1])
                              && total == Some(Frame(Effective(ty, m), seen))
      decreases |cursor.data| - cursor.it, 0
    {
      hide Typed, TypedValue, Due, Effective, Found, Owes, CacheFits, Tracks, Adding, WellFormed, Set;
      ghost var outer := limits;
      seen := {};
      seenFields := seq((|cx.types[ty]| + 63) / 64, _ => 0);
      TracksNothing(|cx.types[ty]|);
      var index;
      index, m := NextFieldIndex(ty, m0, seen, total);
      while index >= 0
        invariant Valid() && Typed(cx.types, ty, m) && CacheFits(ty) && old(cursor.it) <= cursor.it
        invariant old(HasError()) ==> HasError()
        invariant Tracks(seenFields, |cx.types[ty]|, seen)
        invariant -1 <= index < |cx.types[ty]| && |limits| >= |old(limits)| - 1
        invariant index >= 0 ==>
                    old(cursor.it) < cursor.it && cursor.IsValid() && Found(ty, m, index, seen, outer, total)
                    && |outer| >= |old(limits)| && (HasError() || outer == old(limits))
        invariant index == -1 && HasError() ==> total == None
        invariant index == -1 && !HasError() ==>
                    cursor.it == old(Top()) && limits == old(limits[..|limits| - 1])
                    && total == Some(Frame(Effective(ty, m), seen))
        decreases |cursor.data| - cursor.it, index
      {
        TracksOneMore(seenFields, |cx.types[ty]|, index, seen);
        seenFields := Adding(seenFields, index);
        ok, m := DeserializeField(ty, m, index, seen, outer, total);
        if !ok {
          return;
        }
        seen := seen + {index};
        outer := limits;
        index, m := NextFieldIndex(ty, m, seen, total);
      }
      ok := true;
    }

    method DeserializeMessage(ty: nat, m0: Message) returns (ok: bool, m: Message)
      requires Valid() && limits != [] && cursor.it <= Top() && Typed(cx.types, ty, m0) && cachedIndex == -1
      modifies this, cursor
      ensures Valid() && Typed(cx.types, ty, m) && old(cursor.it) <= cursor.it
      ensures |limits| >= |old(limits)| - 1 && (!ok || old(HasError()) ==> HasError())
      ensures match old(Promised(ty, m0))
              case None => HasError()
              case Some(r) => ok && !HasError() && m == r && cursor.it == old(Top())
                              && limits == old(limits[..|limits| - 1])
      decreases |cursor.data| - cursor.it, 1
    {
      assert ty < |cx.types|;
      hide Typed, TypedValue, DecodeFrom, Decode, Due, Effective, RequiredSeen, Owes, CacheFits, Tracks;
      hide Promised, Total;
      StartOwing(ty, m0);
      var seenFields;
      ghost var seen;
      ok, m, seenFields, seen := DeserializeFields(ty, m0, Total(ty, m0));
      if ok {
        m := StoreCachedValue(ty, m);
        ok := CheckRequiredFields(ty, seenFields, seen);
      }
    }

    /** The reference frame at the end of the body that the top limit ends. */
    ghost function Total(ty: nat, m: Message): Option<Frame>
      requires Valid() && limits != [] && cursor.it <= Top() && Typed(cx.types, ty, m)
      reads this`limits, this`lastError, cursor
    {
      if HasError() then None else Due(cx, ty, cursor.data, cursor.it, Top(), Frame(m, {}))
    }

    lemma StartOwing(ty: nat, m: Message)
      requires Valid() && limits != [] && cursor.it <= Top() && Typed(cx.types, ty, m) && cachedIndex == -1
      ensures ty < |cx.types| && CacheFits(ty) && Owes(ty, m, {}, Top(), Total(ty, m))
      ensures Promised(ty, m)
              == match Total(ty, m)
                 case None => None
                 case Some(fr) => if RequiredSeen(cx.types[ty], fr.seen) then Some(fr.m) else None
    {
      hide DecodeFrom;
    }
  }

  /** QProtobufSerializer::deserializeMessage, with the maximum input size in force: accepted inputs
      are those the reference decoder accepts, and the message is then the one it yields. So whatever
      the message held, an input is accepted exactly when all its records can be read and, at every
      depth, no required field of any kind is missing. */
  method Deserialize(cx: Context, ty: nat, data: Octets, maximumInputSize: nat, m0: Message)
    returns (error: Error, m: Message)
    requires WellFormed(cx.types) && Typed(cx.types, ty, m0) && maximumInputSize < TWO_TO_32
    ensures ty < |cx.types|
    ensures |data| > maximumInputSize ==> error == MessageTooLarge && m == m0
    ensures error == NoError <==> |data| <= maximumInputSize && Decode(cx, ty, data, m0).Some?
    ensures error == NoError ==> Decode(cx, ty, data, m0) == Some(m)
    ensures error == NoError <==> |data| <= maximumInputSize && Inputs.Accepts(cx, ty, data)
    ensures error == NoError ==>
              Inputs.Items(cx.types[ty], data).Some?
              && forall i :: 0 <= i < |cx.types[ty]| && cx.types[ty][i].rule.Required?
                             ==> Inputs.Occurs(Inputs.Items(cx.types[ty], data).value, i)
  {
    hide Decode, Inputs.Readable, Inputs.Occurs;
    Inputs.AcceptedInput(cx, ty, data, m0);
    if |data| > maximumInputSize {
      return MessageTooLarge, m0;
    }
    var d := new Deserializer(cx, data);
    assert data[0..|data|] == data;
    var _, r := d.DeserializeMessage(ty, m0);
    return d.lastError, r;
  }

  /** The bits set are the fields seen. */
  predicate Tracks(words: seq<bv64>, count: nat, seen: set<nat>) {
    |words| == (count + 63) / 64 && forall i :: 0 <= i < count ==> (Has(words, i) <==> i in seen)
  }

  lemma NothingMeets(x: bv64)
    ensures !Meets(0, x)
  {
  }

  lemma TracksNothing(count: nat)
    ensures Tracks(seq((count + 63) / 64, _ => 0 as bv64), count, {})
  {
    hide Meets, Bit;
    var words := seq((count + 63) / 64, _ => 0 as bv64);
    forall i | 0 <= i < count
      ensures !Has(words, i)
    {
      NothingMeets(Bit(i % 64));
    }
  }

  lemma TracksOneMore(words: seq<bv64>, count: nat, k: nat, seen: set<nat>)
    requires Tracks(words, count, seen) && k < count
    ensures k / 64 < |words| && Tracks(Adding(words, k), count, seen + {k})
  {
    hide Has, Adding;
    forall i | 0 <= i < count
      ensures Has(Adding(words, k), i) <==> i in seen + {k}
    {
      HasAfterAdding(words, k, i);
    }
  }
}
