/**
 The reference decoding that is still due from a position of the whole input, under a limit.

 The program compares lengths with the whole input and limits only by inequality, so a record may
 end beyond the limit of the message it belongs to. From then on nothing is due any more: the
 functions here are `None` past the limit, and the lemmas relate what the program reads (always
 from the whole input) to what the reference reads (from the slice up to the limit).
 */
module Progress {
  import opened Octets
  import opened Varint
  import opened Scalars
  import opened Schema
  import opened Records
  import opened Decoder

  /** The rest of a message body that ends at `limit`. */
  function Due(cx: Context, ty: nat, data: Octets, it: nat, limit: nat, fr: Frame): Option<Frame>
    requires WellFormed(cx.types) && Typed(cx.types, ty, fr.m) && limit <= |data|
  {
    if it <= limit then DecodeFrom(cx, ty, data[it..limit], fr) else None
  }

  /** The same, when the header of a known field has just been read. */
  function DueField(cx: Context, ty: nat, data: Octets, it: nat, limit: nat, i: nat, wire: WireType,
                    fr: Frame): Option<Frame>
    requires WellFormed(cx.types) && Typed(cx.types, ty, fr.m) && limit <= |data| && i < |cx.types[ty]|
  {
    if it <= limit then
      match ReadKnown(cx.types[ty][i], i, wire, 0, data[it..limit])
      case Known(_, raw, size) => After(cx, ty, fr, i, raw, data[it + size..limit])
      case _ => None
    else None
  }

  /** The same, when the body of a nested message has been delimited. */
  function DueBody(cx: Context, ty: nat, data: Octets, it: nat, end: nat, limit: nat, i: nat,
                   fr: Frame): Option<Frame>
    requires WellFormed(cx.types) && Typed(cx.types, ty, fr.m) && it <= end <= |data| && limit <= |data|
    requires i < |cx.types[ty]| && cx.types[ty][i].kind.MessageOf?
  {
    if end <= limit then After(cx, ty, fr, i, Blob(data[it..end]), data[end..limit]) else None
  }

  lemma DecodeRecord(cx: Context, ty: nat, d: Octets, fr: Frame)
    requires WellFormed(cx.types) && Typed(cx.types, ty, fr.m) && d != []
    ensures DecodeFrom(cx, ty, d, fr)
            == var r := ReadRecord(cx.types[ty], d);
               if r.Bad? then None
               else if r.Unknown? then
                 DecodeFrom(cx, ty, d[r.size..], AfterUnknown(cx, ty, fr, r.number, d[..r.size]))
               else After(cx, ty, fr, r.index, r.raw, d[r.size..])
  {
    hide AfterUnknown, AfterKnown, ReadRecord;
  }

  /** What is due in front of a record, which is read from the whole input. */
  lemma DueAtRecord(cx: Context, ty: nat, data: Octets, it: nat, limit: nat, fr: Frame)
    requires WellFormed(cx.types) && Typed(cx.types, ty, fr.m) && it < limit <= |data| && ty < |cx.types|
    ensures Due(cx, ty, data, it, limit, fr)
            == var r := ReadRecord(cx.types[ty], data[it..]).Within(limit - it);
               if r.Bad? then None
               else if r.Unknown? then
                 Due(cx, ty, data, it + r.size, limit,
                     AfterUnknown(cx, ty, fr, r.number, data[it..it + r.size]))
               else After(cx, ty, fr, r.index, r.raw, data[it + r.size..limit])
  {
    hide DecodeFrom, After, AfterUnknown, ReadRecord, Typed;
    var t := cx.types[ty];
    var d := data[it..limit];
    assert d == data[it..][..limit - it];
    RecordWindow(t, data[it..], limit - it);
    DecodeRecord(cx, ty, d, fr);
    var r := ReadRecord(t, d);
    if !r.Bad? {
      assert d[r.size..] == data[it + r.size..limit];
      assert d[..r.size] == data[it..it + r.size];
    }
  }

  /** A header that does not read, or the end of input below the limit, ends in failure. */
  lemma NothingDue(cx: Context, ty: nat, data: Octets, it: nat, limit: nat, fr: Frame)
    requires WellFormed(cx.types) && Typed(cx.types, ty, fr.m) && it <= |data| && limit <= |data|
    requires it != limit && ReadHeader(data[it..]).Fail?
    ensures Due(cx, ty, data, it, limit, fr) == None
  {
    if it < limit {
      DueAtRecord(cx, ty, data, it, limit, fr);
    }
  }

  lemma DuePastLimit(cx: Context, ty: nat, data: Octets, it: nat, limit: nat, fr: Frame)
    requires WellFormed(cx.types) && Typed(cx.types, ty, fr.m) && limit <= |data|
    ensures it > limit ==> Due(cx, ty, data, it, limit, fr) == None
  {
  }

  lemma DueAtLimit(cx: Context, ty: nat, data: Octets, limit: nat, fr: Frame)
    requires WellFormed(cx.types) && Typed(cx.types, ty, fr.m) && limit <= |data|
    ensures Due(cx, ty, data, limit, limit, fr) == Some(fr)
  {
  }

  lemma UnknownDue(cx: Context, ty: nat, data: Octets, it: nat, limit: nat, fr: Frame)
    requires WellFormed(cx.types) && Typed(cx.types, ty, fr.m) && it <= |data| && limit <= |data|
    requires it != limit && ReadHeader(data[it..]).Got?
    requires IndexOf(cx.types[ty], ReadHeader(data[it..]).value.number, 0).None?
    ensures var h := ReadHeader(data[it..]);
            Due(cx, ty, data, it, limit, fr)
            == match Skip(h.value.wire, data[it + h.size..])
               case None => None
               case Some(n) =>
                 Due(cx, ty, data, it + h.size + n, limit,
                     AfterUnknown(cx, ty, fr, h.value.number, data[it..it + h.size + n]))
  {
    hide DecodeFrom, Skip, IndexOf, After, AfterUnknown;
    var h := ReadHeader(data[it..]);
    DropDrop(data, it, h.size);
    if it < limit {
      DueAtRecord(cx, ty, data, it, limit, fr);
    }
  }

  /** A field read from the whole input, if it ends within the limit. */
  lemma FieldDue(cx: Context, ty: nat, data: Octets, it: nat, limit: nat, fr: Frame, i: nat, wire: WireType)
    requires WellFormed(cx.types) && Typed(cx.types, ty, fr.m) && it <= |data| && limit <= |data|
    requires ty < |cx.types| && i < |cx.types[ty]|
    ensures DueField(cx, ty, data, it, limit, i, wire, fr)
            == var k := ReadKnown(cx.types[ty][i], i, wire, 0, data[it..]);
               if k.Known? && it + k.size <= limit
               then After(cx, ty, fr, i, k.raw, data[it + k.size..limit])
               else None
  {
    hide After, ReadKnown, Typed;
    if it <= limit {
      assert data[it..limit] == data[it..][..limit - it];
      KnownWindow(cx.types[ty][i], i, wire, 0, data[it..], limit - it);
    }
  }

  lemma KnownDue(cx: Context, ty: nat, data: Octets, it: nat, limit: nat, fr: Frame, i: nat)
    requires WellFormed(cx.types) && Typed(cx.types, ty, fr.m) && it <= |data| && limit <= |data|
    requires it != limit && ReadHeader(data[it..]).Got? && ty < |cx.types| && i < |cx.types[ty]|
    requires IndexOf(cx.types[ty], ReadHeader(data[it..]).value.number, 0) == Some(i)
    ensures var h := ReadHeader(data[it..]);
            Due(cx, ty, data, it, limit, fr)
            == DueField(cx, ty, data, it + h.size, limit, i, h.value.wire, fr)
  {
    hide After, AfterUnknown, ReadKnown, IndexOf, DecodeFrom, Typed, ReadRecord, ReadHeader, Due, DueField;
    var f, h := cx.types[ty][i], ReadHeader(data[it..]);
    var p := it + h.size;
    KnownRecord(cx.types[ty], data[it..], i);
    DropDrop(data, it, h.size);
    KnownShift(f, i, h.value.wire, h.size, data[p..]);
    FieldDue(cx, ty, data, p, limit, fr, i, h.value.wire);
    DuePastLimit(cx, ty, data, it, limit, fr);
    if it < limit {
      DueAtRecord(cx, ty, data, it, limit, fr);
    }
  }

  lemma KnownRecord(t: MessageType, d: Octets, i: nat)
    requires i < |t| && ReadHeader(d).Got? && IndexOf(t, ReadHeader(d).value.number, 0) == Some(i)
    ensures var h := ReadHeader(d); ReadRecord(t, d) == ReadKnown(t[i], i, h.value.wire, h.size, d[h.size..])
  {
    hide ReadKnown, IndexOf, ReadHeader;
  }

  lemma KnownShift(f: Field, i: nat, wire: WireType, h: nat, d: Octets)
    ensures ReadKnown(f, i, wire, h, d)
            == match ReadKnown(f, i, wire, 0, d)
               case Known(_, raw, size) => Known(i, raw, h + size)
               case _ => Bad
  {
  }

  /** A nested body: only its length is read before the nested message starts. */
  lemma BodyDue(cx: Context, ty: nat, data: Octets, it: nat, limit: nat, fr: Frame, i: nat, wire: WireType)
    requires WellFormed(cx.types) && Typed(cx.types, ty, fr.m) && it <= |data| && limit <= |data|
    requires i < |cx.types[ty]| && cx.types[ty][i].kind.MessageOf?
    ensures DueField(cx, ty, data, it, limit, i, wire, fr)
            == match Read64(data[it..])
               case Fail => None
               case Got(length, n) =>
                 if |data| - it - n < length then None
                 else DueBody(cx, ty, data, it + n, it + n + length, limit, i, fr)
  {
    hide After, ReadKnown, Read64;
    var f := cx.types[ty][i];
    if it <= limit {
      assert data[it..limit] == data[it..][..limit - it];
      KnownWindow(f, i, wire, 0, data[it..], limit - it);
      BodyKnown(f, i, wire, data[it..]);
      match Read64(data[it..])
      case Fail =>
      case Got(length, n) =>
        if |data| - it - n >= length {
          assert data[it..][n..n + length] == data[it + n..it + n + length];
        }
    }
  }

  lemma BodyKnown(f: Field, i: nat, wire: WireType, d: Octets)
    requires f.kind.MessageOf?
    ensures ReadKnown(f, i, wire, 0, d)
            == match Read64(d)
               case Fail => Bad
               case Got(length, n) =>
                 if |d| - n < length then Bad else Known(i, Blob(d[n..n + length]), n + length)
  {
  }

  /** What is due behind a nested body, given what the body decodes to. */
  lemma BodyDone(cx: Context, ty: nat, data: Octets, it: nat, end: nat, limit: nat, i: nat, fr: Frame)
    requires WellFormed(cx.types) && Typed(cx.types, ty, fr.m) && it <= end <= |data| && limit <= |data|
    requires i < |cx.types[ty]| && cx.types[ty][i].kind.MessageOf?
    ensures DueBody(cx, ty, data, it, end, limit, i, fr)
            == match UpdateMessage(cx, cx.types[ty][i], data[it..end], Prior(cx, ty, fr, i))
               case None => None
               case Some(v) => Due(cx, ty, data, end, limit, Assigned(cx, ty, fr, i, v))
  {
    hide DecodeFrom, UpdateMessage;
    if end <= limit {
      UpdateIsMessage(cx, cx.types[ty][i], data[it..end], Prior(cx, ty, fr, i));
    }
  }

  lemma UpdateIsMessage(cx: Context, f: Field, d: Octets, prior: Value)
    requires WellFormed(cx.types) && WellFormedField(cx.types, f) && f.kind.MessageOf?
    requires TypedValue(cx.types, f, prior) && !prior.Absent?
    ensures Update(cx, f, Blob(d), prior) == UpdateMessage(cx, f, d, prior)
  {
  }

  /** A scalar occurrence, read from octets that may go on behind it. */
  function TakeField(types: Types, f: Field, wire: WireType, d: Octets, prior: Value): (r: Read<Value>)
    requires WellFormedField(types, f) && !f.kind.MessageOf?
    requires TypedValue(types, f, prior) && !prior.Absent?
    ensures r.Got? ==> TypedValue(types, f, r.value) && !r.value.Absent? && 1 <= r.size <= |d|
  {
    match Expected(f, wire)
    case None => Fail
    case Some(shape) =>
      match ReadShape(shape, d)
      case Fail => Fail
      case Got(raw, size) =>
        ExpectedAcceptable(f, wire, raw);
        match UpdateScalar(types, f, raw, prior)
        case None => Fail
        case Some(v) => Got(v, size)
  }

  lemma ScalarDone(cx: Context, ty: nat, data: Octets, it: nat, limit: nat, i: nat, wire: WireType, fr: Frame)
    requires WellFormed(cx.types) && Typed(cx.types, ty, fr.m) && it <= |data| && limit <= |data|
    requires i < |cx.types[ty]| && !cx.types[ty][i].kind.MessageOf?
    ensures var r := TakeField(cx.types, cx.types[ty][i], wire, data[it..], Prior(cx, ty, fr, i));
            DueField(cx, ty, data, it, limit, i, wire, fr)
            == if r.Fail? then None
               else Due(cx, ty, data, it + r.size, limit, Assigned(cx, ty, fr, i, r.value))
  {
    hide DecodeFrom, ReadKnown, TakeField, UpdateScalar;
    var f := cx.types[ty][i];
    var prior := Prior(cx, ty, fr, i);
    TakeIsKnown(cx.types, f, i, wire, data[it..], prior);
    if it <= limit {
      assert data[it..limit] == data[it..][..limit - it];
      KnownWindow(f, i, wire, 0, data[it..], limit - it);
      match ReadKnown(f, i, wire, 0, data[it..])
      case Known(_, raw, size) => UpdateIsScalar(cx, f, raw, prior);
      case _ =>
    }
  }

  lemma TakeIsKnown(types: Types, f: Field, i: nat, wire: WireType, d: Octets, prior: Value)
    requires WellFormedField(types, f) && !f.kind.MessageOf?
    requires TypedValue(types, f, prior) && !prior.Absent?
    ensures var r := ReadKnown(f, i, wire, 0, d);
            TakeField(types, f, wire, d, prior)
            == if !r.Known? || UpdateScalar(types, f, r.raw, prior).None? then Fail
               else Got(UpdateScalar(types, f, r.raw, prior).value, r.size)
  {
  }

  lemma UpdateIsScalar(cx: Context, f: Field, raw: Raw, prior: Value)
    requires WellFormed(cx.types) && WellFormedField(cx.types, f) && !f.kind.MessageOf?
    requires TypedValue(cx.types, f, prior) && !prior.Absent? && Acceptable(f, raw)
    ensures Update(cx, f, raw, prior) == UpdateScalar(cx.types, f, raw, prior)
  {
  }

  /** What a scalar occurrence amounts to, by the way it is delimited. */
  lemma TakeByShape(types: Types, f: Field, wire: WireType, d: Octets, prior: Value)
    requires WellFormedField(types, f) && !f.kind.MessageOf?
    requires TypedValue(types, f, prior) && !prior.Absent?
    ensures Expected(f, wire) == None ==> TakeField(types, f, wire, d, prior) == Fail
    ensures f.kind.IsNumeric() && Expected(f, wire) == Some(ShapeOf(f.kind)) ==>
              TakeField(types, f, wire, d, prior)
              == match ReadNumber(f.kind, d)
                 case Fail => Fail
                 case Got(n, size) => Got(if f.IsList() then Nums(prior.ns + [n]) else Num(n), size)
    ensures f.kind.IsNumeric() && Expected(f, wire) == Some(AsChunk) ==>
              TakeField(types, f, wire, d, prior)
              == match ReadChunk(d)
                 case Fail => Fail
                 case Got(c, size) =>
                   match ReadPacked(f.kind, c)
                   case None => Fail
                   case Some(ns) => Got(Nums(ns), size)
    ensures f.kind.Bytes? && Expected(f, wire).Some? ==>
              TakeField(types, f, wire, d, prior)
              == match ReadChunk(d)
                 case Fail => Fail
                 case Got(c, size) => Got(if f.IsList() then Texts(prior.ds + [c]) else Text(c), size)
  {
    hide ReadPacked, ReadChunk, FromWire;
  }
}
