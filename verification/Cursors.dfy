/**
 The self-checking iterator over the input, and the scalar readers that move it.

 The iterator may run past the end; it then counts as having no octets left. Reading at the end
 position yields the zero terminator of the buffer.
 */
module Cursors {
  import opened Octets
  import opened Varint
  import opened Scalars
  import opened Records

  class Cursor {
    const data: Octets
    var it: nat

    constructor (data: Octets)
      ensures this.data == data && it == 0
    {
      this.data := data;
      it := 0;
    }

    predicate IsValid()
      reads this
    {
      it <= |data|
    }

    function BytesLeft(): nat
      reads this
    {
      if IsValid() then |data| - it else 0
    }

    /** The octets ahead; none once the iterator has run past the end. */
    function Rest(): (r: Octets)
      reads this
      ensures |r| == BytesLeft()
    {
      if IsValid() then data[it..] else []
    }

    /** operator+=: a no-op on an iterator that is invalid already. */
    method Advance(count: nat)
      modifies this
      ensures it == old(it) + if old(IsValid()) then count else 0
    {
      if IsValid() {
        it := it + count;
      }
    }

    /** deserializeVarintCommon: seven bits at a time, kept to 64 bits. The shift of an eleventh
        octet is undefined in the program; here the read fails. */
    method ReadVarint() returns (r: Option<nat>)
      modifies this
      ensures match Read64(old(Rest()))
              case Fail => r == None && old(it) <= it && (old(IsValid()) ==> IsValid())
              case Got(value, size) => r == Some(value) && it == old(it) + size && IsValid()
    {
      hide PlusSeptet, Joined, Spell;
      var value: nat, k := 0, 0;
      ghost var start, total: nat := Rest(), 0;
      JoinStart(start);
      while true
        invariant k <= MAX_SIZE && it == old(it) + k && (k > 0 ==> IsValid())
        invariant old(Rest()) == start && value == total % TWO_TO_64
        invariant Spell(start, MAX_SIZE) == Continued(total, k, Spell(Rest(), MAX_SIZE - k))
        decreases MAX_SIZE - k
      {
        SpellStep(Rest(), MAX_SIZE - k);
        if BytesLeft() == 0 || k == MAX_SIZE {
          return None;
        }
        var octet := data[it];
        ghost var tail := Spell(data[it + 1..], MAX_SIZE - k - 1);
        JoinStep(total, k, octet, tail);
        PlusSeptetWraps(total, k, octet % 128);
        value := PlusSeptet(value, k, octet % 128);
        it := it + 1;
        if octet < 128 {
          return Some(value);
        }
        total := Joined(total, k, octet - 128);
        k := k + 1;
      }
    }

    /** The fixed-width deserializeBasic. */
    method TakeFixed(width: nat) returns (r: Option<nat>)
      modifies this
      ensures match ReadFixed(old(Rest()), width)
              case Fail => r == None && it == old(it)
              case Got(n, size) => r == Some(n) && (width > 0 ==> IsValid()) && it == old(it) + size
    {
      if BytesLeft() < width {
        return None;
      }
      r := Some(FromLittleEndian(Rest()[..width]));
      Advance(width);
    }

    /** deserializeLengthDelimited: the length is checked against the whole input. */
    method TakeChunk() returns (r: Option<Octets>)
      modifies this
      ensures match ReadChunk(old(Rest()))
              case Fail => r == None && old(it) <= it && (old(IsValid()) ==> IsValid())
              case Got(d, size) => r == Some(d) && it == old(it) + size && IsValid()
    {
      hide Read64;
      ghost var start := Rest();
      var length := ReadVarint();
      if length.None? || BytesLeft() < length.value {
        return None;
      }
      r := Some(Rest()[..length.value]);
      assert r.value == start[it - old(it)..it - old(it) + length.value];
      Advance(length.value);
    }

    /** The deserializeBasic of a numeric kind. */
    method TakeNumber(k: Kind) returns (r: Option<int>)
      requires k.IsNumeric()
      modifies this
      ensures match ReadNumber(k, old(Rest()))
              case Fail => r == None && old(it) <= it && (old(IsValid()) ==> IsValid())
              case Got(n, size) => r == Some(n) && it == old(it) + size && IsValid()
    {
      Pow256Sizes();
      var w: Option<nat>;
      if ShapeOf(k) == AsVarint {
        w := ReadVarint();
      } else if ShapeOf(k) == As32 {
        w := TakeFixed(4);
      } else {
        w := TakeFixed(8);
      }
      r := match w case None => None case Some(n) => Some(FromWire(k, n));
    }

    /** deserializeList: elements are read from the whole input until the iterator meets the end of
        the list, which it may also step over; then it can only run into the end of the input. */
    method TakePacked(k: Kind) returns (r: Option<seq<int>>)
      requires k.IsNumeric()
      modifies this
      ensures old(it) <= it && (old(IsValid()) ==> IsValid())
      ensures match ReadChunk(old(Rest()))
              case Fail => r == None
              case Got(d, size) => r == ReadPacked(k, d) && (r.Some? ==> it == old(it) + size)
    {
      hide Read64, ReadPacked;
      ghost var start := Rest();
      var count := ReadVarint();
      if count.None? || BytesLeft() < count.value {
        return None;
      }
      ghost var n := it - old(it);
      assert start[n..n + count.value] == data[it..it + count.value];
      r := TakeElements(k, it + count.value);
    }

    /** The loop of deserializeList. */
    method TakeElements(k: Kind, last: nat) returns (r: Option<seq<int>>)
      requires k.IsNumeric() && it <= last <= |data|
      modifies this
      ensures old(it) <= it && IsValid()
      ensures r == ReadPacked(k, data[old(it)..last]) && (r.Some? ==> it == last)
    {
      hide ReadNumber, ReadPacked, Prepended;
      ghost var chunk := data[it..last];
      var out: seq<int> := [];
      PrependNothing(ReadPacked(k, chunk));
      while it != last
        invariant IsValid() && old(it) <= it && AllInRange(k, out)
        invariant it <= last ==> ReadPacked(k, chunk) == Prepended(out, ReadPacked(k, data[it..last]))
        invariant it > last ==> ReadPacked(k, chunk) == None
        decreases |data| - it
      {
        PackedStep(k, data, it, last);
        PrependToFailure(out);
        var n := TakeNumber(k);
        if n.None? {
          return None;
        }
        PrependMore(out, n.value, ReadPacked(k, data[it..if it <= last then last else it]));
        out := out + [n.value];
      }
      PrependToNothing(k, out, data[it..last]);
      return Some(out);
    }

    /** skipVarint: the zero terminator of the buffer ends the loop at the end of the input. */
    method PassVarint()
      requires IsValid()
      modifies this
      ensures match SkipVarint(old(Rest()))
              case None => it == |data| + 1
              case Some(n) => it == old(it) + n
    {
      while it < |data| && data[it] >= 128
        invariant old(it) <= it && IsValid()
        invariant match SkipVarint(old(Rest()))
                  case None => SkipVarint(Rest()) == None
                  case Some(n) => SkipVarint(Rest()) == Some(old(it) + n - it)
        decreases |data| - it
      {
        assert data[it..][1..] == data[it + 1..];
        it := it + 1;
      }
      it := it + 1;
    }
  }

  function Prepended(out: seq<int>, r: Option<seq<int>>): Option<seq<int>> {
    match r
    case None => None
    case Some(ns) => Some(out + ns)
  }

  lemma PrependNothing(r: Option<seq<int>>)
    ensures Prepended([], r) == r
  {
    if r.Some? {
      assert [] + r.value == r.value;
    }
  }

  lemma PrependToFailure(out: seq<int>)
    ensures Prepended(out, None) == None
  {
  }

  lemma PrependMore(out: seq<int>, n: int, r: Option<seq<int>>)
    ensures Prepended(out, Prepended([n], r)) == Prepended(out + [n], r)
  {
    if r.Some? {
      assert out + ([n] + r.value) == out + [n] + r.value;
    }
  }

  lemma PrependToNothing(k: Kind, out: seq<int>, d: Octets)
    requires k.IsNumeric() && d == []
    ensures Prepended(out, ReadPacked(k, d)) == Some(out)
  {
    assert out + [] == out;
  }

  lemma ReadNumberWindow(k: Kind, d: Octets, n: nat)
    requires k.IsNumeric() && n <= |d|
    ensures ReadNumber(k, d[..n]) == ReadNumber(k, d).Within(n)
  {
    ShapeWindow(ShapeOf(k), d, n);
  }

  /** One element of the list `data[it..last]`, read from the whole input. */
  lemma PackedStep(k: Kind, data: Octets, it: nat, last: nat)
    requires k.IsNumeric() && it <= |data| && last <= |data|
    ensures it < last ==>
              match ReadNumber(k, data[it..])
              case Fail => ReadPacked(k, data[it..last]) == None
              case Got(n, size) =>
                if it + size <= last
                then ReadPacked(k, data[it..last]) == Prepended([n], ReadPacked(k, data[it + size..last]))
                else ReadPacked(k, data[it..last]) == None
  {
    hide ReadNumber;
    if it < last {
      var d := data[it..last];
      assert d == data[it..][..last - it];
      ReadNumberWindow(k, data[it..], last - it);
      match ReadNumber(k, data[it..])
      case Fail =>
      case Got(n, size) =>
        if it + size <= last {
          assert d[size..] == data[it + size..last];
        }
    }
  }

  /** value += septet << 7 * k, modulo 2^64. */
  function PlusSeptet(value: nat, k: nat, septet: nat): nat {
    (value + septet * Pow128(k)) % TWO_TO_64
  }

  /** The number spelled by `k` septets worth `total` and the continuation `v`. */
  function Joined(total: nat, k: nat, v: nat): nat {
    total + v * Pow128(k)
  }

  function Continued(total: nat, k: nat, r: Read<nat>): Read<nat> {
    match r
    case Fail => Fail
    case Got(v, n) => Got(Joined(total, k, v), k + n)
  }

  lemma SpellStep(d: Octets, limit: nat)
    ensures Spell(d, limit)
            == if d == [] || limit == 0 then Fail
               else if d[0] < 128 then Got(d[0], 1)
               else match Spell(d[1..], limit - 1)
                    case Fail => Fail
                    case Got(v, n) => Got(d[0] - 128 + 128 * v, n + 1)
  {
  }

  lemma JoinStart(d: Octets)
    ensures Spell(d, MAX_SIZE) == Continued(0, 0, Spell(d, MAX_SIZE))
  {
  }

  lemma JoinStep(total: nat, k: nat, octet: Octet, tail: Read<nat>)
    ensures octet >= 128 && tail.Got? ==>
              Joined(total, k, octet - 128 + 128 * tail.value)
              == Joined(Joined(total, k, octet - 128), k + 1, tail.value)
  {
    if octet >= 128 && tail.Got? {
      var p, v := Pow128(k), tail.value;
      assert (octet - 128 + 128 * v) * p == (octet - 128) * p + v * (128 * p);
    }
  }

  lemma PlusSeptetWraps(total: nat, k: nat, septet: nat)
    ensures PlusSeptet(total % TWO_TO_64, k, septet) == Joined(total, k, septet) % TWO_TO_64
  {
    ModAdd(total, septet * Pow128(k));
  }

  lemma ModAdd(a: nat, b: nat)
    ensures (a % TWO_TO_64 + b) % TWO_TO_64 == (a + b) % TWO_TO_64
  {
  }
}
