/**
 The format octet by octet: what the writers put at every place, and what the readers make of octets
 that no writer of this program would have produced.
 */
module Wire {
  import opened Octets
  import opened Varint
  import opened Scalars
  import opened Schema
  import opened Records
  import Frames

  // ---------- varints ----------

  /** Seven bits an octet, the lowest first; all but the last octet are marked as continued. */
  lemma {:induction false} VarintOctets(v: nat, k: nat)
    requires k < |Write(v)|
    ensures Write(v)[k] == v / Pow128(k) % 128 + if k < |Write(v)| - 1 then 128 else 0
    decreases k
  {
    if k > 0 {
      VarintOctets(v / 128, k - 1);
      DivTwice(v, 128, Pow128(k - 1));
    }
  }

  /** The number that groups of seven bits stand for, the lowest group first. */
  function Grouped(groups: seq<nat>): nat {
    if groups == [] then 0 else groups[0] + 128 * Grouped(groups[1..])
  }

  /** Whatever continues over at most ten octets is read, the shortest form or not: the groups of seven
      bits make the number, of which 64 bits are kept. Nothing else is read. */
  lemma {:induction false} VarintRead(d: Octets, n: nat, limit: nat)
    requires 1 <= n <= |d| && n <= limit && d[n - 1] < 128 && forall k :: 0 <= k < n - 1 ==> d[k] >= 128
    ensures Spell(d, limit) == Got(Grouped(seq(n, k requires 0 <= k < n => d[k] % 128)), n)
    decreases n
  {
    var groups := seq(n, k requires 0 <= k < n => d[k] % 128);
    if n > 1 {
      VarintRead(d[1..], n - 1, limit - 1);
      assert groups[1..] == seq(n - 1, k requires 0 <= k < n - 1 => d[1..][k] % 128);
    } else {
      assert groups[1..] == [];
    }
  }

  lemma {:induction false} VarintEndless(d: Octets, limit: nat)
    requires forall k :: 0 <= k < |d| && k < limit ==> d[k] >= 128
    ensures Spell(d, limit).Fail?
    decreases limit
  {
    if d != [] && limit > 0 {
      VarintEndless(d[1..], limit - 1);
    }
  }

  // ---------- fixed widths ----------

  lemma {:induction false} FixedOctets(n: nat, width: nat, k: nat)
    requires k < width
    ensures LittleEndian(n, width)[k] == n / Pow256(k) % 256
    decreases width
  {
    if k > 0 {
      FixedOctets(n / 256, width - 1, k - 1);
      DivTwice(n, 256, Pow256(k - 1));
    }
  }

  // ---------- numbers ----------

  /** The form of a number by its kind: negative numbers of the plain kinds take all 64 bits, whatever
      the width of the kind. */
  lemma NumberOctets(k: Kind, n: int)
    requires InRange(k, n)
    ensures k in {UInt32, UInt64, Bool} ==> n >= 0 && WriteNumber(k, n) == Write(n)
    ensures k in {Int32, Int64, Enum} ==> WriteNumber(k, n) == Write(if n >= 0 then n else n + TWO_TO_64)
    ensures k in {SInt32, SInt64} ==> WriteNumber(k, n) == Write(if n >= 0 then 2 * n else -2 * n - 1)
    ensures k in {Fixed32, SFixed32, Float} ==>
              WriteNumber(k, n) == LittleEndian(if n >= 0 then n else n + TWO_TO_32, 4)
    ensures k in {Fixed64, SFixed64, Double} ==>
              WriteNumber(k, n) == LittleEndian(if n >= 0 then n else n + TWO_TO_64, 8)
  {
    hide Write, LittleEndian, ZigZag;
    if k in {SInt32, SInt64} {
      if k == SInt32 {
        ZigZagRoundTrip32(n);
      } else {
        ZigZagRoundTrip64(n);
      }
    } else {
      Complement(n, if KindWire(k) == Wire32 then TWO_TO_32 else TWO_TO_64);
    }
  }

  lemma Complement(n: int, modulus: int)
    requires 0 < modulus && -modulus <= n < modulus
    ensures n % modulus == if n >= 0 then n else n + modulus
  {
  }

  /** A varint wider than its kind is cut to 32 bits, a truth value is anything but zero, and the
      remainder determines the number. */
  lemma WiderIsCut(k: Kind, w: nat)
    requires w < TWO_TO_64 && KindWire(k) == WireVarint
    ensures k in {UInt32, Int32, Enum} ==> (FromWire(k, w) - w) % TWO_TO_32 == 0
    ensures k in {UInt64, Int64} ==> (FromWire(k, w) - w) % TWO_TO_64 == 0
    ensures k == SInt32 ==> ToWire(k, FromWire(k, w)) == w % TWO_TO_32
    ensures k == SInt64 ==> ToWire(k, FromWire(k, w)) == w
    ensures k == Bool ==> (FromWire(k, w) == 0 <==> w == 0)
  {
    hide Unsigned, Signed, ZigZag, UnZigZag;
    CutToWidth(w, TWO_TO_32);
    CutToWidth(w, TWO_TO_64);
    if k == SInt32 {
      UnZigZagged(w % TWO_TO_32, TWO_TO_32);
    } else if k == SInt64 {
      UnZigZagged(w, TWO_TO_64);
    }
  }

  lemma CutToWidth(w: nat, modulus: nat)
    requires modulus == TWO_TO_32 || modulus == TWO_TO_64
    ensures Unsigned(w, modulus) == w % modulus
    ensures (w % modulus - w) % modulus == 0 && (Signed(w, modulus) - w) % modulus == 0
  {
  }

  lemma UnZigZagged(u: nat, modulus: nat)
    requires (modulus == TWO_TO_32 || modulus == TWO_TO_64) && u < modulus
    ensures ZigZag(UnZigZag(u, modulus), modulus) == u
  {
  }

  // ---------- headers ----------

  /** The three low bits of a tag: two of their values are groups, two mean nothing. */
  lemma TagOctets(number: nat, code: nat, rest: Octets)
    requires 1 <= number < 16 && code < 8
    ensures ReadHeader([8 * number + code] + rest)
            == if code == 0 then Got(Header(number, WireVarint), 1)
               else if code == 1 then Got(Header(number, Wire64), 1)
               else if code == 2 then Got(Header(number, WireChunk), 1)
               else if code == 5 then Got(Header(number, Wire32), 1)
               else Fail
  {
    var d := [8 * number + code] + rest;
    assert Spell(d, MAX_SIZE) == Got(8 * number + code, 1);
  }

  /** A header is whatever varint has the tag of a number and a wire type in its low 32 bits. */
  lemma HeaderIff(d: Octets, number: nat, wire: WireType)
    ensures (ReadHeader(d).Got? && ReadHeader(d).value == Header(number, wire))
            <==> Read64(d).Got? && number >= 1 && Read64(d).value % TWO_TO_32 == 8 * number + WireCode(wire)
  {
    var tag := if Read64(d).Got? then Read64(d).value % TWO_TO_32 else 0;
    WireCodes(wire);
    if tag == 8 * number + WireCode(wire) {
      assert tag / 8 == number && tag % 8 == WireCode(wire);
    }
  }

  /** The wire type of a message or a single enum is not looked at, ... */
  lemma WireTypeIgnored(t: MessageType, i: nat, wire: WireType, other: WireType, h: nat, d: Octets)
    requires i < |t| && (t[i].kind.MessageOf? || (t[i].kind.Enum? && !t[i].IsList()))
    ensures ReadKnown(t[i], i, wire, h, d) == ReadKnown(t[i], i, other, h, d)
  {
  }

  /** ... that of any other field must be its own, or that of a packed list. */
  lemma WireTypeChecked(t: MessageType, i: nat, wire: WireType, h: nat, d: Octets)
    requires i < |t| && !t[i].kind.MessageOf? && (t[i].kind.Enum? ==> t[i].IsList())
    requires wire != KindWire(t[i].kind) && !(wire == WireChunk && t[i].IsList())
    ensures ReadKnown(t[i], i, wire, h, d).Bad?
  {
  }

  // ---------- messages on a stream ----------

  /** A flag, four octets of length with the highest first, the payload. */
  lemma FrameOctets(f: Frames.Frame)
    requires |f.payload| < TWO_TO_32
    ensures var d := Frames.Framed(f);
            && |d| == 5 + |f.payload| && d[0] == f.flag && d[5..] == f.payload
            && (d[1] as int) * 0x100_0000 + (d[2] as int) * 0x1_0000 + (d[3] as int) * 0x100 + d[4] == |f.payload|
  {
    var n := |f.payload|;
    assert n % TWO_TO_32 == n;
    assert n / 0x1_0000 == 256 * (n / 0x100_0000) + n / 0x1_0000 % 256;
    assert n / 0x100 == 256 * (n / 0x1_0000) + n / 0x100 % 256;
  }
}
