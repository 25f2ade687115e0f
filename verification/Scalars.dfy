/**
 The scalar codecs. A number is a mathematical integer in the range of its kind; floating-point
 kinds carry their IEEE bit pattern. On the wire every number is a natural: up to 64 bits in a
 varint, exactly 32 or 64 bits in a fixed-width field.
 */
module Scalars {
  import opened Octets
  import opened Varint

  datatype Kind =
    | UInt32 | UInt64 | Int32 | Int64 | SInt32 | SInt64 | Bool | Enum
    | Fixed32 | SFixed32 | Float | Fixed64 | SFixed64 | Double
    | Bytes
    | MessageOf(ty: nat)
  {
    predicate IsNumeric() {
      !Bytes? && !MessageOf?
    }
  }

  datatype WireType = WireVarint | Wire64 | WireChunk | Wire32

  const TWO_TO_31: int := 0x8000_0000

  function KindWire(k: Kind): WireType {
    match k
    case Bytes => WireChunk
    case MessageOf(_) => WireChunk
    case Fixed32 => Wire32
    case SFixed32 => Wire32
    case Float => Wire32
    case Fixed64 => Wire64
    case SFixed64 => Wire64
    case Double => Wire64
    case _ => WireVarint
  }

  predicate InRange(k: Kind, n: int) {
    match k
    case UInt32 => 0 <= n < TWO_TO_32
    case UInt64 => 0 <= n < TWO_TO_64
    case Int32 => -TWO_TO_31 <= n < TWO_TO_31
    case Int64 => -TWO_TO_63 <= n < TWO_TO_63
    case SInt32 => -TWO_TO_31 <= n < TWO_TO_31
    case SInt64 => -TWO_TO_63 <= n < TWO_TO_63
    case Bool => 0 <= n < 2
    case Enum => -TWO_TO_31 <= n < TWO_TO_31
    case Fixed32 => 0 <= n < TWO_TO_32
    case SFixed32 => -TWO_TO_31 <= n < TWO_TO_31
    case Float => 0 <= n < TWO_TO_32
    case Fixed64 => 0 <= n < TWO_TO_64
    case SFixed64 => -TWO_TO_63 <= n < TWO_TO_63
    case Double => 0 <= n < TWO_TO_64
    case Bytes => false
    case MessageOf(_) => false
  }

  /** A C++ conversion to an unsigned type of the given modulus. */
  function Unsigned(n: int, modulus: nat): (u: nat)
    requires modulus > 0
    ensures u < modulus
  {
    n % modulus
  }

  /** A C++ conversion to a two's complement type of the given modulus. */
  function Signed(n: int, modulus: nat): int
    requires modulus > 0
  {
    var u := n % modulus;
    if u < modulus / 2 then u else u - modulus
  }

  /** (n << 1) ^ (n >> (width - 1)): the arithmetic shift is all zeros or all ones, and xor with
      all ones is the complement. */
  function ZigZag(n: int, modulus: nat): nat
    requires modulus > 0
  {
    var shifted := Unsigned(2 * n, modulus);
    if n >= 0 then shifted else modulus - 1 - shifted
  }

  /** (u >> 1) ^ -(u & 1), read back as a signed number. */
  function UnZigZag(u: nat, modulus: nat): int
    requires modulus > 0 && u < modulus
  {
    var half := u / 2;
    Signed(if u % 2 == 0 then half else modulus - 1 - half, modulus)
  }

  lemma ZigZagRoundTrip32(n: int)
    requires -TWO_TO_31 <= n < TWO_TO_31
    ensures ZigZag(n, TWO_TO_32) == if n >= 0 then 2 * n else -2 * n - 1
    ensures UnZigZag(ZigZag(n, TWO_TO_32), TWO_TO_32) == n
  {
  }

  lemma ZigZagRoundTrip64(n: int)
    requires -TWO_TO_63 <= n < TWO_TO_63
    ensures ZigZag(n, TWO_TO_64) == if n >= 0 then 2 * n else -2 * n - 1
    ensures UnZigZag(ZigZag(n, TWO_TO_64), TWO_TO_64) == n
  {
  }

  /** What the writer puts on the wire for a number of the kind. */
  function ToWire(k: Kind, n: int): nat
    requires InRange(k, n)
  {
    match k
    case UInt32 => n
    case UInt64 => n
    case Int32 => Unsigned(n, TWO_TO_64)
    case Int64 => Unsigned(n, TWO_TO_64)
    case SInt32 => ZigZag(n, TWO_TO_32)
    case SInt64 => ZigZag(n, TWO_TO_64)
    case Bool => n
    case Enum => Unsigned(n, TWO_TO_64)
    case Fixed32 => n
    case SFixed32 => Unsigned(n, TWO_TO_32)
    case Float => n
    case Fixed64 => n
    case SFixed64 => Unsigned(n, TWO_TO_64)
    case Double => n
  }

  /** What the reader makes of it; a varint wider than the kind is truncated, not refused. */
  function FromWire(k: Kind, w: nat): (n: int)
    requires k.IsNumeric()
    requires w < if KindWire(k) == Wire32 then TWO_TO_32 else TWO_TO_64
    ensures InRange(k, n)
  {
    match k
    case UInt32 => Unsigned(w, TWO_TO_32)
    case UInt64 => w
    case Int32 => Signed(w, TWO_TO_32)
    case Int64 => Signed(w, TWO_TO_64)
    case SInt32 => UnZigZag(Unsigned(w, TWO_TO_32), TWO_TO_32)
    case SInt64 => UnZigZag(w, TWO_TO_64)
    case Bool => if w == 0 then 0 else 1
    case Enum => Signed(w, TWO_TO_32)
    case Fixed32 => w
    case SFixed32 => Signed(w, TWO_TO_32)
    case Float => w
    case Fixed64 => w
    case SFixed64 => Signed(w, TWO_TO_64)
    case Double => w
  }

  lemma SignedRoundTrip32(n: int)
    requires -TWO_TO_31 <= n < TWO_TO_31
    ensures Signed(Unsigned(n, TWO_TO_32), TWO_TO_32) == n
  {
  }

  lemma SignedRoundTrip64(n: int)
    requires -TWO_TO_63 <= n < TWO_TO_63
    ensures Signed(Unsigned(n, TWO_TO_64), TWO_TO_64) == n
  {
  }

  /** Sign extension to 64 bits does not disturb the low 32. */
  lemma SignExtended(n: int)
    requires -TWO_TO_31 <= n < TWO_TO_31
    ensures Signed(Unsigned(n, TWO_TO_64), TWO_TO_32) == n
  {
    assert Unsigned(n, TWO_TO_64) == if n >= 0 then n else n + TWO_TO_64;
  }

  lemma WireRoundTrip(k: Kind, n: int)
    requires InRange(k, n)
    ensures ToWire(k, n) < if KindWire(k) == Wire32 then TWO_TO_32 else TWO_TO_64
    ensures FromWire(k, ToWire(k, n)) == n
  {
    match k
    case Int32 => SignExtended(n);
    case Enum => SignExtended(n);
    case SInt32 => ZigZagRoundTrip32(n);
    case SInt64 => ZigZagRoundTrip64(n);
    case Int64 => SignedRoundTrip64(n);
    case SFixed32 => SignedRoundTrip32(n);
    case SFixed64 => SignedRoundTrip64(n);
    case _ =>
  }

  /** The presence test of an implicit-presence field: `!=` against zero, under which the negative
      zero of a floating-point kind counts as zero. */
  predicate LooksDefault(k: Kind, n: int) {
    n == 0 || (k == Float && n == TWO_TO_31) || (k == Double && n == TWO_TO_63)
  }

  // ---------- fixed width ----------

  function Pow256(k: nat): (p: nat)
    ensures p >= 1
  {
    if k == 0 then 1 else 256 * Pow256(k - 1)
  }

  function LittleEndian(n: nat, width: nat): (d: Octets)
    ensures |d| == width
    decreases width
  {
    if width == 0 then [] else [n % 256] + LittleEndian(n / 256, width - 1)
  }

  function FromLittleEndian(d: Octets): (n: nat)
    ensures n < Pow256(|d|)
  {
    if d == [] then 0 else d[0] + 256 * FromLittleEndian(d[1..])
  }

  lemma {:induction false} LittleEndianRoundTrip(n: nat, width: nat)
    requires n < Pow256(width)
    ensures FromLittleEndian(LittleEndian(n, width)) == n
    decreases width
  {
    if width > 0 {
      LittleEndianRoundTrip(n / 256, width - 1);
      assert LittleEndian(n, width)[1..] == LittleEndian(n / 256, width - 1);
    }
  }

  lemma Pow256Sizes()
    ensures Pow256(4) == TWO_TO_32 && Pow256(8) == TWO_TO_64
  {
    assert Pow256(2) == 65536;
    assert Pow256(4) == 65536 * 65536;
    assert Pow256(6) == 65536 * 65536 * 65536;
  }

  // ---------- the three ways a payload is delimited ----------

  datatype Shape = AsVarint | As32 | As64 | AsChunk

  datatype Raw = Number(n: nat) | Blob(d: Octets)

  function ShapeOf(k: Kind): Shape {
    match KindWire(k)
    case WireVarint => AsVarint
    case Wire32 => As32
    case Wire64 => As64
    case WireChunk => AsChunk
  }

  predicate RawFits(shape: Shape, raw: Raw) {
    match shape
    case AsVarint => raw.Number? && raw.n < TWO_TO_64
    case As32 => raw.Number? && raw.n < TWO_TO_32
    case As64 => raw.Number? && raw.n < TWO_TO_64
    case AsChunk => raw.Blob?
  }

  function ReadFixed(d: Octets, width: nat): (r: Read<nat>)
    ensures r.Got? ==> r.size == width <= |d| && r.value < Pow256(width)
  {
    if |d| < width then Fail else Got(FromLittleEndian(d[..width]), width)
  }

  function ReadChunk(d: Octets): (r: Read<Octets>)
    ensures r.Got? ==> 1 <= r.size <= |d| && |r.value| < r.size
  {
    match Read64(d)
    case Fail => Fail
    case Got(length, n) =>
      if |d| - n < length then Fail else Got(d[n..n + length], n + length)
  }

  function ReadShape(shape: Shape, d: Octets): (r: Read<Raw>)
    ensures r.Got? ==> 1 <= r.size <= |d| && RawFits(shape, r.value)
    ensures r.Got? && r.value.Blob? ==> |r.value.d| < r.size
  {
    match shape
    case AsVarint => (match Read64(d) case Fail => Fail case Got(n, k) => Got(Number(n), k))
    case As32 =>
      Pow256Sizes();
      (match ReadFixed(d, 4) case Fail => Fail case Got(n, k) => Got(Number(n), k))
    case As64 =>
      Pow256Sizes();
      (match ReadFixed(d, 8) case Fail => Fail case Got(n, k) => Got(Number(n), k))
    case AsChunk => (match ReadChunk(d) case Fail => Fail case Got(c, k) => Got(Blob(c), k))
  }

  function WriteShape(shape: Shape, raw: Raw): (d: Octets)
    requires RawFits(shape, raw)
    ensures |d| >= 1
  {
    match shape
    case AsVarint => Write(raw.n)
    case As32 => LittleEndian(raw.n, 4)
    case As64 => LittleEndian(raw.n, 8)
    case AsChunk => Write(|raw.d|) + raw.d
  }

  /** Every payload is recovered from its own encoding, whatever follows it. */
  lemma ShapeRoundTrip(shape: Shape, raw: Raw, rest: Octets)
    requires RawFits(shape, raw)
    requires raw.Blob? ==> |raw.d| < TWO_TO_64
    ensures ReadShape(shape, WriteShape(shape, raw) + rest)
            == Got(raw, |WriteShape(shape, raw)|)
  {
    var d := WriteShape(shape, raw) + rest;
    match shape
    case AsVarint => Varint.RoundTrip(raw.n, rest);
    case As32 =>
      Pow256Sizes();
      LittleEndianRoundTrip(raw.n, 4);
      assert d[..4] == LittleEndian(raw.n, 4);
    case As64 =>
      Pow256Sizes();
      LittleEndianRoundTrip(raw.n, 8);
      assert d[..8] == LittleEndian(raw.n, 8);
    case AsChunk =>
      var n := |Write(|raw.d|)|;
      assert d == Write(|raw.d|) + (raw.d + rest);
      Varint.RoundTrip(|raw.d|, raw.d + rest);
      assert d[n..n + |raw.d|] == raw.d;
  }

  lemma ShapeWindow(shape: Shape, d: Octets, n: nat)
    requires n <= |d|
    ensures ReadShape(shape, d[..n]) == ReadShape(shape, d).Within(n)
  {
    match shape
    case AsVarint => Read64Window(d, n);
    case As32 => if n >= 4 { assert d[..n][..4] == d[..4]; }
    case As64 => if n >= 8 { assert d[..n][..8] == d[..8]; }
    case AsChunk =>
      Read64Window(d, n);
      var r := Read64(d);
      if r.Got? && r.size + r.value <= n {
        assert d[..n][r.size..r.size + r.value] == d[r.size..r.size + r.value];
      }
  }

  // ---------- numbers and packed lists ----------

  function WriteNumber(k: Kind, n: int): Octets
    requires InRange(k, n)
  {
    WireRoundTrip(k, n);
    WriteShape(ShapeOf(k), Number(ToWire(k, n)))
  }

  function ReadNumber(k: Kind, d: Octets): (r: Read<int>)
    requires k.IsNumeric()
    ensures r.Got? ==> 1 <= r.size <= |d| && InRange(k, r.value)
  {
    match ReadShape(ShapeOf(k), d)
    case Fail => Fail
    case Got(raw, size) => Got(FromWire(k, raw.n), size)
  }

  lemma NumberRoundTrip(k: Kind, n: int, rest: Octets)
    requires InRange(k, n)
    ensures ReadNumber(k, WriteNumber(k, n) + rest) == Got(n, |WriteNumber(k, n)|)
  {
    WireRoundTrip(k, n);
    ShapeRoundTrip(ShapeOf(k), Number(ToWire(k, n)), rest);
  }

  predicate AllInRange(k: Kind, ns: seq<int>) {
    forall i :: 0 <= i < |ns| ==> InRange(k, ns[i])
  }

  function WritePacked(k: Kind, ns: seq<int>): Octets
    requires AllInRange(k, ns)
  {
    if ns == [] then [] else WriteNumber(k, ns[0]) + WritePacked(k, ns[1..])
  }

  /** The elements that tile `d` exactly. */
  function ReadPacked(k: Kind, d: Octets): (r: Option<seq<int>>)
    requires k.IsNumeric()
    ensures r.Some? ==> AllInRange(k, r.value)
    decreases |d|
  {
    if d == [] then Some([])
    else match ReadNumber(k, d)
      case Fail => None
      case Got(n, size) =>
        match ReadPacked(k, d[size..])
        case None => None
        case Some(ns) => Some([n] + ns)
  }

  lemma ReadPackedStep(k: Kind, n: int, head: Octets, tail: Octets)
    requires k.IsNumeric() && head != []
    requires ReadNumber(k, head + tail) == Got(n, |head|)
    ensures ReadPacked(k, head + tail)
            == (match ReadPacked(k, tail) case None => None case Some(ns) => Some([n] + ns))
  {
    assert (head + tail)[|head|..] == tail;
  }

  lemma {:induction false} PackedRoundTrip(k: Kind, ns: seq<int>)
    requires k.IsNumeric() && AllInRange(k, ns)
    ensures ReadPacked(k, WritePacked(k, ns)) == Some(ns)
    decreases |ns|
  {
    if ns != [] {
      var head, tail := WriteNumber(k, ns[0]), WritePacked(k, ns[1..]);
      NumberRoundTrip(k, ns[0], tail);
      PackedRoundTrip(k, ns[1..]);
      ReadPackedStep(k, ns[0], head, tail);
      assert ns == [ns[0]] + ns[1..];
    }
  }
}
