/**
 Base 128 varints: the writer emits the shortest form, the reader accepts up to ten octets and
 keeps the low 64 bits.
 */
module Varint {
  import opened Octets

  const TWO_TO_32: int := 0x1_0000_0000
  const TWO_TO_63: int := 0x8000_0000_0000_0000
  const TWO_TO_64: int := 0x1_0000_0000_0000_0000

  /** Octets a 64-bit shift can still place; an eleventh would be shifted by 70. */
  const MAX_SIZE: nat := 10

  function Write(v: nat): (d: Octets)
    ensures |d| >= 1
    decreases v
  {
    if v < 128 then [v] else [v % 128 + 128] + Write(v / 128)
  }

  /** The unbounded value spelled by the leading varint of `d`, of at most `limit` octets. */
  function Spell(d: Octets, limit: nat): (r: Read<nat>)
    ensures r.Got? ==> 1 <= r.size <= limit && r.size <= |d|
    decreases limit
  {
    if d == [] || limit == 0 then Fail
    else if d[0] < 128 then Got(d[0], 1)
    else match Spell(d[1..], limit - 1)
      case Fail => Fail
      case Got(v, n) => Got(d[0] - 128 + 128 * v, n + 1)
  }

  function Read64(d: Octets): (r: Read<nat>)
    ensures r.Got? ==> 1 <= r.size <= MAX_SIZE && r.size <= |d| && r.value < TWO_TO_64
  {
    match Spell(d, MAX_SIZE)
    case Fail => Fail
    case Got(v, n) => Got(v % TWO_TO_64, n)
  }

  function Pow128(k: nat): (p: nat)
    ensures p >= 1
  {
    if k == 0 then 1 else 128 * Pow128(k - 1)
  }

  lemma {:induction false} WriteSize(v: nat, k: nat)
    requires 1 <= k && v < Pow128(k)
    ensures |Write(v)| <= k
    decreases k
  {
    if v >= 128 {
      assert k >= 2;
      assert v / 128 < Pow128(k - 1);
      WriteSize(v / 128, k - 1);
    }
  }

  lemma WriteSize64(v: nat)
    requires v < TWO_TO_64
    ensures |Write(v)| <= MAX_SIZE
  {
    assert Pow128(3) == 0x20_0000;
    assert Pow128(6) == 0x20_0000 * 0x20_0000;
    assert Pow128(9) == 0x20_0000 * 0x20_0000 * 0x20_0000;
    assert v < Pow128(10);
    WriteSize(v, 10);
  }

  /** No varint spells a value in fewer octets than the writer does. */
  lemma {:induction false} WriteIsShortest(d: Octets, limit: nat)
    requires Spell(d, limit).Got?
    ensures |Write(Spell(d, limit).value)| <= Spell(d, limit).size
    decreases limit
  {
    if d[0] >= 128 {
      var tail := Spell(d[1..], limit - 1);
      var v := d[0] - 128 + 128 * tail.value;
      WriteIsShortest(d[1..], limit - 1);
      assert v / 128 == tail.value;
    }
  }

  lemma {:induction false} SpellWrite(v: nat, rest: Octets, limit: nat)
    requires |Write(v)| <= limit
    ensures Spell(Write(v) + rest, limit) == Got(v, |Write(v)|)
    decreases v
  {
    var d := Write(v) + rest;
    if v >= 128 {
      assert d[1..] == Write(v / 128) + rest;
      SpellWrite(v / 128, rest, limit - 1);
    }
  }

  lemma RoundTrip(v: nat, rest: Octets)
    requires v < TWO_TO_64
    ensures Read64(Write(v) + rest) == Got(v, |Write(v)|)
    ensures |Write(v)| <= MAX_SIZE
  {
    WriteSize64(v);
    SpellWrite(v, rest, MAX_SIZE);
  }

  lemma {:induction false} SpellWindow(d: Octets, n: nat, limit: nat)
    requires n <= |d|
    ensures Spell(d[..n], limit) == Spell(d, limit).Within(n)
    decreases limit
  {
    if n > 0 && limit > 0 && d[0] >= 128 {
      assert d[..n][1..] == d[1..][..n - 1];
      SpellWindow(d[1..], n - 1, limit - 1);
    }
  }

  lemma Read64Window(d: Octets, n: nat)
    requires n <= |d|
    ensures Read64(d[..n]) == Read64(d).Within(n)
  {
    SpellWindow(d, n, MAX_SIZE);
  }

  /** serializeVarintCommonImpl: the loop marks every octet as continued, then unmarks the last. */
  method Serialize(value: nat) returns (result: Octets)
    ensures result == Write(value)
  {
    if value == 0 {
      return [0];
    }
    result := [];
    var rest := value;
    while rest != 0
      invariant rest == 0 ==> |result| > 0 && result[|result| - 1] >= 128
      invariant rest == 0 ==> Write(value) == result[|result| - 1 := result[|result| - 1] - 128]
      invariant rest != 0 ==> Write(value) == result + Write(rest)
      decreases rest
    {
      result := result + [rest % 128 + 128];
      rest := rest / 128;
    }
    var last := |result| - 1;
    result := result[last := result[last] % 128];
  }
}
