/** A set of field indices, one bit each, in 64-bit words. */
module Bitsets {

  function Bit(k: nat): bv64
    requires k < 64
  {
    1 << k
  }

  predicate Meets(x: bv64, y: bv64) {
    x & y != 0
  }

  function Union(x: bv64, y: bv64): bv64 {
    x | y
  }

  lemma Distributes(w: bv64, x: bv64, y: bv64)
    ensures (w | x) & y == (w & y) | (x & y)
  {
  }

  lemma ZeroUnion(a: bv64, b: bv64)
    requires a == 0
    ensures a | b == b
  {
  }

  lemma NonzeroUnion(a: bv64, b: bv64)
    requires a != 0
    ensures a | b != 0
  {
  }

  lemma UnionMeets(w: bv64, x: bv64, y: bv64)
    ensures Meets(Union(w, x), y) == (Meets(w, y) || Meets(x, y))
  {
    Distributes(w, x, y);
    var a, b := w & y, x & y;
    if a == 0 {
      ZeroUnion(a, b);
    } else {
      NonzeroUnion(a, b);
    }
  }

  lemma ShiftMeets(a: bv64, b: bv64)
    requires a < 64 && b < 64
    ensures (1 as bv64 << a) & (1 as bv64 << b) != 0 <==> a == b
  {
  }

  lemma BitMeets(a: nat, b: nat)
    requires a < 64 && b < 64
    ensures Meets(Bit(a), Bit(b)) <==> a == b
  {
    ShiftMeets(a as bv64, b as bv64);
  }

  predicate Has(words: seq<bv64>, i: nat)
    requires i / 64 < |words|
  {
    Meets(words[i / 64], Bit(i % 64))
  }

  function Adding(words: seq<bv64>, i: nat): (r: seq<bv64>)
    requires i / 64 < |words|
    ensures |r| == |words|
  {
    words[i / 64 := Union(words[i / 64], Bit(i % 64))]
  }

  lemma SameIndex(i: nat, j: nat)
    ensures i == j <==> i / 64 == j / 64 && i % 64 == j % 64
  {
  }

  /** Setting the bit of one index changes the answer for that index only. */
  lemma HasAfterAdding(words: seq<bv64>, i: nat, j: nat)
    requires i / 64 < |words| && j / 64 < |words|
    ensures Has(Adding(words, i), j) <==> i == j || Has(words, j)
  {
    hide Meets, Union, Bit;
    SameIndex(i, j);
    UnionMeets(words[i / 64], Bit(i % 64), Bit(j % 64));
    BitMeets(i % 64, j % 64);
  }
}
