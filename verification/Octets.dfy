/** Octet strings, and the results of the readers that consume a prefix of one. */
module Octets {

  type Octet = x: int | 0 <= x < 256

  type Octets = seq<Octet>

  datatype Option<+T> = None | Some(value: T)

  /** A reader either fails or yields a value together with the number of octets it consumed. */
  datatype Read<+T> = Fail | Got(value: T, size: nat)
  {
    /** The same read seen through a window of `n` octets: it must have fitted. */
    function Within(n: nat): Read<T> {
      if Got? && size <= n then this else Fail
    }
  }

  lemma DropDrop(d: Octets, a: nat, b: nat)
    requires a + b <= |d|
    ensures d[a..][b..] == d[a + b..]
  {
  }

  lemma TakeDrop(d: Octets, n: nat, k: nat)
    requires k <= n <= |d|
    ensures d[..n][k..] == d[k..][..n - k]
  {
  }

  lemma AppendDrop(a: Octets, b: Octets, k: nat)
    requires k <= |a|
    ensures (a + b)[k..] == a[k..] + b
  {
  }

  lemma DivUnique(n: nat, p: nat, q: nat, r: nat)
    requires p > 0 && n == p * q + r && r < p
    ensures n / p == q && n % p == r
  {
    var q', r' := n / p, n % p;
    assert q' < q ==> p * (q' + 1) <= p * q;
    assert q < q' ==> p * (q + 1) <= p * q';
  }

  lemma Reassociate(a: nat, p: nat, q: nat)
    ensures a * (p * q) == a * p * q
  {
  }

  /** Dividing by the base of the digits and then by a power of it. */
  lemma DivTwice(n: nat, base: nat, p: nat)
    requires p > 0 && (base == 128 || base == 256)
    ensures n / base / p == n / (base * p)
  {
    var m, s := n / base, n % base;
    var q, r := m / p, m % p;
    var pq := p * q;
    Reassociate(base, p, q);
    assert n == base * (pq + r) + s;
    DivUnique(n, base * p, q, base * r + s);
  }
}
