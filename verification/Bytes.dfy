/** Fixed-width integers as bytes, and the peeling argument that makes tagged
    layouts uniquely decodable.
 */
module Bytes {
  import opened Journals

  type Octets = seq<nat>

  const U64_LIMIT: nat := 0x1_0000_0000_0000_0000

  function Pow256(n: nat): (p: nat)
    ensures p > 0
  {
    if n == 0 then 1 else 256 * Pow256(n - 1)
  }

  lemma Pow256Of8()
    ensures Pow256(8) == U64_LIMIT
  {
  }

  /** Little-endian digits of `v` in `n` bytes; higher digits are dropped. */
  function LE(v: nat, n: nat): (b: Octets)
    ensures |b| == n && forall i :: 0 <= i < n ==> b[i] < 256
    decreases n, v
  {
    if n == 0 then [] else [v % 256] + LE(v / 256, n - 1)
  }

  function FromLE(b: Octets): nat {
    if b == [] then 0 else b[0] + 256 * FromLE(b[1..])
  }

  lemma {:induction false} LERoundTrip(v: nat, n: nat)
    requires v < Pow256(n)
    ensures FromLE(LE(v, n)) == v
    decreases n
  {
    if n > 0 {
      DivBound(v, Pow256(n - 1));
      LERoundTrip(v / 256, n - 1);
      assert LE(v, n)[1..] == LE(v / 256, n - 1);
    }
  }

  lemma DivBound(v: nat, p: nat)
    requires v < 256 * p
    ensures v / 256 < p
  {
  }

  /** A content address is written most significant byte first. */
  function Mirror(b: Octets): (r: Octets)
    ensures |r| == |b| && forall i :: 0 <= i < |b| ==> r[i] == b[|b| - 1 - i]
  {
    if b == [] then [] else Mirror(b[1..]) + [b[0]]
  }

  function HashBytes(h: EntryHash): (b: Octets)
    ensures |b| == 32
  {
    Mirror(LE(h, 32))
  }

  predicate IsU64(v: nat) { v < U64_LIMIT }

  predicate IsHash(h: EntryHash) { h < Pow256(32) }

  function U64(v: nat): (b: Octets)
    ensures |b| == 8
  {
    LE(v, 8)
  }

  // ----- peeling fields off the front

  lemma PeelEqual(p: Octets, q: Octets, x: Octets, y: Octets)
    requires |p| == |q| && p + x == q + y
    ensures p == q && x == y
  {
    assert p == (p + x)[..|p|] && x == (p + x)[|p|..];
    assert q == (q + y)[..|q|] && y == (q + y)[|q|..];
  }

  lemma LEInjective(a: nat, b: nat, n: nat)
    requires a < Pow256(n) && b < Pow256(n) && LE(a, n) == LE(b, n)
    ensures a == b
  {
    LERoundTrip(a, n);
    LERoundTrip(b, n);
  }

  lemma U64Injective(a: nat, b: nat)
    requires IsU64(a) && IsU64(b) && U64(a) == U64(b)
    ensures a == b
  {
    Pow256Of8();
    LEInjective(a, b, 8);
  }

  lemma MirrorTwice(b: Octets)
    ensures Mirror(Mirror(b)) == b
  {
  }

  lemma HashInjective(a: EntryHash, b: EntryHash)
    requires IsHash(a) && IsHash(b) && HashBytes(a) == HashBytes(b)
    ensures a == b
  {
    MirrorTwice(LE(a, 32));
    MirrorTwice(LE(b, 32));
    LEInjective(a, b, 32);
  }

  /** An optional number: a presence byte, then the value. */
  function OptU64(o: Option<nat>): (b: Octets)
    ensures |b| == if o.Some? then 9 else 1
    ensures b[0] == if o.Some? then 1 else 0
  {
    match o case Some(v) => [1] + U64(v) case None => [0]
  }

  predicate OptIsU64(o: Option<nat>) { o.Some? ==> IsU64(o.value) }

  lemma PeelOptU64(a: Option<nat>, b: Option<nat>, x: Octets, y: Octets)
    requires OptIsU64(a) && OptIsU64(b) && OptU64(a) + x == OptU64(b) + y
    ensures a == b && x == y
  {
    assert OptU64(a)[0] == (OptU64(a) + x)[0] == (OptU64(b) + y)[0] == OptU64(b)[0];
    PeelEqual(OptU64(a), OptU64(b), x, y);
    if a.Some? {
      PeelEqual([1], [1], U64(a.value), U64(b.value));
      U64Injective(a.value, b.value);
    }
  }

  function OptHash(o: Option<EntryHash>): (b: Octets)
    ensures |b| == if o.Some? then 33 else 1
    ensures b[0] == if o.Some? then 1 else 0
  {
    match o case Some(h) => [1] + HashBytes(h) case None => [0]
  }

  predicate OptIsHash(o: Option<EntryHash>) { o.Some? ==> IsHash(o.value) }

  lemma PeelOptHash(a: Option<EntryHash>, b: Option<EntryHash>, x: Octets, y: Octets)
    requires OptIsHash(a) && OptIsHash(b) && OptHash(a) + x == OptHash(b) + y
    ensures a == b && x == y
  {
    assert OptHash(a)[0] == (OptHash(a) + x)[0] == (OptHash(b) + y)[0] == OptHash(b)[0];
    PeelEqual(OptHash(a), OptHash(b), x, y);
    if a.Some? {
      PeelEqual([1], [1], HashBytes(a.value), HashBytes(b.value));
      HashInjective(a.value, b.value);
    }
  }
}
