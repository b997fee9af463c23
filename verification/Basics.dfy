/**
 * Small shared vocabulary: optional values, bytes and digests with what is assumed of them, minimum
 * and maximum, maps with every value replaced, and facts about products and quotients.
 */
module Basics {

  datatype Option<+T> = None | Some(value: T)

  type Byte = b: int | 0 <= b < 256

  type Digest = string

  // What is assumed of a digest function: different inputs give different digests.
  ghost predicate CollisionFree(h: seq<Byte> -> Digest) {
    forall a, b :: h(a) == h(b) ==> a == b
  }

  function Min(a: int, b: int): int {
    if a <= b then a else b
  }

  function Max(a: int, b: int): int {
    if a >= b then a else b
  }

  // The map with f applied to every value.
  ghost function MapValues<K, V, W>(f: V -> W, m: map<K, V>): (r: map<K, W>)
    ensures r.Keys == m.Keys
    ensures forall k :: k in m ==> r[k] == f(m[k])
    decreases |m|
  {
    if m == map[] then map[]
    else
      var k :| k in m;
      assert |m - {k}| < |m| by { assert m == (m - {k})[k := m[k]]; }
      MapValues(f, m - {k})[k := f(m[k])]
  }

  // Any map with the keys of m and the values f gives is that map.
  lemma MapValuesUnique<K, V, W>(f: V -> W, m: map<K, V>, r: map<K, W>)
    requires r.Keys == m.Keys && forall k :: k in m ==> r[k] == f(m[k])
    ensures r == MapValues(f, m)
  {
  }

  // ---- division by products ----

  lemma MulMonotone(a: int, b: int, k: int)
    requires a <= b && k >= 0
    ensures a * k <= b * k
  {
  }

  lemma MulStep(a: int, b: int, k: int)
    requires k >= 0
    ensures a < b ==> a * k + k <= b * k
  {
    if a < b { MulMonotone(a + 1, b, k); }
  }

  // The quotient is the number of whole divisors that fit.
  lemma DivUnique(t: int, k: int, q: int)
    requires k > 0 && q * k <= t < q * k + k
    ensures t / k == q && t % k == t - q * k
  {
    assert t == (t / k) * k + t % k;
    MulStep(t / k, q, k);
    MulStep(q, t / k, k);
  }
}
