/** Small vocabulary and arithmetic shared by every module. */
module Prelude {
  datatype Option<+T> = None | Some(value: T)

  function Max(a: int, b: int): int { if a < b then b else a }

  function Min(a: int, b: int): int { if a < b then a else b }

  function At<K(==), V>(m: map<K, V>, key: K): Option<V> { if key in m then Some(m[key]) else None }

  lemma SameMap<V>(a: map<string, V>, b: map<string, V>)
    requires forall key: string :: At(a, key) == At(b, key)
    ensures a == b
  {
    forall key: string ensures key in a <==> key in b { assert At(a, key) == At(b, key); }
    forall key: string | key in a ensures a[key] == b[key] { assert At(a, key) == At(b, key); }
  }

  lemma MulMonotone(k: int, a: int, b: int)
    requires k >= 0 && a <= b
    ensures k * a <= k * b
  {
  }

  /** A multiple of `d` that fits into `x` is a lower bound of the quotient. */
  lemma DivBound(x: int, d: int, q: int)
    requires d > 0 && d * q <= x
    ensures q <= x / d
  {
    if q > x / d {
      MulMonotone(d, x / d + 1, q);
      assert false;
    }
  }
}
