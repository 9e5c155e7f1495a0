/**
 The identifier circle of Lab2/Node: `between` (tools.go) and clockwise distance.
 `size` is `hashMod`, the number of identifiers.
 */
module Ring {
  import opened Powers

  predicate Id(size: nat, a: int) {
    0 <= a < size
  }

  /** `between`: is `elt` in the clockwise interval from `start` to `end`, ends excluded or the end included? */
  predicate Between(start: int, elt: int, end: int, inclusive: bool) {
    if end > start then (start < elt < end) || (inclusive && elt == end)
    else start < elt || elt < end || (inclusive && elt == end)
  }

  /** Steps clockwise from `a` to `b`, 0 when they are equal. */
  function Dist(size: nat, a: int, b: int): int {
    if b >= a then b - a else b - a + size
  }

  /** Steps clockwise from `a` to `b`, a full turn when they are equal. */
  function Dist1(size: nat, a: int, b: int): int {
    if b > a then b - a else b - a + size
  }

  /** `(a + d) mod size`. */
  function Plus(size: nat, a: int, d: int): int {
    if a + d >= size then a + d - size else a + d
  }

  /** `between` compares clockwise distances from its start, with a full turn for the start itself. */
  lemma BetweenIsDistance(size: nat, s: int, e: int, t: int)
    requires Id(size, s) && Id(size, e) && Id(size, t)
    ensures Between(s, e, t, true) <==> Dist1(size, s, e) <= Dist1(size, s, t)
    ensures Between(s, e, t, false) <==> Dist1(size, s, e) < Dist1(size, s, t)
  {
  }

  /** Moving to a point strictly inside the interval shortens the way to its end by the length of the move. */
  lemma StepCloser(size: nat, s: int, e: int, t: int)
    requires Id(size, s) && Id(size, e) && Id(size, t) && Between(s, e, t, false)
    ensures Dist1(size, e, t) == Dist1(size, s, t) - Dist(size, s, e)
    ensures 0 < Dist(size, s, e) < Dist1(size, s, t)
    ensures 0 < Dist1(size, e, t) < Dist1(size, s, t)
  {
  }

  /** A point strictly inside the interval is one from which it is less far to the end than from the start. */
  lemma BetweenMeansNearer(size: nat, s: int, e: int, t: int)
    requires Id(size, s) && Id(size, e) && Id(size, t)
    ensures Between(s, e, t, false) <==> Dist1(size, e, t) < Dist1(size, s, t)
  {
  }

  /** A point is in the interval or the end is not reached before it. */
  lemma OutsideMeansBeyond(size: nat, s: int, e: int, t: int)
    requires Id(size, s) && Id(size, e) && Id(size, t) && !Between(s, e, t, true)
    ensures Between(s, t, e, false)
  {
  }

  /** If `id` is in `(n, s]` and no `b` is strictly inside `(n, s)`, then `s` is no further from `id` than `b`. */
  lemma NearestAfter(size: nat, n: int, id: int, s: int, b: int)
    requires Id(size, n) && Id(size, id) && Id(size, s) && Id(size, b)
    requires Between(n, id, s, true) && !Between(n, b, s, false)
    ensures Dist(size, id, s) <= Dist(size, id, b)
  {
  }

  /** If `s` is nearest after `a`, it is nearest after any `c` further on, as long as `c` comes before `s`. */
  lemma NearestFurtherOn(size: nat, n: int, a: int, c: int, s: int, b: int)
    requires Id(size, n) && Id(size, a) && Id(size, c) && Id(size, s) && Id(size, b)
    requires 0 < Dist(size, n, a) < Dist(size, n, c) && Between(n, c, s, false)
    requires Dist(size, a, s) <= Dist(size, a, b)
    ensures Dist(size, c, s) <= Dist(size, c, b)
  {
  }

  lemma DistFacts(size: nat, a: int, b: int)
    requires Id(size, a) && Id(size, b)
    ensures 0 <= Dist(size, a, b) < size
    ensures Dist(size, a, b) == 0 <==> a == b
  {
  }

  lemma PlusDist(size: nat, a: int, d: int)
    requires Id(size, a) && 0 <= d < size
    ensures Id(size, Plus(size, a, d)) && Dist(size, a, Plus(size, a, d)) == d
  {
  }

  lemma PlusMod(size: nat, a: int, d: int)
    requires Id(size, a) && 0 <= d < size
    ensures Plus(size, a, d) == (a + d) % size
  {
    var q := if a + d >= size then 1 else 0;
    ModIs(size, a + d, q, Plus(size, a, d));
  }

  lemma ModIs(size: nat, x: int, q: int, r: int)
    requires 0 <= r < size && x == q * size + r
    ensures x % size == r
  {
    var d := x / size - q;
    assert x == (x / size) * size + x % size;
    assert d * size == (x / size) * size - q * size;
    assert d * size == r - x % size;
    MulBounds(d, size);
  }

  lemma MulBounds(d: int, size: nat)
    ensures d >= 1 ==> d * size >= size
    ensures d <= -1 ==> d * size + size <= 0
  {
  }

  /** `fingerEntry`: `(n + 2^(k-1)) mod 2^m`. */
  function FingerStart(m: nat, n: int, k: nat): int
    requires 1 <= k <= m
  {
    Plus(Pow2(m), n, Pow2(k - 1))
  }

  lemma FingerStartDist(m: nat, n: int, k: nat)
    requires 1 <= k <= m && Id(Pow2(m), n)
    ensures Id(Pow2(m), FingerStart(m, n, k)) && Dist(Pow2(m), n, FingerStart(m, n, k)) == Pow2(k - 1)
    ensures FingerStart(m, n, k) == (n + Pow2(k - 1)) % Pow2(m)
  {
    Pow2Increases(k - 1, m);
    PlusDist(Pow2(m), n, Pow2(k - 1));
    PlusMod(Pow2(m), n, Pow2(k - 1));
  }
}
