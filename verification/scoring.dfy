/**
 * Arithmetic the mini-games share: rating tiers as step functions over
 * ascending thresholds, and JavaScript's `Math.round`.
 */
module Scoring {

  /** A rating as the games return it: the label and the colour it is drawn in. */
  datatype Rating = Rating(text: string, color: string)

  /** Thresholds listed in strictly ascending order. */
  ghost predicate Ascending(cuts: seq<real>) {
    forall i, j :: 0 <= i < j < |cuts| ==> cuts[i] < cuts[j]
  }

  /**
   * Reference definition of a rating tier: the number of thresholds that `v`
   * has reached. Each game writes its rating as an if-cascade; that cascade
   * is shown to be a table lookup at this index.
   */
  function Tier(v: real, cuts: seq<real>): (k: nat)
    ensures k <= |cuts|
  {
    if |cuts| == 0 then 0
    else (if cuts[0] <= v then 1 else 0) + Tier(v, cuts[1..])
  }

  /** A larger measurement never lands in a lower tier. */
  lemma {:induction false} TierMonotone(v: real, w: real, cuts: seq<real>)
    requires v <= w
    ensures Tier(v, cuts) <= Tier(w, cuts)
  {
    if |cuts| > 0 {
      TierMonotone(v, w, cuts[1..]);
    }
  }

  /** Over ascending thresholds, the tier counts a prefix: exactly the thresholds at or below `v`. */
  lemma {:induction false} TierPrefix(v: real, cuts: seq<real>)
    requires Ascending(cuts)
    ensures forall i :: 0 <= i < |cuts| ==> (i < Tier(v, cuts) <==> cuts[i] <= v)
  {
    if |cuts| > 0 {
      var rest := cuts[1..];
      assert Ascending(rest) by {
        forall i, j | 0 <= i < j < |rest| ensures rest[i] < rest[j] {
          assert rest[i] == cuts[i + 1] && rest[j] == cuts[j + 1];
        }
      }
      TierPrefix(v, rest);
      if v < cuts[0] && |rest| > 0 {
        assert cuts[0] < rest[0];
      }
      forall i | 0 <= i < |cuts| ensures (i < Tier(v, cuts) <==> cuts[i] <= v) {
        if i > 0 {
          assert cuts[i] == rest[i - 1];
          assert cuts[0] < cuts[i];
        }
      }
    }
  }

  /** Over ascending thresholds, `v` is in tier `k` exactly when it lies in the k-th band. */
  lemma TierBand(v: real, cuts: seq<real>, k: nat)
    requires Ascending(cuts) && k <= |cuts|
    ensures Tier(v, cuts) == k <==> (k == 0 || cuts[k - 1] <= v) && (k == |cuts| || v < cuts[k])
  {
    TierPrefix(v, cuts);
  }

  /** JavaScript's `Math.round`: the nearest integer, with halves rounded up. */
  function Round(x: real): (r: int)
    ensures x - 0.5 < r as real <= x + 0.5
  {
    (x + 0.5).Floor
  }

  /** Rounding never reverses an order. */
  lemma RoundMonotone(x: real, y: real)
    requires x <= y
    ensures Round(x) <= Round(y)
  {
  }

  /** An integral value rounds to itself. */
  lemma RoundOfInt(n: int)
    ensures Round(n as real) == n
  {
  }

  /** Dividing by the same positive amount keeps the order. */
  lemma DivMonotone(a: real, b: real, n: real)
    requires a <= b && n > 0.0
    ensures a / n <= b / n
  {
    assert b / n - a / n == (b - a) / n;
  }

  /** A total between `n` times two bounds gives a mean between them. */
  lemma DivBounds(v: real, n: real, lo: real, hi: real)
    requires n > 0.0 && lo * n <= v <= hi * n
    ensures lo <= v / n <= hi
  {
    DivMonotone(lo * n, v, n);
    DivMonotone(v, hi * n, n);
    assert lo * n / n == lo && hi * n / n == hi;
  }

  /** The rounded value reaches a whole number exactly when the value plus one half does. */
  lemma RoundReaches(x: real, c: int)
    ensures Round(x) >= c <==> x + 0.5 >= c as real
  {
  }

  /** A positive amount divided by itself is 1, and a multiple of it divided by it is the factor. */
  lemma DivSelf(k: real, d: real)
    requires d > 0.0
    ensures d / d == 1.0 && k * d / d == k
  {
  }

  /** Division by a positive amount distributes over a difference. */
  lemma DivSub(a: real, b: real, d: real)
    requires d > 0.0
    ensures (a - b) / d == a / d - b / d
  {
  }

  /** A value of `Math.random()`: a real in [0, 1). */
  type Draw = r: real | 0.0 <= r < 1.0

  /** `Math.floor(Math.random() * n)`: a valid index into a list of `n` entries. */
  function Pick(rand: Draw, n: nat): (i: nat)
    requires n > 0
    ensures i < n
  {
    var f := (rand * n as real).Floor;
    assert f as real <= rand * n as real < n as real;
    f
  }

  /** The total of a sequence of counts or times. */
  function Sum(xs: seq<int>): int
    decreases |xs|
  {
    if xs == [] then 0 else xs[0] + Sum(xs[1..])
  }

  function Max(a: int, b: int): (m: int)
    ensures m >= a && m >= b && (m == a || m == b)
  {
    if a >= b then a else b
  }
}
