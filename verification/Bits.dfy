/** Fixed-width integer arithmetic on bit patterns, total as in SMT bit-vectors. */
module Bits {

  function Pow2(w: nat): (p: nat)
    ensures p >= 1
  {
    if w == 0 then 1 else 2 * Pow2(w - 1)
  }

  /** The bit pattern of n at width w. */
  function Wrap(n: int, w: nat): (r: nat)
    ensures r < Pow2(w)
  {
    n % Pow2(w)
  }

  /** The signed reading of a bit pattern. */
  function ToSigned(n: nat, w: nat): int {
    if w > 0 && n >= Pow2(w - 1) then n - Pow2(w) else n
  }

  /** Two's-complement 64-bit wrap-around: what `+`, `-`, `*` on i64 give in a release build. */
  function WrapI64(n: int): int {
    ToSigned(Wrap(n, 64), 64)
  }

  /** Division rounding toward zero. */
  function TruncDiv(a: int, b: int): int
    requires b != 0
  {
    if a >= 0 then a / b else -((-a) / b)
  }

  /** bvsdiv: truncating, and -1 or 1 by the dividend's sign when the divisor is zero. */
  function SDiv(a: nat, b: nat, w: nat): nat {
    var x, y := ToSigned(Wrap(a, w), w), ToSigned(Wrap(b, w), w);
    if y == 0 then Wrap(if x >= 0 then -1 else 1, w) else Wrap(TruncDiv(x, y), w)
  }

  /** bvsrem: the remainder of the truncating division; the dividend when the divisor is zero. */
  function SRem(a: nat, b: nat, w: nat): nat {
    var x, y := ToSigned(Wrap(a, w), w), ToSigned(Wrap(b, w), w);
    if y == 0 then Wrap(x, w) else Wrap(x - y * TruncDiv(x, y), w)
  }

  function UDiv(a: nat, b: nat, w: nat): nat {
    if Wrap(b, w) == 0 then Wrap(-1, w) else Wrap(a, w) / Wrap(b, w)
  }

  function URem(a: nat, b: nat, w: nat): nat {
    if Wrap(b, w) == 0 then Wrap(a, w) else Wrap(a, w) % Wrap(b, w)
  }

  lemma DivModUnique(x: int, m: nat, q: int, r: int)
    requires m > 0 && x == q * m + r && 0 <= r < m
    ensures x / m == q && x % m == r
  {
    var d := x / m - q;
    assert d * m == r - x % m;
    MulAtLeast(d, m);
  }

  lemma MulAtLeast(d: int, m: nat)
    ensures d >= 1 ==> d * m >= m
    ensures d <= -1 ==> d * m + m <= 0
  {
  }

  // ----- congruence modulo a power of two -----

  lemma {:induction false} Pow2Divides(a: nat, b: nat)
    requires a <= b
    ensures exists q: nat :: Pow2(b) == q * Pow2(a)
  {
    if a == b {
      assert Pow2(b) == 1 * Pow2(a);
    } else {
      Pow2Divides(a, b - 1);
      var q: nat :| Pow2(b - 1) == q * Pow2(a);
      assert Pow2(b) == (2 * q) * Pow2(a);
    }
  }

  lemma ModAddMultiple(x: int, k: int, m: nat)
    requires m > 0
    ensures (x + k * m) % m == x % m
  {
    var q, r := x / m, x % m;
    assert x + k * m == (q + k) * m + r;
    DivModUnique(x + k * m, m, q + k, r);
  }

  /** Patterns that agree modulo the wider power agree at the narrower width. */
  lemma WrapCongruent(x: int, y: int, k: int, w: nat)
    requires x == y + k * Pow2(w)
    ensures Wrap(x, w) == Wrap(y, w)
  {
    ModAddMultiple(y, k, Pow2(w));
  }

  lemma WrapGap(x: int, w: nat) returns (k: int)
    ensures x == Wrap(x, w) + k * Pow2(w)
  {
    k := x / Pow2(w);
  }

  lemma Regroup(a: int, b: int, c: int)
    ensures a * (b * c) == (a * b) * c
  {
  }

  lemma SignedThenWrap(x: int, v: nat, w: nat)
    requires 0 < v && w <= v
    ensures Wrap(ToSigned(Wrap(x, v), v), w) == Wrap(x, w)
  {
    Pow2Divides(w, v);
    var q: nat :| Pow2(v) == q * Pow2(w);
    var k := WrapGap(x, v);
    var y := ToSigned(Wrap(x, v), v);
    var j := if y == Wrap(x, v) then k else k + 1;
    assert x == y + j * Pow2(v);
    Regroup(j, q, Pow2(w));
    WrapCongruent(x, y, j * q, w);
  }

  lemma WrapOperand(x: int, w: nat, w': nat) returns (k: int)
    requires w <= w'
    ensures x == Wrap(x, w') + k * Pow2(w)
  {
    Pow2Divides(w, w');
    var q: nat :| Pow2(w') == q * Pow2(w);
    var j := WrapGap(x, w');
    k := j * q;
    assert j * Pow2(w') == (j * q) * Pow2(w);
  }

  lemma MulCongruent(x: int, y: int, a: int, b: int, j: int, k: int, m: int)
    requires x == a + j * m && y == b + k * m
    ensures x * y == a * b + (a * k + b * j + j * k * m) * m
  {
    assert x * y == a * b + a * (k * m) + (j * m) * b + (j * m) * (k * m);
    assert a * (k * m) == (a * k) * m;
    assert (j * m) * b == (b * j) * m;
    assert (j * m) * (k * m) == (j * k * m) * m;
  }

  // ----- signed words -----

  function Minus(a: nat): int {
    0 - (Pow2(a) as int)
  }

  /** x fits a signed word of v bits. */
  predicate InWord(x: int, v: nat) {
    v > 0 && Minus(v - 1) <= x < Pow2(v - 1)
  }
}
