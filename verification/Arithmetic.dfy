/** Integer arithmetic as C defines it, and facts about products and quotients. */
module Arithmetic {

  lemma ProductMonotone(x: int, y: int, b: nat)
    requires x <= y
    ensures x * b <= y * b
  {
  }

  /** Euclidean quotients are determined by their bounds. */
  lemma QuotientIs(a: int, b: nat, q: int)
    requires 0 < b
    ensures a / b == q <==> q * b <= a < q * b + b
  {
    var d := a / b;
    assert d * b <= a < d * b + b;
    if q < d {
      ProductMonotone(q + 1, d, b);
    } else if d < q {
      ProductMonotone(d + 1, q, b);
    }
  }

  lemma RemainderOfSmall(x: nat, c: nat)
    requires x < c
    ensures x % c == x && (x + c) % c == x
  {
    QuotientIs(x, c, 0);
    QuotientIs(x + c, c, 1);
    assert x % c == x - x / c * c;
    assert (x + c) % c == x + c - (x + c) / c * c;
  }

  /** Division truncates toward zero. */
  function Div(a: int, b: int): int
    requires b != 0
  {
    if (a >= 0) == (b > 0) then Abs(a) / Abs(b) else -(Abs(a) / Abs(b))
  }

  /** The remainder has the sign of the dividend. */
  function Mod(a: int, b: int): int
    requires b != 0
  {
    a - Div(a, b) * b
  }

  function Abs(a: int): nat {
    if a < 0 then -a else a
  }

  /** What remains of an integer stored in the given number of bits, read back with a sign. */
  function Signed(x: int, half: int): (r: int)
    requires 0 < half
    ensures -half <= r < half
    ensures -half <= x < half ==> r == x
  {
    SignedInRange(x, half);
    (x + half) % (2 * half) - half
  }

  lemma SignedInRange(x: int, half: int)
    requires 0 < half
    ensures -half <= x < half ==> (x + half) % (2 * half) == x + half
  {
    if -half <= x < half {
      RemainderOfSmall(x + half, 2 * half);
    }
  }

  // ---------------------------------------------------------------- truncating division

  lemma QuotientMonotone(a: nat, b: nat, d: int)
    requires d > 0 && a <= b
    ensures 0 <= a / d <= b / d
  {
    var q, p := a / d, b / d;
    assert q * d <= a && b < p * d + d;
    if p < q { ProductMonotone(p + 1, q, d); }
  }

  lemma DivMonotone(a: int, b: int, d: int)
    requires d > 0 && a <= b
    ensures Div(a, d) <= Div(b, d)
  {
    if a >= 0 {
      QuotientMonotone(a, b, d);
    } else if b < 0 {
      QuotientMonotone(-b, -a, d);
    } else {
      QuotientMonotone(0, -a, d);
      QuotientMonotone(0, b, d);
    }
  }

  /** A quotient bound from a product bound. */
  lemma DivBounds(a: int, d: int, lo: int, hi: int)
    requires d > 0 && lo * d <= a <= hi * d
    ensures lo <= Div(a, d) <= hi
  {
    DivMultiple(lo, d);
    DivMultiple(hi, d);
    DivMonotone(lo * d, a, d);
    DivMonotone(a, hi * d, d);
  }

  lemma DivMultiple(c: int, d: int)
    requires d > 0
    ensures Div(c * d, d) == c
  {
    SameSign(d, c);
    DivIs(c * d, d, c);
  }

  /** Where the quotient lies: between zero and the dividend, at most one divisor away from it. */
  lemma DivIs(a: int, d: int, q: int)
    requires d > 0
    ensures a >= 0 ==> (Div(a, d) == q <==> q * d <= a < q * d + d)
    ensures a <= 0 ==> (Div(a, d) == q <==> q * d - d < a <= q * d)
  {
    if a >= 0 {
      QuotientIs(a, d, q);
    }
    if a <= 0 {
      QuotientIs(-a, d, -q);
      assert (-q) * d == -(q * d);
    }
  }

  lemma QuotientCancelled(c: int, a: nat, d: int)
    requires c > 0 && d > 0
    ensures c * d > 0 && (c * a) / (c * d) == a / d
  {
    var q := a / d;
    Positive(c, d);
    Scaled(c, q * d, a);
    Scaled(c, a + 1, q * d + d);
    assert c * (q * d) == q * (c * d) && c * (q * d + d) == q * (c * d) + c * d;
    assert c * (a + 1) == c * a + c;
    QuotientIs(c * a, c * d, q);
  }

  lemma DivCancelled(c: int, a: int, d: int)
    requires c > 0 && d > 0
    ensures c * d > 0 && Div(c * a, c * d) == Div(a, d)
  {
    SameSign(c, a);
    if a >= 0 {
      QuotientCancelled(c, a, d);
    } else {
      QuotientCancelled(c, -a, d);
      assert c * -a == -(c * a);
    }
  }

  lemma Positive(c: int, d: int)
    requires c > 0 && d > 0
    ensures c * d > 0
  {
  }

  lemma SameSign(c: int, a: int)
    requires c > 0
    ensures a >= 0 <==> c * a >= 0
    ensures a <= 0 <==> c * a <= 0
  {
  }

  lemma Scaled(c: int, a: int, b: int)
    requires c > 0
    ensures a <= b <==> c * a <= c * b
  {
    if a < b { assert c * (b - a) > 0; }
    if a > b { assert c * (a - b) > 0; }
  }
}
