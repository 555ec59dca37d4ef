/** Division and remainder facts that the placement and random-sequence modules share. */
module IntegerArithmetic {

  /** Range of an unsigned 32-bit integer. */
  const U32 := 0x1_0000_0000

  function Pow2(k: nat): (p: nat)
    ensures p >= 1
  {
    if k == 0 then 1 else 2 * Pow2(k - 1)
  }

  /** Quotient and remainder are the only pair that recombines to `x`. */
  lemma DivModUnique(x: int, d: int, q: int, r: int)
    requires 0 <= r < d
    requires x == q * d + r
    ensures x / d == q && x % d == r
  {
    assert x == (x / d) * d + x % d;
    var e := q - x / d;
    assert e * d == x % d - r;
    if e >= 1 {
      MulLe(1, e, d);
    } else if e <= -1 {
      MulLe(e, -1, d);
    }
  }

  /** Names the quotient and the remainder of `x`. */
  lemma DivMod(x: int, d: int) returns (q: int, r: int)
    requires 0 < d
    ensures q == x / d && r == x % d && 0 <= r < d && x == q * d + r
    ensures 0 <= x ==> 0 <= q
  {
    q, r := x / d, x % d;
    if q <= -1 {
      MulLe(q, -1, d);
    }
  }

  lemma DivModNext(x: int, d: int)
    requires 0 < d
    ensures if x % d + 1 < d then (x + 1) / d == x / d && (x + 1) % d == x % d + 1
            else (x + 1) / d == x / d + 1 && (x + 1) % d == 0
  {
    var q, r := DivMod(x, d);
    if r + 1 < d {
      DivModUnique(x + 1, d, q, r + 1);
    } else {
      DivModUnique(x + 1, d, q + 1, 0);
    }
  }

  /** Numbers compare as their quotients do, then as their remainders. */
  lemma DivModOrder(x: int, a: int, r: int, y: int, b: int, s: int, d: int)
    requires 0 <= r < d && 0 <= s < d && x == a * d + r && y == b * d + s
    ensures x < y <==> a < b || (a == b && r < s)
  {
    if a < b {
      MulLe(a + 1, b, d);
    } else if b < a {
      MulLe(b + 1, a, d);
    }
  }

  lemma DivModDifference(x: int, a: int, r: int, y: int, b: int, s: int, d: int)
    requires 0 <= r < d && 0 <= s < d && x == a * d + r && y == b * d + s
    ensures (x - y) / d == if s <= r then a - b else a - b - 1
  {
    var e, q := x - y, a - b;
    assert e == q * d + (r - s);
    if s <= r {
      DivModUnique(e, d, q, r - s);
    } else {
      DivModUnique(e, d, q - 1, r - s + d);
    }
  }

  lemma MulLe(a: int, b: int, c: int)
    requires a <= b && 0 <= c
    ensures a * c <= b * c
  {
  }

  lemma MulLt(a: int, b: int, c: int)
    requires a * c < b * c && 0 <= c
    ensures a < b
  {
    if b <= a {
      MulLe(b, a, c);
    }
  }

  /** Below `a * b` the quotient by `b` is below `a`. */
  lemma QuotientBelow(x: nat, a: nat, b: nat)
    requires x < a * b && 0 < b
    ensures x / b < a && x == (x / b) * b + x % b && x % b < b
  {
    assert x == (x / b) * b + x % b;
    MulLt(x / b, a, b);
  }

  /** Reducing an operand first does not change a product modulo `m`. */
  lemma ModMul(a: int, b: int, m: int)
    requires 0 < m
    ensures (a * (b % m)) % m == (a * b) % m
  {
    var q := b / m;
    assert b == q * m + b % m;
    calc {
      a * b;
    ==
      a * (q * m + b % m);
    ==
      (a * q) * m + a * (b % m);
    }
    ModShift(a * (b % m), a * q, m);
  }

  lemma ModShift(x: int, k: int, m: int)
    requires 0 < m
    ensures (k * m + x) % m == x % m
  {
    var q, r := x / m, x % m;
    assert k * m + x == (k + q) * m + r by {
      assert (k + q) * m == k * m + q * m;
    }
    DivModUnique(k * m + x, m, k + q, r);
  }

  /** Reducing a summand first does not change a sum modulo `m`. */
  lemma ModAdd(a: int, b: int, m: int)
    requires 0 < m
    ensures (a % m + b) % m == (a + b) % m
  {
    var q := a / m;
    assert a + b == q * m + (a % m + b);
    ModShift(a % m + b, q, m);
  }
}
