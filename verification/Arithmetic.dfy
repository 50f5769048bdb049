/** Small facts about products, quotients and remainders. */
module Arithmetic {

  lemma MulMonotone(x: nat, y: nat, b: nat)
    requires x <= y
    ensures x * b <= y * b
  {
  }

  lemma QuotientUnique(d: nat, m: nat, q: nat, r: nat, b: nat)
    requires d * b + m == q * b + r && m < b && r < b
    ensures d == q && m == r
  {
    if d < q {
      MulMonotone(d + 1, q, b);
    } else if d > q {
      MulMonotone(q + 1, d, b);
    }
  }

  lemma DivMod(x: nat, b: nat)
    requires b > 0
    ensures x == x / b * b + x % b && x / b >= 0 && 0 <= x % b < b
  {
  }

  lemma Quotient(x: nat, b: nat, q: nat)
    requires b > 0 && q * b <= x < q * b + b
    ensures x / b == q && x % b == x - q * b
  {
    DivMod(x, b);
    QuotientUnique(x / b, x % b, q, x - q * b, b);
  }

  lemma ModMinus(x: nat, len: nat)
    requires x >= len > 0
    ensures (x - len) % len == x % len
  {
    Quotient(x - len, len, x / len - 1);
  }

  lemma ModPlus(x: nat, y: nat, len: nat)
    requires len > 0 && x % len == 0 && y % len == 0
    ensures (x + y) % len == 0
  {
    var p, q := x / len, y / len;
    assert x + y == (p + q) * len;
    Quotient(x + y, len, p + q);
  }

  lemma SquareOrder(x: real)
    requires x >= 0.0
    ensures x < 1.0 ==> x * x < 1.0
    ensures x > 1.0 ==> x * x > 1.0
  {
    if x < 1.0 {
      assert x * x <= x * 1.0;
    } else {
      assert x * x >= x * 1.0;
    }
  }

  lemma UnitRoot(x: real)
    requires x >= 0.0 && x * x == 1.0
    ensures x == 1.0
  {
    SquareOrder(x);
  }

  lemma Reciprocal(r: real)
    requires r != 0.0
    ensures 1.0 / r * r == 1.0
  {
  }

  lemma ModOnce(x: nat, n: nat)
    requires 0 < n && x < 2 * n
    ensures x % n == if x < n then x else x - n
  {
  }

  lemma PositiveProduct(a: real, b: real)
    requires a > 0.0 && b > 0.0
    ensures a * b > 0.0
  {
  }

  lemma SquareLess(x: real, y: real)
    requires 0.0 <= x < y
    ensures x * x < y * y
  {
    assert y * y - x * x == (y - x) * (y + x);
    PositiveProduct(y - x, y + x);
  }

  lemma SquaresEqual(x: real, y: real)
    requires x >= 0.0 && y >= 0.0 && x * x == y * y
    ensures x == y
  {
    if x < y {
      SquareLess(x, y);
    } else if y < x {
      SquareLess(y, x);
    }
  }

  lemma Cancel(x: real, e: real)
    requires e != 0.0
    ensures x * e / e == x
  {
  }

  /** Row-major position of (r, c) in lines of width w. */
  function Flat(w: nat, r: nat, c: nat): (t: nat) {
    r * w + c
  }

  lemma FlatIs(w: nat, r: nat, c: nat)
    ensures Flat(w, r, c) == r * w + c
  {
  }

  lemma FlatStep(w: nat, r: nat, c: nat)
    ensures Flat(w, r, c + 1) == Flat(w, r, c) + 1
    ensures Flat(w, r + 1, 0) == Flat(w, r, w)
    ensures Flat(w, 0, 0) == 0
  {
  }

  lemma FlatBound(h: nat, w: nat, r: nat, c: nat)
    requires r < h
    ensures c < w ==> Flat(w, r, c) < Flat(w, h, 0)
    ensures c <= w ==> Flat(w, r, c) <= Flat(w, h, 0)
    ensures Flat(w, r, 0) <= Flat(w, r + 1, 0) <= Flat(w, h, 0)
  {
    MulMonotone(r + 1, h, w);
  }

  lemma FlatSplit(h: nat, w: nat, t: nat) returns (r: nat, c: nat)
    requires t < Flat(w, h, 0)
    ensures r < h && c < w && t == Flat(w, r, c)
  {
    r, c := t / w, t % w;
    assert t == w * (t / w) + t % w;
    if r >= h {
      MulMonotone(h, r, w);
    }
  }

  lemma FlatInverse(w: nat, r: nat, c: nat)
    requires c < w
    ensures Flat(w, r, c) / w == r && Flat(w, r, c) % w == c
  {
    Quotient(r * w + c, w, r);
  }

  lemma NonZeroSquare(s: real)
    requires s != 0.0
    ensures s * s > 0.0
  {
    if s > 0.0 {
      PositiveProduct(s, s);
    } else {
      PositiveProduct(-s, -s);
    }
  }

  function Prod(x: real, y: real): real {
    x * y
  }

  lemma ProdPositive(a: real, b: real)
    requires a > 0.0 && b > 0.0
    ensures Prod(a, b) > 0.0
  {
  }

  /** Squares as a function: the solver simplifies x * x > 0 to x != 0 and loses the product. */
  function Sq(x: real): real {
    x * x
  }

  lemma SqSign(x: real)
    ensures Sq(x) >= 0.0
    ensures x != 0.0 ==> Sq(x) > 0.0
    ensures Sq(0.0) == 0.0
  {
    if x > 0.0 {
      ProdPositive(x, x);
    } else if x < 0.0 {
      ProdPositive(-x, -x);
    }
  }

  ghost predicate IsSqrt(sqrt: real -> real) {
    forall x :: x >= 0.0 ==> sqrt(x) >= 0.0 && sqrt(x) * sqrt(x) == x
  }

  lemma SameFactor(n: real, a: real, b: real)
    requires n != 0.0 && n * a == b * n
    ensures a == b
  {
    Cancel(a, n);
    Cancel(b, n);
  }

  lemma QuotientBack(x: real, n: real)
    requires n != 0.0
    ensures n * (x / n) == x
  {
  }

  lemma Regrouped(m: real, x: real)
    ensures m * (m * x) == m * m * x
  {
  }
}
