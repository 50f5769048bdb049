/** Exact complex arithmetic: the values the alignment code keeps in `std::complex<double>`,
    with rounding left aside. */
module ComplexNumbers {

  datatype Complex = Complex(re: real, im: real)

  const ZERO := Complex(0.0, 0.0)
  const ONE := Complex(1.0, 0.0)

  function Add(a: Complex, b: Complex): Complex {
    Complex(a.re + b.re, a.im + b.im)
  }

  function Sub(a: Complex, b: Complex): Complex {
    Complex(a.re - b.re, a.im - b.im)
  }

  function Neg(a: Complex): Complex {
    Complex(-a.re, -a.im)
  }

  function Mul(a: Complex, b: Complex): Complex {
    Complex(a.re * b.re - a.im * b.im, a.re * b.im + a.im * b.re)
  }

  function Scale(r: real, a: Complex): Complex {
    Complex(r * a.re, r * a.im)
  }

  function Conj(a: Complex): Complex {
    Complex(a.re, -a.im)
  }

  /** The squared modulus, std::abs(a) squared. */
  function NormSq(a: Complex): real {
    a.re * a.re + a.im * a.im
  }

  function Pow(z: Complex, k: nat): Complex {
    if k == 0 then ONE else Mul(z, Pow(z, k - 1))
  }

  lemma PowZero(z: Complex)
    ensures Pow(z, 0) == ONE
  {
  }

  lemma PowStep(z: Complex, k: nat)
    requires k > 0
    ensures Pow(z, k) == Mul(z, Pow(z, k - 1))
  {
  }

  lemma MulCommutes(a: Complex, b: Complex)
    ensures Mul(a, b) == Mul(b, a)
  {
  }

  lemma MulAssociates(a: Complex, b: Complex, c: Complex)
    ensures Mul(Mul(a, b), c) == Mul(a, Mul(b, c))
  {
  }

  lemma MulDistributes(a: Complex, b: Complex, c: Complex)
    ensures Mul(a, Add(b, c)) == Add(Mul(a, b), Mul(a, c))
  {
  }

  lemma MulOne(a: Complex)
    ensures Mul(ONE, a) == a == Mul(a, ONE)
  {
  }

  lemma ConjMul(a: Complex, b: Complex)
    ensures Conj(Mul(a, b)) == Mul(Conj(a), Conj(b))
  {
  }

  lemma MulZero(z: Complex)
    ensures Mul(z, ZERO) == ZERO
  {
  }

  lemma NegMul(y: Complex, z: Complex)
    ensures Mul(Neg(y), z) == Neg(Mul(y, z)) == Mul(y, Neg(z))
  {
  }

  lemma NegNeg(a: Complex)
    ensures Neg(Neg(a)) == a
  {
  }

  lemma SignTimes()
    ensures Mul(Neg(ONE), Neg(ONE)) == ONE
    ensures Mul(Neg(ONE), ONE) == Neg(ONE)
  {
    hide *;
    NegMul(ONE, ONE);
    NegMul(ONE, Neg(ONE));
    NegNeg(ONE);
    MulOne(ONE);
  }

  lemma MulSwapsInner(a: Complex, b: Complex, c: Complex, d: Complex)
    ensures Mul(Mul(a, b), Mul(c, d)) == Mul(Mul(a, c), Mul(b, d))
  {
    hide Mul;
    MulAssociates(a, b, Mul(c, d));
    MulAssociates(b, c, d);
    MulCommutes(b, c);
    MulAssociates(c, b, d);
    MulAssociates(a, c, Mul(b, d));
  }

  lemma ScaleMul(r: real, a: Complex, b: Complex)
    ensures Mul(Scale(r, a), b) == Scale(r, Mul(a, b)) == Mul(a, Scale(r, b))
  {
  }

  lemma {:induction false} PowAdd(z: Complex, j: nat, k: nat)
    ensures Pow(z, j + k) == Mul(Pow(z, j), Pow(z, k))
  {
    hide Mul;
    if j == 0 {
      MulOne(Pow(z, k));
    } else {
      PowAdd(z, j - 1, k);
      MulAssociates(z, Pow(z, j - 1), Pow(z, k));
    }
  }

  lemma {:induction false} PowProduct(y: Complex, z: Complex, k: nat)
    ensures Pow(Mul(y, z), k) == Mul(Pow(y, k), Pow(z, k))
  {
    hide Mul;
    if k == 0 {
      MulOne(ONE);
    } else {
      PowProduct(y, z, k - 1);
      MulSwapsInner(y, z, Pow(y, k - 1), Pow(z, k - 1));
    }
  }

  lemma {:induction false} PowSquare(z: Complex, k: nat)
    ensures Pow(Mul(z, z), k) == Mul(Pow(z, k), Pow(z, k)) == Pow(z, 2 * k)
  {
    hide Mul;
    PowProduct(z, z, k);
    PowAdd(z, k, k);
  }

  lemma {:induction false} PowOne(k: nat)
    ensures Pow(ONE, k) == ONE
  {
    hide Mul;
    if k != 0 {
      MulOne(ONE);
      PowOne(k - 1);
    }
  }

  lemma {:induction false} PowPow(z: Complex, j: nat, k: nat)
    ensures Pow(Pow(z, j), k) == Pow(z, j * k)
  {
    hide Mul;
    if k == 0 {
      assert j * k == 0;
    } else {
      assert j * k == j + j * (k - 1);
      PowPow(z, j, k - 1);
      PowAdd(z, j, j * (k - 1));
    }
  }

  lemma {:induction false} PowConj(z: Complex, k: nat)
    ensures Pow(Conj(z), k) == Conj(Pow(z, k))
  {
    hide Mul;
    if k != 0 {
      ConjMul(z, Pow(z, k - 1));
      PowConj(z, k - 1);
    }
  }

  lemma ConjZero()
    ensures Conj(ZERO) == ZERO
  {
  }

  lemma NormZero()
    ensures NormSq(ZERO) == 0.0
  {
  }

  lemma NormOne()
    ensures NormSq(ONE) == 1.0
  {
  }

  lemma NormSqMul(a: Complex, b: Complex)
    ensures NormSq(Mul(a, b)) == NormSq(a) * NormSq(b)
  {
    var p, q, r, s := a.re, a.im, b.re, b.im;
    var x, y := p * r - q * s, p * s + q * r;
    calc {
      x * x + y * y;
      (p * r) * (p * r) + (q * s) * (q * s) + (p * s) * (p * s) + (q * r) * (q * r);
      (p * p) * (r * r) + (q * q) * (s * s) + (p * p) * (s * s) + (q * q) * (r * r);
      (p * p + q * q) * (r * r + s * s);
    }
  }

  lemma {:induction false} PowNorm(z: Complex, k: nat)
    requires NormSq(z) == 1.0
    ensures NormSq(Pow(z, k)) == 1.0
  {
    hide Mul, NormSq;
    if k == 0 {
      NormOne();
    } else {
      PowNorm(z, k - 1);
      NormSqMul(z, Pow(z, k - 1));
    }
  }

  lemma MulConj(a: Complex)
    ensures Mul(a, Conj(a)) == Complex(NormSq(a), 0.0)
  {
  }
}
