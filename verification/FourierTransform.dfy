/** The discrete Fourier transform as a mathematical object: the defining sum, the
    even/odd split behind radix-2 algorithms, the inverse, and the shift theorem.
    `w` is always an n-th root of unity; no sine or cosine is evaluated. */
module FourierTransform {
  import opened ComplexNumbers

  function Pow2(k: nat): (r: nat)
    ensures r > 0
  {
    if k == 0 then 1 else 2 * Pow2(k - 1)
  }

  /** sum over j < m of a[j] * w^(j*k): the defining sum of a DFT coefficient. */
  function DftSum(a: seq<Complex>, w: Complex, k: nat, m: nat): Complex
    requires m <= |a|
  {
    if m == 0 then ZERO else Add(DftSum(a, w, k, m - 1), Mul(a[m - 1], Pow(w, (m - 1) * k)))
  }

  /** The polynomial with coefficients `a`, evaluated at `z` by Horner's rule. */
  function Eval(a: seq<Complex>, z: Complex): Complex {
    if a == [] then ZERO else Add(a[0], Mul(z, Eval(a[1..], z)))
  }

  function Dft(a: seq<Complex>, w: Complex): (r: seq<Complex>)
  {
    seq(|a|, k requires 0 <= k => Eval(a, Pow(w, k)))
  }

  function SeqAdd(a: seq<Complex>, b: seq<Complex>): seq<Complex>
    requires |a| == |b|
  {
    seq(|a|, i requires 0 <= i < |a| => Add(a[i], b[i]))
  }

  function SeqScale(r: real, a: seq<Complex>): seq<Complex>
  {
    seq(|a|, i requires 0 <= i < |a| => Scale(r, a[i]))
  }

  function Evens(a: seq<Complex>): (r: seq<Complex>)
    ensures |r| == (|a| + 1) / 2
  {
    seq((|a| + 1) / 2, i requires 0 <= i < (|a| + 1) / 2 => a[2 * i])
  }

  function Odds(a: seq<Complex>): (r: seq<Complex>)
    ensures |r| == |a| / 2
  {
    seq(|a| / 2, i requires 0 <= i < |a| / 2 => a[2 * i + 1])
  }

  lemma HalvesAt(a: seq<Complex>, j: nat)
    requires j < |a|
    ensures j % 2 == 0 ==> j / 2 < |Evens(a)| && Evens(a)[j / 2] == a[j]
    ensures j % 2 == 1 ==> j / 2 < |Odds(a)| && Odds(a)[j / 2] == a[j]
  {
  }

  lemma HalvesStep(a: seq<Complex>)
    requires |a| >= 2
    ensures Evens(a) == [a[0]] + Evens(a[2..]) && Odds(a) == [a[1]] + Odds(a[2..])
  {
    EvensStep(a);
    OddsStep(a);
  }

  lemma EvensStep(a: seq<Complex>)
    requires |a| >= 2
    ensures Evens(a) == [a[0]] + Evens(a[2..])
  {
    var rest := a[2..];
    forall i | 0 <= i < |Evens(rest)|
      ensures Evens(a)[i + 1] == Evens(rest)[i]
    {
      assert rest[2 * i] == a[2 * i + 2];
    }
  }

  lemma OddsStep(a: seq<Complex>)
    requires |a| >= 2
    ensures Odds(a) == [a[1]] + Odds(a[2..])
  {
    var rest := a[2..];
    forall i | 0 <= i < |Odds(rest)|
      ensures Odds(a)[i + 1] == Odds(rest)[i]
    {
      assert rest[2 * i + 1] == a[2 * i + 3];
    }
  }

  // ----- Eval is the defining sum -----

  lemma {:induction false} EvalAppend(a: seq<Complex>, b: seq<Complex>, z: Complex)
    ensures Eval(a + b, z) == Add(Eval(a, z), Mul(Pow(z, |a|), Eval(b, z)))
  {
    hide Mul;
    if a == [] {
      assert a + b == b;
      MulOne(Eval(b, z));
    } else {
      assert (a + b)[1..] == a[1..] + b;
      EvalAppend(a[1..], b, z);
      var p, q := Eval(a[1..], z), Mul(Pow(z, |a| - 1), Eval(b, z));
      MulDistributes(z, p, q);
      MulAssociates(z, Pow(z, |a| - 1), Eval(b, z));
    }
  }

  lemma EvalOne(x: Complex, z: Complex)
    ensures Eval([x], z) == x
  {
    assert [x][1..] == [];
    assert Mul(z, ZERO) == ZERO;
  }

  lemma {:induction false} EvalIsSum(a: seq<Complex>, w: Complex, k: nat, m: nat)
    requires m <= |a|
    ensures Eval(a[..m], Pow(w, k)) == DftSum(a, w, k, m)
  {
    hide Mul;
    if m != 0 {
      EvalIsSum(a, w, k, m - 1);
      assert a[..m] == a[..m - 1] + [a[m - 1]];
      EvalAppend(a[..m - 1], [a[m - 1]], Pow(w, k));
      EvalOne(a[m - 1], Pow(w, k));
      PowPow(w, k, m - 1);
      assert k * (m - 1) == (m - 1) * k;
      MulCommutes(a[m - 1], Pow(w, (m - 1) * k));
    }
  }

  /** Coefficient k of `Dft` is the textbook sum. */
  lemma DftIsSum(a: seq<Complex>, w: Complex, k: nat)
    requires k < |a|
    ensures Dft(a, w)[k] == DftSum(a, w, k, |a|)
  {
    hide Mul;
    EvalIsSum(a, w, k, |a|);
    assert a[..|a|] == a;
  }

  // ----- linearity -----

  lemma {:induction false} EvalAdd(a: seq<Complex>, b: seq<Complex>, z: Complex)
    requires |a| == |b|
    ensures Eval(SeqAdd(a, b), z) == Add(Eval(a, z), Eval(b, z))
  {
    hide Mul;
    if a != [] {
      assert SeqAdd(a, b)[1..] == SeqAdd(a[1..], b[1..]);
      EvalAdd(a[1..], b[1..], z);
      MulDistributes(z, Eval(a[1..], z), Eval(b[1..], z));
    }
  }

  lemma ScaleAdd(r: real, x: Complex, y: Complex)
    ensures Scale(r, Add(x, y)) == Add(Scale(r, x), Scale(r, y))
  {
  }

  lemma ScaleScale(r: real, s: real, x: Complex)
    ensures Scale(r, Scale(s, x)) == Scale(r * s, x)
  {
  }

  lemma ScaleZero(r: real)
    ensures Scale(r, ZERO) == ZERO
  {
  }

  lemma {:induction false} EvalScale(r: real, a: seq<Complex>, z: Complex)
    ensures Eval(SeqScale(r, a), z) == Scale(r, Eval(a, z))
  {
    hide Mul, Scale;
    if a == [] {
      ScaleZero(r);
    } else {
      assert SeqScale(r, a)[1..] == SeqScale(r, a[1..]);
      EvalScale(r, a[1..], z);
      ScaleMul(r, z, Eval(a[1..], z));
      ScaleAdd(r, a[0], Mul(z, Eval(a[1..], z)));
    }
  }

  /** Weighting coefficient k by w^k moves the evaluation point by a factor w. */
  function Twiddle(a: seq<Complex>, w: Complex): seq<Complex>
  {
    seq(|a|, i requires 0 <= i < |a| => Mul(Pow(w, i), a[i]))
  }

  lemma {:induction false} EvalTwiddle(a: seq<Complex>, w: Complex, z: Complex)
    ensures Eval(Twiddle(a, w), z) == Eval(a, Mul(w, z))
  {
    hide Mul;
    if a != [] {
      var n := |a| - 1;
      var x := a[..n];
      assert a == x + [a[n]];
      EvalTwiddle(x, w, z);
      assert Twiddle(a, w) == Twiddle(x, w) + [Mul(Pow(w, n), a[n])];
      EvalAppend(Twiddle(x, w), [Mul(Pow(w, n), a[n])], z);
      EvalAppend(x, [a[n]], Mul(w, z));
      EvalOne(Mul(Pow(w, n), a[n]), z);
      EvalOne(a[n], Mul(w, z));
      PowProduct(w, z, n);
      MulAssociates(Pow(z, n), Pow(w, n), a[n]);
      MulCommutes(Pow(z, n), Pow(w, n));
    }
  }

  // ----- the radix-2 split -----

  lemma {:induction false} EvalSplit(a: seq<Complex>, z: Complex)
    requires |a| % 2 == 0
    ensures Eval(a, z) == Add(Eval(Evens(a), Mul(z, z)), Mul(z, Eval(Odds(a), Mul(z, z))))
  {
    hide Mul;
    if a == [] {
      MulZero(z);
    } else {
      var zz := Mul(z, z);
      EvalSplit(a[2..], z);
      var e, o := Eval(Evens(a[2..]), zz), Eval(Odds(a[2..]), zz);
      HalvesStep(a);
      assert Evens(a)[1..] == Evens(a[2..]) && Odds(a)[1..] == Odds(a[2..]);
      assert a[1..][1..] == a[2..];
      calc {
        Eval(a, z);
        Add(a[0], Mul(z, Add(a[1], Mul(z, Add(e, Mul(z, o))))));
        { MulDistributes(z, a[1], Mul(z, Add(e, Mul(z, o)))); MulAssociates(z, z, Add(e, Mul(z, o))); }
        Add(a[0], Add(Mul(z, a[1]), Mul(zz, Add(e, Mul(z, o)))));
        { MulDistributes(zz, e, Mul(z, o)); MulAssociates(zz, z, o); MulCommutes(zz, z); MulAssociates(z, zz, o); }
        Add(a[0], Add(Mul(z, a[1]), Add(Mul(zz, e), Mul(z, Mul(zz, o)))));
        { MulDistributes(z, a[1], Mul(zz, o)); }
        Add(Add(a[0], Mul(zz, e)), Mul(z, Add(a[1], Mul(zz, o))));
      }
    }
  }

  /** One butterfly pass over a block: halves b[..h], b[h..] hold the two half-size transforms. */
  function Butterfly(b: seq<Complex>, w: Complex): (r: seq<Complex>)
    requires |b| % 2 == 0
    ensures |r| == |b|
  {
    var h := |b| / 2;
    seq(|b|, t requires 0 <= t < |b| =>
      if t < h then Add(b[t], Mul(b[t + h], Pow(w, t)))
      else Sub(b[t - h], Mul(b[t], Pow(w, t - h))))
  }

  lemma ButterflyAt(b: seq<Complex>, w: Complex, t: nat)
    requires |b| % 2 == 0 && t < |b| / 2
    ensures var v := Mul(b[t + |b| / 2], Pow(w, t));
      Butterfly(b, w)[t] == Add(b[t], v) && Butterfly(b, w)[t + |b| / 2] == Sub(b[t], v)
  {
    hide Mul, Add, Sub, Pow;
  }

  /** A point w^t of the upper half is the opposite of the matching point of the lower half. */
  lemma OppositePoint(w: Complex, h: nat, t: nat)
    requires t >= h && Pow(w, h) == Neg(ONE)
    ensures Pow(w, t) == Neg(Pow(w, t - h))
    ensures Mul(Pow(w, t), Pow(w, t)) == Pow(Mul(w, w), t - h)
  {
    hide Mul;
    var y := Pow(w, t - h);
    PowAdd(w, h, t - h);
    NegMul(ONE, y);
    MulOne(y);
    NegMul(y, Neg(y));
    NegMul(y, y);
    PowSquare(w, t - h);
  }

  lemma DftSplitLow(a: seq<Complex>, w: Complex, t: nat)
    requires |a| % 2 == 0 && t < |a| / 2
    ensures Dft(a, w)[t]
         == Add(Dft(Evens(a), Mul(w, w))[t], Mul(Dft(Odds(a), Mul(w, w))[t], Pow(w, t)))
  {
    hide Mul;
    EvalSplit(a, Pow(w, t));
    PowSquare(w, t);
    MulCommutes(Pow(w, t), Dft(Odds(a), Mul(w, w))[t]);
  }

  lemma DftSplitHigh(a: seq<Complex>, w: Complex, t: nat)
    requires |a| % 2 == 0 && |a| / 2 <= t < |a|
    requires Pow(w, |a| / 2) == Neg(ONE)
    ensures var t' := t - |a| / 2;
      Dft(a, w)[t] == Sub(Dft(Evens(a), Mul(w, w))[t'], Mul(Dft(Odds(a), Mul(w, w))[t'], Pow(w, t')))
  {
    hide Mul;
    var h := |a| / 2;
    var y := Pow(w, t - h);
    var o := Dft(Odds(a), Mul(w, w))[t - h];
    EvalSplit(a, Pow(w, t));
    OppositePoint(w, h, t);
    NegMul(y, o);
    MulCommutes(y, o);
  }

  lemma DftLength(a: seq<Complex>, w: Complex)
    ensures |Dft(a, w)| == |a|
  {
  }

  lemma DftSplitAt(a: seq<Complex>, w: Complex, b: seq<Complex>, t: nat)
    requires |a| % 2 == 0 && t < |a|
    requires Pow(w, |a| / 2) == Neg(ONE)
    requires b == Dft(Evens(a), Mul(w, w)) + Dft(Odds(a), Mul(w, w))
    ensures |b| == |a| == |Dft(a, w)| && Dft(a, w)[t] == Butterfly(b, w)[t]
  {
    hide Mul, Pow, Eval, Add, Sub, Neg, Butterfly, Dft, Evens, Odds;
    DftLength(a, w);
    DftLength(Evens(a), Mul(w, w));
    DftLength(Odds(a), Mul(w, w));
    if t < |a| / 2 {
      ButterflyAt(b, w, t);
      DftSplitLow(a, w, t);
    } else {
      ButterflyAt(b, w, t - |a| / 2);
      DftSplitHigh(a, w, t);
    }
  }

  /** Cooley-Tukey: the transform of `a` is one butterfly pass over the transforms of its
      even- and odd-indexed halves. */
  lemma DftSplit(a: seq<Complex>, w: Complex)
    requires |a| % 2 == 0
    requires Pow(w, |a| / 2) == Neg(ONE)
    ensures Dft(a, w) == Butterfly(Dft(Evens(a), Mul(w, w)) + Dft(Odds(a), Mul(w, w)), w)
  {
    hide *;
    var b := Dft(Evens(a), Mul(w, w)) + Dft(Odds(a), Mul(w, w));
    DftLength(a, w);
    DftLength(Evens(a), Mul(w, w));
    DftLength(Odds(a), Mul(w, w));
    forall t | 0 <= t < |a|
      ensures Dft(a, w)[t] == Butterfly(b, w)[t]
    {
      DftSplitAt(a, w, b, t);
    }
  }
}
