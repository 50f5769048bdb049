/** The inverse transform and the circular shift theorem for power-of-two lengths. */
module FourierInversion {
  import opened Arithmetic
  import opened ComplexNumbers
  import opened FourierTransform

  /** `w` is a primitive root of unity of order 2^k. */
  predicate Primitive(w: Complex, k: nat) {
    if k == 0 then w == ONE else Pow(w, Pow2(k - 1)) == Neg(ONE)
  }

  lemma PrimitiveSquare(w: Complex, k: nat)
    requires k > 0 && Primitive(w, k)
    ensures Primitive(Mul(w, w), k - 1)
  {
    hide Mul;
    if k == 1 {
      assert Pow(w, 1) == w by { assert Pow(w, 0) == ONE; MulOne(w); }
      NegMul(ONE, w);
      MulOne(w);
    } else {
      PowSquare(w, Pow2(k - 2));
    }
  }

  lemma PrimitiveOrder(w: Complex, k: nat)
    requires Primitive(w, k)
    ensures Pow(w, Pow2(k)) == ONE
  {
    hide Mul, Pow, Neg;
    if k == 0 {
      PowOne(1);
    } else {
      var h := Pow2(k - 1);
      PowAdd(w, h, h);
      SignTimes();
    }
  }

  lemma PrimitiveInverse(w: Complex, v: Complex, k: nat)
    requires Primitive(w, k) && Mul(w, v) == ONE
    ensures Primitive(v, k)
  {
    hide Mul;
    if k == 0 {
      MulOne(v);
    } else {
      var h := Pow2(k - 1);
      PowProduct(w, v, h);
      PowOne(h);
      NegMul(ONE, Pow(v, h));
      MulOne(Pow(v, h));
    }
  }

  // ----- the two halves of a transform -----

  /** Evaluation of a whole at v^j folds its two halves: added for even j, subtracted for odd. */
  lemma EvalFold(lo: seq<Complex>, hi: seq<Complex>, z: Complex)
    requires |lo| == |hi|
    ensures Pow(z, |lo|) == ONE ==> Eval(lo + hi, z) == Eval(SeqAdd(lo, hi), z)
    ensures Pow(z, |lo|) == Neg(ONE) ==> Eval(lo + hi, z) == Eval(SeqAdd(lo, SeqScale(-1.0, hi)), z)
  {
    hide Mul;
    EvalAppend(lo, hi, z);
    EvalAdd(lo, hi, z);
    EvalAdd(lo, SeqScale(-1.0, hi), z);
    EvalScale(-1.0, hi, z);
    MulOne(Eval(hi, z));
    NegMul(ONE, Eval(hi, z));
  }

  lemma {:induction false} SignPower(v: Complex, h: nat, j: nat)
    requires Pow(v, h) == Neg(ONE)
    ensures Pow(Pow(v, j), h) == if j % 2 == 0 then ONE else Neg(ONE)
  {
    hide Mul, Pow, Neg;
    if j == 0 {
      PowZero(v);
      PowOne(h);
    } else {
      SignPower(v, h, j - 1);
      PowStep(v, j);
      PowProduct(v, Pow(v, j - 1), h);
      SignTimes();
    }
  }

  function Lo(b: seq<Complex>): seq<Complex>
    requires |b| % 2 == 0
  {
    b[..|b| / 2]
  }

  function Hi(b: seq<Complex>): seq<Complex>
    requires |b| % 2 == 0
  {
    b[|b| / 2..]
  }

  lemma ButterflyHalves(e: seq<Complex>, o: seq<Complex>, w: Complex)
    requires |e| == |o|
    ensures var b := Butterfly(e + o, w);
      && SeqAdd(Lo(b), Hi(b)) == SeqScale(2.0, e)
      && SeqAdd(Lo(b), SeqScale(-1.0, Hi(b))) == SeqScale(2.0, Twiddle(o, w))
  {
    hide Mul, Pow;
    var b := Butterfly(e + o, w);
    var h := |e|;
    forall i | 0 <= i < h
      ensures SeqAdd(Lo(b), Hi(b))[i] == SeqScale(2.0, e)[i]
      ensures SeqAdd(Lo(b), SeqScale(-1.0, Hi(b)))[i] == SeqScale(2.0, Twiddle(o, w))[i]
    {
      var t := Mul(o[i], Pow(w, i));
      MulCommutes(o[i], Pow(w, i));
      assert Lo(b)[i] == Add(e[i], t);
      assert Hi(b)[i] == b[h + i] == Sub(e[i], t);
    }
  }

  /** Transforming forward with w and then with its inverse v multiplies by the length. */
  lemma {:induction false} InverseRestores(a: seq<Complex>, w: Complex, v: Complex, k: nat)
    requires |a| == Pow2(k) && Primitive(w, k) && Mul(w, v) == ONE
    ensures Dft(Dft(a, w), v) == SeqScale(|a| as real, a)
    decreases k
  {
    hide Mul;
    if k == 0 {
      assert a == [a[0]];
      EvalOne(a[0], Pow(w, 0));
      assert Dft(a, w) == a;
      EvalOne(a[0], Pow(v, 0));
      assert Dft(a, v) == a;
    } else {
      var h := Pow2(k - 1);
      var w2, v2 := Mul(w, w), Mul(v, v);
      var e, o := Dft(Evens(a), w2), Dft(Odds(a), w2);
      PrimitiveSquare(w, k);
      PrimitiveInverse(w, v, k);
      MulSwapsInner(w, w, v, v);
      MulOne(ONE);
      InverseRestores(Evens(a), w2, v2, k - 1);
      InverseRestores(Odds(a), w2, v2, k - 1);
      DftSplit(a, w);
      var b := Butterfly(e + o, w);
      forall j | 0 <= j < |a|
        ensures Eval(b, Pow(v, j)) == Scale(|a| as real, a[j])
      {
        InversePoint(a, e, o, w, v, h, j);
      }
      assert Dft(b, v) == SeqScale(|a| as real, a);
    }
  }

  lemma FoldPoint(e: seq<Complex>, o: seq<Complex>, w: Complex, v: Complex, h: nat, j: nat)
    requires |e| == |o| == h && Pow(v, h) == Neg(ONE)
    ensures Eval(Butterfly(e + o, w), Pow(v, j))
         == Eval(SeqScale(2.0, if j % 2 == 0 then e else Twiddle(o, w)), Pow(v, j))
  {
    hide Mul, Scale, Pow, Butterfly, Eval, Neg, Add, SeqAdd, SeqScale, Twiddle;
    var b := Butterfly(e + o, w);
    assert b == Lo(b) + Hi(b);
    SignPower(v, h, j);
    EvalFold(Lo(b), Hi(b), Pow(v, j));
    ButterflyHalves(e, o, w);
  }

  lemma InversePoint(a: seq<Complex>, e: seq<Complex>, o: seq<Complex>, w: Complex, v: Complex, h: nat, j: nat)
    requires |a| == 2 * h && |e| == |o| == h && j < 2 * h
    requires Mul(w, v) == ONE && Pow(v, h) == Neg(ONE)
    requires Dft(e, Mul(v, v)) == SeqScale(h as real, Evens(a))
    requires Dft(o, Mul(v, v)) == SeqScale(h as real, Odds(a))
    ensures Eval(Butterfly(e + o, w), Pow(v, j)) == Scale((2 * h) as real, a[j])
  {
    hide *;
    FoldPoint(e, o, w, v, h, j);
    HalvesAt(a, j);
    if j % 2 == 0 {
      DoubledPoint(e, Evens(a), v, Pow(v, j), h, j / 2) by { PowSquare(v, j / 2); }
    } else {
      OddPoint(o, w, v, j);
      EvalScale(2.0, Twiddle(o, w), Pow(v, j));
      EvalScale(2.0, o, Pow(Mul(v, v), j / 2));
      DoubledPoint(o, Odds(a), v, Pow(Mul(v, v), j / 2), h, j / 2);
    }
  }

  lemma DoubledPoint(e: seq<Complex>, half: seq<Complex>, v: Complex, z: Complex, h: nat, m: nat)
    requires |e| == |half| == h && m < h && z == Pow(Mul(v, v), m)
    requires Dft(e, Mul(v, v)) == SeqScale(h as real, half)
    ensures Eval(SeqScale(2.0, e), z) == Scale((2 * h) as real, half[m])
  {
    hide Mul, Scale, Pow, Eval, Neg, Add;
    EvalScale(2.0, e, z);
    assert Dft(e, Mul(v, v))[m] == SeqScale(h as real, half)[m];
    ScaleScale(2.0, h as real, half[m]);
  }

  lemma OddPoint(o: seq<Complex>, w: Complex, v: Complex, j: nat)
    requires j % 2 == 1 && Mul(w, v) == ONE
    ensures Eval(Twiddle(o, w), Pow(v, j)) == Eval(o, Pow(Mul(v, v), j / 2))
  {
    hide Mul, Pow, Eval;
    EvalTwiddle(o, w, Pow(v, j));
    PowStep(v, j);
    MulAssociates(w, v, Pow(v, j - 1));
    MulOne(Pow(v, j - 1));
    PowSquare(v, j / 2);
  }

  // ----- circular shifts -----

  /** `a` moved d places to the right, cyclically: entry (i + d) mod n is a[i]. */
  function Rotate(a: seq<Complex>, d: nat): (r: seq<Complex>)
    requires d <= |a|
    ensures |r| == |a|
  {
    a[|a| - d..] + a[..|a| - d]
  }

  lemma RotateAt(a: seq<Complex>, d: nat, i: nat)
    requires d <= |a| && i < |a|
    ensures (i + d) % |a| < |a| && Rotate(a, d)[(i + d) % |a|] == a[i]
  {
    ModOnce(i + d, |a|);
  }

  /** The shift theorem: rotating by d multiplies coefficient k by w^(k*d). */
  lemma ShiftTheorem(a: seq<Complex>, d: nat, z: Complex)
    requires d <= |a| && Pow(z, |a|) == ONE
    ensures Eval(Rotate(a, d), z) == Mul(Pow(z, d), Eval(a, z))
  {
    hide Mul;
    var p, q := a[..|a| - d], a[|a| - d..];
    assert a == p + q;
    EvalAppend(p, q, z);
    EvalAppend(q, p, z);
    PowAdd(z, d, |a| - d);
    var s := Mul(Pow(z, |a| - d), Eval(q, z));
    MulDistributes(Pow(z, d), Eval(p, z), s);
    MulAssociates(Pow(z, d), Pow(z, |a| - d), Eval(q, z));
    MulOne(Eval(q, z));
  }
}
