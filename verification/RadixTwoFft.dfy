/** The in-place radix-2 transform of one line: bit-reversal swaps, then butterfly passes. */
module RadixTwoFft {
  import opened Arithmetic
  import opened ComplexNumbers
  import opened FourierTransform
  import opened FourierInversion

  /** roots[s] stands for exp(-2*pi*i / 2^s). Each entry squares to the one before it, which
      pins every entry down as a primitive root of its order. */
  predicate RootTable(roots: seq<Complex>) {
    && |roots| > 0
    && roots[0] == ONE
    && (|roots| > 1 ==> roots[1] == Neg(ONE))
    && forall s :: 0 < s < |roots| ==> Mul(roots[s], roots[s]) == roots[s - 1]
  }

  function ConjAll(roots: seq<Complex>): (r: seq<Complex>)
    ensures |r| == |roots|
  {
    seq(|roots|, s requires 0 <= s < |roots| => Conj(roots[s]))
  }

  /** The table for one direction: the code flips the sign of the angle for the inverse. */
  function Table(roots: seq<Complex>, inverse: bool): (r: seq<Complex>)
    ensures |r| == |roots|
  {
    if inverse then ConjAll(roots) else roots
  }

  lemma TableValid(roots: seq<Complex>, inverse: bool)
    requires RootTable(roots)
    ensures RootTable(Table(roots, inverse))
  {
    hide Mul, Conj, Neg;
    ConjOne();
    ConjMinusOne();
    var r := ConjAll(roots);
    forall s | 0 < s < |roots|
      ensures Mul(r[s], r[s]) == r[s - 1]
    {
      ConjMul(roots[s], roots[s]);
    }
  }

  lemma ConjOne()
    ensures Conj(ONE) == ONE
  {
  }

  lemma ConjMinusOne()
    ensures Conj(Neg(ONE)) == Neg(ONE)
  {
  }

  lemma {:induction false} RootsPrimitive(roots: seq<Complex>, s: nat)
    requires RootTable(roots) && s < |roots|
    ensures Primitive(roots[s], s)
  {
    hide Mul, Pow, Neg;
    if s == 0 {
    } else if s == 1 {
      PowStep(roots[1], 1);
      PowZero(roots[1]);
      MulOne(roots[1]);
    } else {
      RootsPrimitive(roots, s - 1);
      PowSquare(roots[s], Pow2(s - 2));
    }
  }

  lemma {:induction false} RootsUnit(roots: seq<Complex>, s: nat)
    requires RootTable(roots) && s < |roots|
    ensures NormSq(roots[s]) == 1.0
  {
    hide Mul, NormSq;
    if s == 0 {
      NormOne();
    } else {
      RootsUnit(roots, s - 1);
      NormSqMul(roots[s], roots[s]);
      UnitRoot(NormSq(roots[s])) by { NormNonNegative(roots[s]); }
    }
  }

  lemma NormNonNegative(a: Complex)
    ensures NormSq(a) >= 0.0
  {
  }

  /** The tables of the two directions hold inverse roots. */
  lemma TablesInverse(roots: seq<Complex>, s: nat, inverse: bool)
    requires RootTable(roots) && s < |roots|
    ensures Mul(Table(roots, inverse)[s], Table(roots, !inverse)[s]) == ONE
  {
    hide Mul, NormSq;
    RootsUnit(roots, s);
    MulConj(roots[s]);
    MulCommutes(roots[s], Conj(roots[s]));
  }

  // ----- bit reversal -----

  /** The lowest k bits of i, reversed. */
  function Rev(i: nat, k: nat): (r: nat)
    ensures r < Pow2(k)
  {
    if k == 0 then 0 else (if i % 2 == 1 then Pow2(k - 1) else 0) + Rev(i / 2, k - 1)
  }

  lemma {:induction false} RevTop(i: nat, k: nat)
    requires k > 0 && i < Pow2(k)
    ensures Rev(i, k)
         == if i < Pow2(k - 1) then 2 * Rev(i, k - 1) else 2 * Rev(i - Pow2(k - 1), k - 1) + 1
  {
    if k > 1 {
      RevTop(i / 2, k - 1);
      if i >= Pow2(k - 1) {
        assert (i - Pow2(k - 1)) / 2 == i / 2 - Pow2(k - 2);
      }
    }
  }

  lemma {:induction false} RevInvolution(i: nat, k: nat)
    requires i < Pow2(k)
    ensures Rev(Rev(i, k), k) == i
  {
    if k != 0 {
      RevInvolution(i / 2, k - 1);
      RevTop(Rev(i, k), k);
    }
  }

  lemma {:induction false} RevZero(k: nat)
    ensures Rev(0, k) == 0
  {
    if k != 0 {
      RevZero(k - 1);
    }
  }

  /** The permutation the recursion of the transform asks for: even entries before odd ones. */
  function BitReversed(a: seq<Complex>, k: nat): (r: seq<Complex>)
    requires |a| == Pow2(k)
    ensures |r| == |a|
    decreases k
  {
    if k == 0 then a else BitReversed(Evens(a), k - 1) + BitReversed(Odds(a), k - 1)
  }

  lemma {:induction false} BitReversedAt(a: seq<Complex>, k: nat, i: nat)
    requires |a| == Pow2(k) && i < |a|
    ensures BitReversed(a, k)[i] == a[Rev(i, k)]
    decreases k
  {
    if k != 0 {
      var h := Pow2(k - 1);
      RevTop(i, k);
      assert BitReversed(a, k) == BitReversed(Evens(a), k - 1) + BitReversed(Odds(a), k - 1);
      hide Rev, BitReversed;
      if i < h {
        BitReversedAt(Evens(a), k - 1, i);
      } else {
        BitReversedAt(Odds(a), k - 1, i - h);
      }
    }
  }

  /** Adds one to the reversed counter: clears set bits from the top, then sets the next one. */
  method NextReversed(ghost i: nat, j0: nat, n: nat, ghost k: nat) returns (j: nat)
    requires n == Pow2(k) && i + 1 < n && j0 == Rev(i, k)
    ensures j == Rev(i + 1, k)
  {
    j := j0;
    var bit := n / 2;
    ghost var m: nat, t: nat := i, k;
    while (j / bit) % 2 == 1
      invariant 0 < t <= k && bit == Pow2(t - 1)
      invariant m + 1 < Pow2(t) && j == Rev(m, t)
      invariant Rev(m + 1, t) == Rev(i + 1, k)
      decreases t
    {
      CarryStep(m, t);
      m, t := m / 2, t - 1;
      j := j - bit;
      bit := bit / 2;
    }
    TopBit(m, t);
    j := j + bit;
  }

  lemma CarryStep(m: nat, t: nat)
    requires t > 0 && m + 1 < Pow2(t) && (Rev(m, t) / Pow2(t - 1)) % 2 == 1
    ensures t > 1 && m / 2 + 1 < Pow2(t - 1)
    ensures Pow2(t - 1) / 2 == Pow2(t - 2)
    ensures Rev(m, t) - Pow2(t - 1) == Rev(m / 2, t - 1)
    ensures Rev(m + 1, t) == Rev(m / 2 + 1, t - 1)
  {
    TopBit(m, t);
    assert (m + 1) / 2 == m / 2 + 1;
  }

  lemma TopBit(m: nat, t: nat)
    requires t > 0 && m + 1 < Pow2(t)
    ensures (Rev(m, t) / Pow2(t - 1)) % 2 == m % 2
    ensures m % 2 == 1 ==> t > 1
    ensures m % 2 == 0 ==> Rev(m + 1, t) == Rev(m, t) + Pow2(t - 1)
  {
    var b, r := Pow2(t - 1), Rev(m / 2, t - 1);
    assert Pow2(t) == 2 * b;
    if m % 2 == 1 {
      Quotient(b + r, b, 1);
    } else {
      Quotient(r, b, 0);
    }
  }

  /** The array once every pair with an index below i has been swapped. */
  ghost predicate SwappedBelow(a: seq<Complex>, a0: seq<Complex>, k: nat, i: nat) {
    && |a| == |a0| == Pow2(k)
    && forall m :: 0 <= m < |a| ==> a[m] == if m < i || Rev(m, k) < i then a0[Rev(m, k)] else a0[m]
  }

  lemma SwapStep(a: seq<Complex>, a0: seq<Complex>, k: nat, i: nat, j: nat)
    requires SwappedBelow(a, a0, k, i) && i < |a| && j == Rev(i, k)
    ensures j < |a|
    ensures SwappedBelow(if i < j then a[i := a[j]][j := a[i]] else a, a0, k, i + 1)
  {
    hide Rev;
    var next := if i < j then a[i := a[j]][j := a[i]] else a;
    RevInvolution(i, k);
    forall m | 0 <= m < |a|
      ensures next[m] == if m < i + 1 || Rev(m, k) < i + 1 then a0[Rev(m, k)] else a0[m]
    {
      RevInvolution(m, k);
    }
  }

  lemma SwapStart(a0: seq<Complex>, k: nat)
    requires |a0| == Pow2(k)
    ensures SwappedBelow(a0, a0, k, 1)
  {
    hide Rev;
    RevZero(k);
    forall m | 0 <= m < |a0| && Rev(m, k) < 1
      ensures m == 0
    {
      RevInvolution(m, k);
    }
  }

  lemma SwapEnd(a: seq<Complex>, a0: seq<Complex>, k: nat)
    requires SwappedBelow(a, a0, k, |a|)
    ensures a == BitReversed(a0, k)
  {
    hide Rev;
    forall m | 0 <= m < |a|
      ensures a[m] == BitReversed(a0, k)[m]
    {
      BitReversedAt(a0, k, m);
    }
  }

  method BitReversePermute(a: array<Complex>, ghost k: nat)
    requires a.Length == Pow2(k)
    modifies a
    ensures a[..] == BitReversed(old(a[..]), k)
  {
    hide Rev, Pow2, SwappedBelow, BitReversed;
    var n := a.Length;
    ghost var a0 := a[..];
    var i, j := 1, 0;
    RevZero(k);
    SwapStart(a0, k);
    PowPositive(k);
    while i < n
      invariant 1 <= i <= n && j == Rev(i - 1, k)
      invariant SwappedBelow(a[..], a0, k, i)
    {
      j := NextReversed(i - 1, j, n, k);
      ghost var was := a[..];
      SwapStep(was, a0, k, i, j);
      if i < j {
        a[i], a[j] := a[j], a[i];
        assert a[..] == was[i := was[j]][j := was[i]];
      }
      i := i + 1;
    }
    SwapEnd(a[..], a0, k);
  }

  // ----- butterfly passes -----

  /** One pass: a butterfly on every block of length len. */
  function Pass(b: seq<Complex>, len: nat, w: Complex): (r: seq<Complex>)
    requires len > 0 && len % 2 == 0 && |b| % len == 0
    ensures |r| == |b|
    decreases |b|
  {
    if b == [] then []
    else
      BlockLeft(|b|, len);
      Butterfly(b[..len], w) + Pass(b[len..], len, w)
  }

  lemma BlockLeft(x: nat, len: nat)
    requires len > 0 && x > 0 && x % len == 0
    ensures x >= len && (x - len) % len == 0
  {
    if x < len {
      Quotient(x, len, 0);
    } else {
      ModMinus(x, len);
    }
  }

  lemma {:induction false} PassAppend(x: seq<Complex>, y: seq<Complex>, len: nat, w: Complex)
    requires len > 0 && len % 2 == 0 && |x| % len == 0 && |y| % len == 0
    ensures (|x| + |y|) % len == 0
    ensures Pass(x + y, len, w) == Pass(x, len, w) + Pass(y, len, w)
    decreases |x|
  {
    hide Butterfly;
    ModPlus(|x|, |y|, len);
    if x == [] {
      assert x + y == y;
    } else {
      BlockLeft(|x|, len);
      assert (x + y)[..len] == x[..len] && (x + y)[len..] == x[len..] + y;
      PassAppend(x[len..], y, len, w);
    }
  }

  lemma PassOne(b: seq<Complex>, len: nat, w: Complex)
    requires len > 0 && len % 2 == 0 && |b| == len
    ensures |b| % len == 0 && Pass(b, len, w) == Butterfly(b, w)
  {
    hide Butterfly;
    Quotient(len, len, 1);
    assert b[..len] == b && b[len..] == [];
  }

  /** The passes of block lengths 2, 4, ..., 2^s. */
  function Passes(b: seq<Complex>, s: nat, tw: seq<Complex>): (r: seq<Complex>)
    requires s < |tw| && |b| % Pow2(s) == 0
    ensures |r| == |b|
  {
    if s == 0 then b
    else
      HalfDivides(|b|, s);
      Pass(Passes(b, s - 1, tw), Pow2(s), tw[s])
  }

  lemma HalfDivides(x: nat, s: nat)
    requires s > 0 && x % Pow2(s) == 0
    ensures x % Pow2(s - 1) == 0
  {
    var q, p := x / Pow2(s), Pow2(s - 1);
    assert x == (2 * q) * p;
    Quotient(x, p, 2 * q);
  }

  lemma {:induction false} PassesAppend(x: seq<Complex>, y: seq<Complex>, s: nat, tw: seq<Complex>)
    requires s < |tw| && |x| % Pow2(s) == 0 && |y| % Pow2(s) == 0
    ensures (|x| + |y|) % Pow2(s) == 0
    ensures Passes(x + y, s, tw) == Passes(x, s, tw) + Passes(y, s, tw)
  {
    hide Pass;
    ModPlus(|x|, |y|, Pow2(s));
    if s != 0 {
      HalfDivides(|x|, s);
      HalfDivides(|y|, s);
      PassesAppend(x, y, s - 1, tw);
      PassAppend(Passes(x, s - 1, tw), Passes(y, s - 1, tw), Pow2(s), tw[s]);
    }
  }

  lemma PowDivides(k: nat)
    ensures Pow2(k) % Pow2(k) == 0
  {
    Quotient(Pow2(k), Pow2(k), 1);
  }

  /** All passes over the bit-reversed input give the discrete Fourier transform. */
  lemma {:induction false} PassesTransform(a: seq<Complex>, k: nat, tw: seq<Complex>)
    requires |a| == Pow2(k) && k < |tw| && RootTable(tw)
    ensures |a| % Pow2(k) == 0
    ensures Passes(BitReversed(a, k), k, tw) == Dft(a, tw[k])
    decreases k
  {
    hide Mul, Pow, Butterfly, Pass, Dft, Neg;
    PowDivides(k);
    if k == 0 {
      DftSingle(a, tw[0]);
    } else {
      var e, o := Evens(a), Odds(a);
      PassesTransform(e, k - 1, tw);
      PassesTransform(o, k - 1, tw);
      PassesAppend(BitReversed(e, k - 1), BitReversed(o, k - 1), k - 1, tw);
      RootsPrimitive(tw, k);
      DftLength(e, tw[k - 1]);
      DftLength(o, tw[k - 1]);
      PassOne(Dft(e, tw[k - 1]) + Dft(o, tw[k - 1]), Pow2(k), tw[k]);
      DftSplit(a, tw[k]);
    }
  }

  lemma DftSingle(a: seq<Complex>, w: Complex)
    requires |a| == 1
    ensures Dft(a, w) == a
  {
    hide Mul;
    assert a == [a[0]];
    EvalOne(a[0], Pow(w, 0));
  }

  // ----- the loops -----

  /** The block at i with the first k pairs of its two halves done; `r` is its final content. */
  ghost predicate PairsDone(a: seq<Complex>, a0: seq<Complex>, r: seq<Complex>, i: nat, h: nat, k: nat) {
    && |a| == |a0| && i + 2 * h <= |a| && |r| == 2 * h && k <= h
    && forall m :: 0 <= m < |a| ==> a[m] == if i <= m < i + k || i + h <= m < i + h + k then r[m - i] else a0[m]
  }

  lemma PairsStep(a: seq<Complex>, a0: seq<Complex>, r: seq<Complex>, i: nat, h: nat, k: nat)
    requires PairsDone(a, a0, r, i, h, k) && k < h
    ensures a[i + k] == a0[i + k] && a[i + k + h] == a0[i + k + h]
    ensures PairsDone(a[i + k := r[k]][i + k + h := r[k + h]], a0, r, i, h, k + 1)
  {
  }

  lemma PairsEnd(a: seq<Complex>, a0: seq<Complex>, r: seq<Complex>, i: nat, h: nat)
    requires PairsDone(a, a0, r, i, h, h)
    ensures a[i..i + 2 * h] == r && a[..i] == a0[..i] && a[i + 2 * h..] == a0[i + 2 * h..]
  {
  }

  lemma PairsStart(a0: seq<Complex>, r: seq<Complex>, i: nat, h: nat)
    requires i + 2 * h <= |a0| && |r| == 2 * h
    ensures PairsDone(a0, a0, r, i, h, 0)
  {
  }

  /** The innermost loop: one butterfly on the block a[i..i+len], in place. */
  method ButterflyBlock(a: array<Complex>, i: nat, len: nat, wlen: Complex)
    requires len % 2 == 0 && i + len <= a.Length
    modifies a
    ensures a[i..i + len] == Butterfly(old(a[i..i + len]), wlen)
    ensures a[..i] == old(a[..i]) && a[i + len..] == old(a[i + len..])
  {
    hide Mul, Add, Sub, Pow, Butterfly, PairsDone;
    ghost var a0 := a[..];
    ghost var b0 := a[i..i + len];
    ghost var r := Butterfly(b0, wlen);
    var h := len / 2;
    assert len == 2 * h;
    var w := ONE;
    PowZero(wlen);
    PairsStart(a0, r, i, h);
    var k := 0;
    while k < h
      invariant 0 <= k <= h && w == Pow(wlen, k)
      invariant PairsDone(a[..], a0, r, i, h, k)
    {
      ghost var was := a[..];
      PairsStep(was, a0, r, i, h, k);
      ButterflyAt(b0, wlen, k);
      var u := a[i + k];
      var v := Mul(a[i + k + h], w);
      a[i + k] := Add(u, v);
      a[i + k + h] := Sub(u, v);
      assert a[..] == was[i + k := r[k]][i + k + h := r[k + h]];
      PowStep(wlen, k + 1);
      MulCommutes(w, wlen);
      w := Mul(w, wlen);
      k := k + 1;
    }
    PairsEnd(a[..], a0, r, i, h);
  }

  /** The middle loop: all blocks of one length. */
  method ButterflyPass(a: array<Complex>, len: nat, wlen: Complex)
    requires len > 0 && len % 2 == 0 && a.Length % len == 0
    modifies a
    ensures a[..] == Pass(old(a[..]), len, wlen)
  {
    hide Butterfly, Pass;
    var n := a.Length;
    ghost var a0 := a[..];
    var i := 0;
    PassNone(a0[..0], len, wlen);
    while i < n
      invariant 0 <= i <= n && i % len == 0 && (n - i) % len == 0
      invariant a[..i] == Pass(a0[..i], len, wlen)
      invariant a[i..] == a0[i..]
    {
      BlockLeft(n - i, len);
      PassExtend(a0, i, len, wlen);
      assert a[i..i + len] == a[i..][..len] == a0[i..][..len] == a0[i..i + len];
      assert a[i + len..] == a[i..][len..] == a0[i..][len..] == a0[i + len..];
      ghost var done := a[..i];
      ButterflyBlock(a, i, len, wlen);
      assert a[..i + len] == done + a[i..i + len];
      i := i + len;
    }
    assert a[..n] == a[..] && a0[..n] == a0;
  }

  lemma PassNone(b: seq<Complex>, len: nat, w: Complex)
    requires len > 0 && len % 2 == 0 && b == []
    ensures |b| % len == 0 && Pass(b, len, w) == []
  {
    hide *;
    Quotient(0, len, 0);
  }

  /** Extending the processed prefix by one block extends the pass by one butterfly. */
  lemma PassExtend(b: seq<Complex>, i: nat, len: nat, w: Complex)
    requires len > 0 && len % 2 == 0 && i + len <= |b| && i % len == 0
    ensures (i + len) % len == 0
    ensures Pass(b[..i + len], len, w) == Pass(b[..i], len, w) + Butterfly(b[i..i + len], w)
  {
    hide Butterfly, Pass;
    assert b[..i + len] == b[..i] + b[i..i + len];
    PassOne(b[i..i + len], len, w);
    PassAppend(b[..i], b[i..i + len], len, w);
  }

  /** The length-2^k transform of one direction: the inverse also divides by the length. */
  function Transform(a: seq<Complex>, k: nat, roots: seq<Complex>, inverse: bool): (r: seq<Complex>)
    requires k < |roots|
    ensures |r| == |a|
  {
    var r := Dft(a, Table(roots, inverse)[k]);
    if inverse then SeqScale(1.0 / Pow2(k) as real, r) else r
  }

  lemma TableAt(roots: seq<Complex>, inverse: bool, s: nat)
    requires s < |roots|
    ensures Table(roots, inverse)[s] == if inverse then Conj(roots[s]) else roots[s]
  {
    hide Conj;
  }

  lemma PassStart(b: seq<Complex>, tw: seq<Complex>)
    requires |tw| > 0
    ensures |b| % Pow2(0) == 0 && Passes(b, 0, tw) == b
  {
  }

  lemma PassNext(b: seq<Complex>, s: nat, tw: seq<Complex>)
    requires 0 < s < |tw| && |b| % Pow2(s) == 0
    ensures |b| % Pow2(s - 1) == 0 && Pow2(s) > 0 && Pow2(s) % 2 == 0 && 2 * Pow2(s) == Pow2(s + 1)
    ensures Passes(b, s, tw) == Pass(Passes(b, s - 1, tw), Pow2(s), tw[s])
  {
    hide Pass;
    HalfDivides(|b|, s);
  }

  /** The doubling butterfly passes. */
  method RunPasses(a: array<Complex>, inverse: bool, roots: seq<Complex>, ghost k: nat)
    requires a.Length == Pow2(k) && k < |roots|
    modifies a
    ensures a.Length % Pow2(k) == 0
    ensures a[..] == Passes(old(a[..]), k, Table(roots, inverse))
  {
    hide Pass, Passes, Table, Pow2, Conj;
    var n := a.Length;
    ghost var b := a[..];
    ghost var tw := Table(roots, inverse);
    PassStart(b, tw);
    PowDivides(k);
    var len, s := 2, 1;
    FirstPowers();
    while len <= n
      invariant 1 <= s <= k + 1 && len == Pow2(s)
      invariant n % Pow2(s - 1) == 0 && a[..] == Passes(b, s - 1, tw)
      decreases k + 1 - s
    {
      PowMonotone(k, s);
      PowerDivides(k, s);
      PassNext(b, s, tw);
      TableAt(roots, inverse, s);
      var wlen := if inverse then Conj(roots[s]) else roots[s];
      ButterflyPass(a, len, wlen);
      len, s := 2 * len, s + 1;
    }
    if s <= k {
      PowOrder(s, k);
    }
  }

  lemma FirstPowers()
    ensures Pow2(0) == 1 && Pow2(1) == 2
  {
  }

  lemma Transformed(a: seq<Complex>, k: nat, roots: seq<Complex>, inverse: bool)
    requires |a| == Pow2(k) && k < |roots| && RootTable(roots)
    ensures |a| % Pow2(k) == 0
    ensures var d := Passes(BitReversed(a, k), k, Table(roots, inverse));
      Transform(a, k, roots, inverse) == if inverse then SeqScale(1.0 / |a| as real, d) else d
  {
    hide RootTable, Passes, BitReversed, Table, Dft, SeqScale, Pow2;
    TableValid(roots, inverse);
    PassesTransform(a, k, Table(roots, inverse));
  }

  lemma PowPositive(k: nat)
    ensures Pow2(k) > 0
  {
  }

  /** fft1d: bit-reversal swaps, the doubling passes, and the division of the inverse. */
  method Fft1d(a: array<Complex>, inverse: bool, roots: seq<Complex>, ghost k: nat)
    requires a.Length == Pow2(k) && k < |roots| && RootTable(roots)
    modifies a
    ensures a[..] == Transform(old(a[..]), k, roots, inverse)
  {
    hide *;
    ghost var a0 := a[..];
    BitReversePermute(a, k);
    RunPasses(a, inverse, roots, k);
    Transformed(a0, k, roots, inverse);
    PowPositive(k);
    if inverse {
      DivideAll(a);
    }
  }

  method DivideAll(a: array<Complex>)
    requires a.Length > 0
    modifies a
    ensures a[..] == SeqScale(1.0 / a.Length as real, old(a[..]))
  {
    hide Scale;
    ghost var a0 := a[..];
    var r := 1.0 / a.Length as real;
    var i := 0;
    while i < a.Length
      invariant 0 <= i <= a.Length
      invariant forall t :: 0 <= t < i ==> a[t] == Scale(r, a0[t])
      invariant forall t :: i <= t < a.Length ==> a[t] == a0[t]
    {
      a[i] := Scale(r, a[i]);
      i := i + 1;
    }
    assert a[..] == SeqScale(r, a0);
  }

  lemma {:induction false} PowOrder(s: nat, k: nat)
    requires s <= k
    ensures Pow2(s) <= Pow2(k)
  {
    if s < k {
      PowOrder(s, k - 1);
    }
  }

  lemma PowMonotone(k: nat, s: nat)
    requires Pow2(s) <= Pow2(k)
    ensures s <= k
  {
    if s > k {
      PowOrder(k + 1, s);
    }
  }

  lemma PowStrict(i: nat, j: nat)
    requires Pow2(i) < Pow2(j)
    ensures i < j
  {
    if i >= j {
      PowOrder(j, i);
    }
  }

  lemma {:induction false} PowerDivides(k: nat, s: nat)
    requires s <= k
    ensures Pow2(k) % Pow2(s) == 0
    decreases k - s
  {
    PowDivides(k);
    if s < k {
      PowerDivides(k, s + 1);
      HalfDivides(Pow2(k), s + 1);
    }
  }

  // ----- what the transform is for -----

  /** Every output entry of the forward transform is the defining sum. */
  lemma TransformIsSum(a: seq<Complex>, k: nat, roots: seq<Complex>, p: nat)
    requires |a| == Pow2(k) && k < |roots| && p < |a|
    ensures Transform(a, k, roots, false)[p] == DftSum(a, roots[k], p, |a|)
  {
    hide Mul, Pow;
    DftIsSum(a, roots[k], p);
  }

  lemma ScaleBack(q: real, r: real, a: seq<Complex>)
    requires q * r == 1.0
    ensures SeqScale(q, SeqScale(r, a)) == a
  {
    hide Scale;
    forall i | 0 <= i < |a|
      ensures Scale(q, Scale(r, a[i])) == a[i]
    {
      ScaleScale(q, r, a[i]);
      ScaleOne(a[i]);
    }
  }

  lemma ScaleOne(a: Complex)
    ensures Scale(1.0, a) == a
  {
  }

  lemma DftScale(r: real, a: seq<Complex>, w: Complex)
    ensures Dft(SeqScale(r, a), w) == SeqScale(r, Dft(a, w))
  {
    hide Mul, Scale, Pow, Eval;
    forall i | 0 <= i < |a|
      ensures Dft(SeqScale(r, a), w)[i] == Scale(r, Dft(a, w)[i])
    {
      EvalScale(r, a, Pow(w, i));
    }
  }

  lemma TransformForward(a: seq<Complex>, k: nat, roots: seq<Complex>)
    requires k < |roots|
    ensures Transform(a, k, roots, false) == Dft(a, Table(roots, false)[k])
  {
    hide Dft, SeqScale;
  }

  lemma TransformInverse(a: seq<Complex>, k: nat, roots: seq<Complex>)
    requires k < |roots|
    ensures Transform(a, k, roots, true)
         == SeqScale(1.0 / Pow2(k) as real, Dft(a, Table(roots, true)[k]))
  {
    hide Dft, SeqScale;
  }

  /** A call in one direction after a call in the other restores the input. */
  lemma RoundTrip(a: seq<Complex>, k: nat, roots: seq<Complex>, inverse: bool)
    requires |a| == Pow2(k) && k < |roots| && RootTable(roots)
    ensures Transform(Transform(a, k, roots, inverse), k, roots, !inverse) == a
  {
    hide *;
    var w, v := Table(roots, inverse)[k], Table(roots, !inverse)[k];
    var n := Pow2(k) as real;
    var q := 1.0 / n;
    TableValid(roots, inverse);
    RootsPrimitive(Table(roots, inverse), k);
    TablesInverse(roots, k, inverse);
    InverseRestores(a, w, v, k);
    Reciprocal(n);
    ScaleBack(q, n, a);
    if inverse {
      TransformInverse(a, k, roots);
      TransformForward(SeqScale(q, Dft(a, w)), k, roots);
      DftScale(q, Dft(a, w), v);
    } else {
      TransformForward(a, k, roots);
      TransformInverse(Dft(a, w), k, roots);
    }
  }
}
