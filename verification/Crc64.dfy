/** strCRC64: table-driven, a byte at a time, against schoolbook polynomial division. */
module Crc64 {

  import Table = Crc64Table

  /** The generator polynomial, reflected, without its leading term. */
  const POLY: bv64 := 0x95ac9329ac4bc9b5

  // ----- one bit at a time -----

  function Low(c: bv64): bool {
    c & 1 == 1
  }

  function Half(c: bv64): bv64 {
    c >> 1
  }

  function Step(c: bv64): bv64 {
    if c & 1 == 1 then (c >> 1) ^ POLY else c >> 1
  }

  function Step8(c: bv64): bv64 {
    Step(Step(Step(Step(Step(Step(Step(Step(c))))))))
  }

  /** Exclusive or under a name, to keep bit-level reasoning out of proofs that only combine. */
  function Xor(a: bv64, b: bv64): bv64 {
    a ^ b
  }

  lemma XorSwap(a: bv64, b: bv64)
    ensures Xor(a, b) == Xor(b, a)
  {
  }

  lemma XorAssociative(a: bv64, b: bv64, c: bv64)
    ensures Xor(Xor(a, b), c) == Xor(a, Xor(b, c))
  {
  }

  lemma XorSelf(a: bv64)
    ensures Xor(a, a) == 0 && Xor(a, 0) == a && Xor(0, a) == a
  {
  }

  lemma XorZero(a: bv64, b: bv64)
    ensures Xor(a, b) == 0 <==> a == b
  {
    hide Xor;
    XorAssociative(a, b, b);
    XorSelf(a);
    XorSelf(b);
  }

  lemma LowXor(a: bv64, b: bv64)
    ensures (a ^ b) & 1 == (a & 1) ^ (b & 1)
  {
  }

  lemma LowBit(a: bv64)
    ensures a & 1 == 0 || a & 1 == 1
  {
  }

  lemma StepBothOdd(a: bv64, b: bv64)
    requires a & 1 == 1 && b & 1 == 1
    ensures Step(a ^ b) == Step(a) ^ Step(b)
  {
  }

  lemma StepOneOdd(a: bv64, b: bv64)
    requires a & 1 == 1 && b & 1 == 0
    ensures Step(a ^ b) == Step(a) ^ Step(b)
  {
  }

  lemma StepBothEven(a: bv64, b: bv64)
    requires a & 1 == 0 && b & 1 == 0
    ensures Step(a ^ b) == Step(a) ^ Step(b)
  {
  }

  /** Dividing is linear over exclusive or. */
  lemma StepLinear(a: bv64, b: bv64)
    ensures Step(Xor(a, b)) == Xor(Step(a), Step(b))
  {
    hide Step;
    LowBit(a);
    LowBit(b);
    if a & 1 == 1 {
      if b & 1 == 1 {
        StepBothOdd(a, b);
      } else {
        StepOneOdd(a, b);
      }
    } else {
      if b & 1 == 1 {
        StepOneOdd(b, a);
      } else {
        StepBothEven(a, b);
      }
    }
  }

  /** Nothing but zero steps to zero, because the polynomial has its constant term. */
  lemma StepZero(c: bv64)
    ensures Step(c) == 0 <==> c == 0
  {
  }

  lemma Step8Linear(a: bv64, b: bv64)
    ensures Step8(Xor(a, b)) == Xor(Step8(a), Step8(b))
  {
    hide Step, Xor;
    var a1, b1 := Step(a), Step(b);
    var a2, b2 := Step(a1), Step(b1);
    var a3, b3 := Step(a2), Step(b2);
    var a4, b4 := Step(a3), Step(b3);
    var a5, b5 := Step(a4), Step(b4);
    var a6, b6 := Step(a5), Step(b5);
    var a7, b7 := Step(a6), Step(b6);
    StepLinear(a, b);
    StepLinear(a1, b1);
    StepLinear(a2, b2);
    StepLinear(a3, b3);
    StepLinear(a4, b4);
    StepLinear(a5, b5);
    StepLinear(a6, b6);
    StepLinear(a7, b7);
  }

  lemma Step8Zero(c: bv64)
    ensures Step8(c) == 0 <==> c == 0
  {
    hide Step;
    StepZero(c);
    StepZero(Step(c));
    StepZero(Step(Step(c)));
    StepZero(Step(Step(Step(c))));
    StepZero(Step(Step(Step(Step(c)))));
    StepZero(Step(Step(Step(Step(Step(c))))));
    StepZero(Step(Step(Step(Step(Step(Step(c)))))));
    StepZero(Step(Step(Step(Step(Step(Step(Step(c))))))));
  }

  // ----- the table -----

  lemma Row0(j: bv8)
    requires j < 16
    ensures Table.Row0(j) == Step8((0 | j) as bv64)
  {
    match j {
      case 0 => case 1 => case 2 => case 3 => case 4 => case 5 => case 6 => case 7 =>
      case 8 => case 9 => case 10 => case 11 => case 12 => case 13 => case 14 => case _ =>
    }
  }

  lemma Row1(j: bv8)
    requires j < 16
    ensures Table.Row1(j) == Step8((16 | j) as bv64)
  {
    match j {
      case 0 => case 1 => case 2 => case 3 => case 4 => case 5 => case 6 => case 7 =>
      case 8 => case 9 => case 10 => case 11 => case 12 => case 13 => case 14 => case _ =>
    }
  }

  lemma Row2(j: bv8)
    requires j < 16
    ensures Table.Row2(j) == Step8((32 | j) as bv64)
  {
    match j {
      case 0 => case 1 => case 2 => case 3 => case 4 => case 5 => case 6 => case 7 =>
      case 8 => case 9 => case 10 => case 11 => case 12 => case 13 => case 14 => case _ =>
    }
  }

  lemma Row3(j: bv8)
    requires j < 16
    ensures Table.Row3(j) == Step8((48 | j) as bv64)
  {
    match j {
      case 0 => case 1 => case 2 => case 3 => case 4 => case 5 => case 6 => case 7 =>
      case 8 => case 9 => case 10 => case 11 => case 12 => case 13 => case 14 => case _ =>
    }
  }

  lemma Row4(j: bv8)
    requires j < 16
    ensures Table.Row4(j) == Step8((64 | j) as bv64)
  {
    match j {
      case 0 => case 1 => case 2 => case 3 => case 4 => case 5 => case 6 => case 7 =>
      case 8 => case 9 => case 10 => case 11 => case 12 => case 13 => case 14 => case _ =>
    }
  }

  lemma Row5(j: bv8)
    requires j < 16
    ensures Table.Row5(j) == Step8((80 | j) as bv64)
  {
    match j {
      case 0 => case 1 => case 2 => case 3 => case 4 => case 5 => case 6 => case 7 =>
      case 8 => case 9 => case 10 => case 11 => case 12 => case 13 => case 14 => case _ =>
    }
  }

  lemma Row6(j: bv8)
    requires j < 16
    ensures Table.Row6(j) == Step8((96 | j) as bv64)
  {
    match j {
      case 0 => case 1 => case 2 => case 3 => case 4 => case 5 => case 6 => case 7 =>
      case 8 => case 9 => case 10 => case 11 => case 12 => case 13 => case 14 => case _ =>
    }
  }

  lemma Row7(j: bv8)
    requires j < 16
    ensures Table.Row7(j) == Step8((112 | j) as bv64)
  {
    match j {
      case 0 => case 1 => case 2 => case 3 => case 4 => case 5 => case 6 => case 7 =>
      case 8 => case 9 => case 10 => case 11 => case 12 => case 13 => case 14 => case _ =>
    }
  }

  lemma Row8(j: bv8)
    requires j < 16
    ensures Table.Row8(j) == Step8((128 | j) as bv64)
  {
    match j {
      case 0 => case 1 => case 2 => case 3 => case 4 => case 5 => case 6 => case 7 =>
      case 8 => case 9 => case 10 => case 11 => case 12 => case 13 => case 14 => case _ =>
    }
  }

  lemma Row9(j: bv8)
    requires j < 16
    ensures Table.Row9(j) == Step8((144 | j) as bv64)
  {
    match j {
      case 0 => case 1 => case 2 => case 3 => case 4 => case 5 => case 6 => case 7 =>
      case 8 => case 9 => case 10 => case 11 => case 12 => case 13 => case 14 => case _ =>
    }
  }

  lemma Row10(j: bv8)
    requires j < 16
    ensures Table.Row10(j) == Step8((160 | j) as bv64)
  {
    match j {
      case 0 => case 1 => case 2 => case 3 => case 4 => case 5 => case 6 => case 7 =>
      case 8 => case 9 => case 10 => case 11 => case 12 => case 13 => case 14 => case _ =>
    }
  }

  lemma Row11(j: bv8)
    requires j < 16
    ensures Table.Row11(j) == Step8((176 | j) as bv64)
  {
    match j {
      case 0 => case 1 => case 2 => case 3 => case 4 => case 5 => case 6 => case 7 =>
      case 8 => case 9 => case 10 => case 11 => case 12 => case 13 => case 14 => case _ =>
    }
  }

  lemma Row12(j: bv8)
    requires j < 16
    ensures Table.Row12(j) == Step8((192 | j) as bv64)
  {
    match j {
      case 0 => case 1 => case 2 => case 3 => case 4 => case 5 => case 6 => case 7 =>
      case 8 => case 9 => case 10 => case 11 => case 12 => case 13 => case 14 => case _ =>
    }
  }

  lemma Row13(j: bv8)
    requires j < 16
    ensures Table.Row13(j) == Step8((208 | j) as bv64)
  {
    match j {
      case 0 => case 1 => case 2 => case 3 => case 4 => case 5 => case 6 => case 7 =>
      case 8 => case 9 => case 10 => case 11 => case 12 => case 13 => case 14 => case _ =>
    }
  }

  lemma Row14(j: bv8)
    requires j < 16
    ensures Table.Row14(j) == Step8((224 | j) as bv64)
  {
    match j {
      case 0 => case 1 => case 2 => case 3 => case 4 => case 5 => case 6 => case 7 =>
      case 8 => case 9 => case 10 => case 11 => case 12 => case 13 => case 14 => case _ =>
    }
  }

  lemma Row15(j: bv8)
    requires j < 16
    ensures Table.Row15(j) == Step8((240 | j) as bv64)
  {
    match j {
      case 0 => case 1 => case 2 => case 3 => case 4 => case 5 => case 6 => case 7 =>
      case 8 => case 9 => case 10 => case 11 => case 12 => case 13 => case 14 => case _ =>
    }
  }

  /** Every table entry is its index after eight bitwise steps. */
  lemma TableExact(i: bv8)
    ensures Table.Entry(i) == Step8(i as bv64)
  {
    var j := i & 15;
    TableRows(i, j, (i >> 4) << 4);
  }

  lemma TableRows(i: bv8, j: bv8, high: bv8)
    requires j == i & 15 && high == (i >> 4) << 4
    ensures Table.Entry(i) == Step8(i as bv64)
  {
    hide Step8, Table.Row0, Table.Row1, Table.Row2, Table.Row3, Table.Row4, Table.Row5, Table.Row6, Table.Row7,
      Table.Row8, Table.Row9, Table.Row10, Table.Row11, Table.Row12, Table.Row13, Table.Row14, Table.Row15;
    assert j < 16 && i == high | j;
    match i >> 4 {
      case 0 => Row0(j);
      case 1 => Row1(j);
      case 2 => Row2(j);
      case 3 => Row3(j);
      case 4 => Row4(j);
      case 5 => Row5(j);
      case 6 => Row6(j);
      case 7 => Row7(j);
      case 8 => Row8(j);
      case 9 => Row9(j);
      case 10 => Row10(j);
      case 11 => Row11(j);
      case 12 => Row12(j);
      case 13 => Row13(j);
      case 14 => Row14(j);
      case _ => Row15(j);
    }
  }

  // ----- a byte at a time -----

  /** The body of the loop. */
  function ByteStep(c: bv64, b: bv8): bv64 {
    Table.Entry((c & 0xFF) as bv8 ^ b) ^ (c >> 8)
  }

  lemma Step8High(h: bv64)
    requires h & 0xFF == 0
    ensures Step8(h) == h >> 8
  {
  }

  function Index(c: bv64, b: bv8): bv8 {
    (c & 0xFF) as bv8 ^ b
  }

  /** The register without its low byte. */
  function High(c: bv64): bv64 {
    (c >> 8) << 8
  }

  lemma SplitLow(c: bv64, b: bv8)
    ensures Xor(Index(c, b) as bv64, High(c)) == Xor(c, b as bv64)
  {
    hide Xor, Index, High;
    var low := c & 0xFF;
    IndexParts(c, b);
    LowAndHigh(c);
    XorAssociative(low, b as bv64, High(c));
    XorSwap(b as bv64, High(c));
    XorAssociative(low, High(c), b as bv64);
  }

  lemma IndexParts(c: bv64, b: bv8)
    ensures Index(c, b) as bv64 == Xor(c & 0xFF, b as bv64)
  {
  }

  lemma LowAndHigh(c: bv64)
    ensures Xor(c & 0xFF, High(c)) == c
  {
  }

  lemma HighPart(c: bv64)
    ensures High(c) & 0xFF == 0 && High(c) >> 8 == c >> 8
  {
  }

  lemma ByteStepParts(c: bv64, b: bv8)
    ensures ByteStep(c, b) == Xor(Table.Entry(Index(c, b)), c >> 8)
  {
    hide Table.Entry;
  }

  lemma HighSteps(c: bv64)
    ensures Step8(High(c)) == c >> 8
  {
    hide Step8, High;
    HighPart(c);
    Step8High(High(c));
  }

  /** One table step is eight bitwise steps of the remainder with the byte added in. */
  lemma ByteStepExact(c: bv64, b: bv8)
    ensures ByteStep(c, b) == Step8(Xor(c, b as bv64))
  {
    hide *;
    ByteStepParts(c, b);
    TableExact(Index(c, b));
    HighSteps(c);
    Step8Linear(Index(c, b) as bv64, High(c));
    SplitLow(c, b);
  }

  function Run(c: bv64, s: seq<bv8>): bv64
    decreases |s|
  {
    if s == [] then c else Run(ByteStep(c, s[0]), s[1..])
  }

  // ----- polynomial division -----

  /** Coefficients of a polynomial over GF(2), highest power first. */
  type Poly = seq<bool>

  /** The n low bits, lowest first: a reflected register read as a polynomial. */
  function Bits(c: bv64, n: nat): (r: Poly)
    ensures |r| == n
    decreases n
  {
    if n == 0 then [] else [Low(c)] + Bits(Half(c), n - 1)
  }

  /** The message as a polynomial: the bits of each byte, lowest first. */
  function MessageBits(s: seq<bv8>): Poly {
    if s == [] then [] else Bits(s[0] as bv64, 8) + MessageBits(s[1..])
  }

  function Zeros(n: nat): Poly {
    seq(n, i => false)
  }

  /** x^64 and the 64 coefficients of POLY. */
  function Generator(): (g: Poly)
    ensures |g| == 65
  {
    [true] + Bits(POLY, 64)
  }

  /** p subtracted from the leading coefficients of d. */
  function Subtract(d: Poly, p: Poly): (r: Poly)
    requires |p| <= |d|
    ensures |r| == |d|
  {
    seq(|d|, i requires 0 <= i < |d| => if i < |p| then d[i] != p[i] else d[i])
  }

  /** Schoolbook division by the generator: cancel the leading term until 64 are left. */
  function Remainder(d: Poly): Poly
    decreases |d|
  {
    if |d| <= 64 then d
    else if d[0] then Remainder(Subtract(d, Generator())[1..])
    else Remainder(d[1..])
  }

  /** The quotient of the same division, leading coefficient first. */
  function Quotient(d: Poly): (q: Poly)
    ensures |q| == if |d| <= 64 then 0 else |d| - 64
    decreases |d|
  {
    if |d| <= 64 then []
    else [d[0]] + Quotient(if d[0] then Subtract(d, Generator())[1..] else d[1..])
  }

  /** q times the generator plus r, one coefficient of q at a time. */
  function Multiple(q: Poly, r: Poly): (d: Poly)
    requires |r| >= 64
    ensures |d| == |q| + |r|
  {
    if q == [] then r
    else
      var rest := [false] + Multiple(q[1..], r);
      if q[0] then Subtract(rest, Generator()) else rest
  }

  /** The division is one: quotient times generator plus remainder is the dividend, and the
      remainder has 64 coefficients. */
  lemma {:induction false} DivisionIdentity(d: Poly)
    requires |d| >= 64
    ensures |Remainder(d)| == 64 && Multiple(Quotient(d), Remainder(d)) == d
    decreases |d|
  {
    if |d| > 64 {
      hide Generator;
      var next := if d[0] then Subtract(d, Generator())[1..] else d[1..];
      DivisionIdentity(next);
      assert Quotient(d)[1..] == Quotient(next);
      if d[0] {
        LeadingCancels(d);
        SubtractTwice(d, Generator());
        assert [false] + next == Subtract(d, Generator());
      }
    }
  }

  lemma LeadingCancels(d: Poly)
    requires |d| > 64 && d[0]
    ensures !Subtract(d, Generator())[0]
  {
  }

  lemma SubtractTwice(d: Poly, p: Poly)
    requires |p| <= |d|
    ensures Subtract(Subtract(d, p), p) == d
  {
  }

  // Bits of the register.

  function Shr(c: bv64, n: nat): bv64
    decreases n
  {
    if n == 0 then c else Shr(Half(c), n - 1)
  }

  lemma {:induction false} ShrAdd(c: bv64, m: nat, n: nat)
    ensures Shr(Shr(c, m), n) == Shr(c, m + n)
    decreases m
  {
    if m > 0 {
      ShrAdd(Half(c), m - 1, n);
    }
  }

  lemma Shr8(c: bv64)
    ensures Shr(c, 8) == Half(Half(Half(Half(Half(Half(Half(Half(c))))))))
  {
    hide Half;
    Shr4(c);
    Shr4(Half(Half(Half(Half(c)))));
    ShrAdd(c, 4, 4);
  }

  lemma Shr4(c: bv64)
    ensures Shr(c, 4) == Half(Half(Half(Half(c))))
  {
    hide Half;
    assert Shr(c, 4) == Shr(Half(Half(c)), 2);
  }

  lemma Halves(c: bv64)
    ensures Half(Half(Half(Half(Half(Half(Half(Half(c)))))))) == c >> 8
  {
  }

  lemma ShrByte(c: bv64)
    ensures Shr(c, 8) == c >> 8
  {
    hide Shr, Half;
    Shr8(c);
    Halves(c);
  }

  lemma ShrAll(c: bv64)
    ensures Shr(c, 64) == 0
  {
    hide Shr;
    var c1 := c >> 8;
    var c2 := c1 >> 8;
    var c3 := c2 >> 8;
    var c4 := c3 >> 8;
    var c5 := c4 >> 8;
    var c6 := c5 >> 8;
    var c7 := c6 >> 8;
    ShrByte(c);
    ShrByte(c1);
    ShrByte(c2);
    ShrByte(c3);
    ShrByte(c4);
    ShrByte(c5);
    ShrByte(c6);
    ShrByte(c7);
    ShrAdd(c, 8, 8);
    ShrAdd(c, 16, 8);
    ShrAdd(c, 24, 8);
    ShrAdd(c, 32, 8);
    ShrAdd(c, 40, 8);
    ShrAdd(c, 48, 8);
    ShrAdd(c, 56, 8);
    assert c7 >> 8 == 0;
  }

  lemma {:induction false} BitsSnoc(c: bv64, n: nat)
    ensures Bits(c, n + 1) == Bits(c, n) + [Low(Shr(c, n))]
    decreases n
  {
    hide Low, Half;
    if n > 0 {
      BitsSnoc(Half(c), n - 1);
    }
  }

  /** Shifting the register drops its leading coefficient and brings in a zero. */
  lemma BitsShift(c: bv64)
    ensures Bits(Half(c), 64) == Bits(c, 64)[1..] + [false]
  {
    hide Shr, Low, Half;
    BitsSnoc(Half(c), 63);
    ShrStep(c, 63);
    ShrAll(c);
    LowZero();
    assert Bits(c, 64)[1..] == Bits(Half(c), 63);
  }

  lemma LowZero()
    ensures !Low(0) && Low(1)
  {
  }

  lemma ShrStep(c: bv64, n: nat)
    ensures Shr(Half(c), n) == Shr(c, n + 1)
  {
    hide Half;
  }

  lemma LowDiffers(a: bv64, b: bv64)
    ensures Low(Xor(a, b)) == (Low(a) != Low(b))
  {
    LowXor(a, b);
    LowBit(a);
    LowBit(b);
  }

  lemma HalfXor(a: bv64, b: bv64)
    ensures Half(Xor(a, b)) == Xor(Half(a), Half(b))
  {
    assert (a ^ b) >> 1 == (a >> 1) ^ (b >> 1);
  }

  lemma {:induction false} BitAt(c: bv64, n: nat, i: nat)
    requires i < n
    ensures Bits(c, n)[i] == Low(Shr(c, i))
    decreases n
  {
    hide Low, Half;
    if i > 0 {
      BitAt(Half(c), n - 1, i - 1);
    }
  }

  lemma {:induction false} ShrXor(a: bv64, b: bv64, n: nat)
    ensures Shr(Xor(a, b), n) == Xor(Shr(a, n), Shr(b, n))
    decreases n
  {
    hide Half, Xor;
    if n > 0 {
      HalfXor(a, b);
      ShrXor(Half(a), Half(b), n - 1);
    }
  }

  lemma BitXor(a: bv64, b: bv64, n: nat, i: nat)
    requires i < n
    ensures Bits(Xor(a, b), n)[i] == (Bits(a, n)[i] != Bits(b, n)[i])
  {
    hide Low, Shr, Xor, Bits;
    BitAt(a, n, i);
    BitAt(b, n, i);
    BitAt(Xor(a, b), n, i);
    ShrXor(a, b, i);
    LowDiffers(Shr(a, i), Shr(b, i));
  }

  // The register while the message goes in.

  function Bit(b: bool): bv64 {
    if b then 1 else 0
  }

  /** Division one message bit at a time. */
  function Feed(c: bv64, bits: Poly): bv64
    decreases |bits|
  {
    if bits == [] then c else Feed(Step(Xor(c, Bit(bits[0]))), bits[1..])
  }

  function Steps(c: bv64, n: nat): bv64
    decreases n
  {
    if n == 0 then c else Steps(Step(c), n - 1)
  }

  lemma StepsEight(c: bv64)
    ensures Steps(c, 8) == Step8(c)
  {
    hide Step;
    StepsAdd(c, 4, 4);
    StepsFour(c);
    StepsFour(Step(Step(Step(Step(c)))));
  }

  lemma StepsFour(c: bv64)
    ensures Steps(c, 4) == Step(Step(Step(Step(c))))
  {
    hide Step;
    assert Steps(c, 4) == Steps(Step(Step(c)), 2);
  }

  lemma {:induction false} StepsAdd(c: bv64, m: nat, n: nat)
    ensures Steps(Steps(c, m), n) == Steps(c, m + n)
    decreases m
  {
    hide Step;
    if m > 0 {
      StepsAdd(Step(c), m - 1, n);
    }
  }

  lemma SplitBit(x: bv64)
    ensures Xor(Bit(Low(x)), Half(x) << 1) == x
    ensures Step(Half(x) << 1) == Half(x)
  {
  }

  /** Of a pending word only the lowest bit meets the register in the next step. */
  lemma FeedOne(c: bv64, x: bv64)
    ensures Step(Xor(c, x)) == Xor(Step(Xor(c, Bit(Low(x)))), Half(x))
  {
    hide Step, Xor, Bit, Low, Half;
    SplitBit(x);
    var even := Half(x) << 1;
    XorAssociative(c, Bit(Low(x)), even);
    StepLinear(Xor(c, Bit(Low(x))), even);
  }

  /** Stepping with a whole word added in is feeding its bits one by one. */
  lemma {:induction false} FeedSteps(c: bv64, x: bv64, n: nat)
    ensures Steps(Xor(c, x), n) == Xor(Feed(c, Bits(x, n)), Shr(x, n))
    decreases n
  {
    if n > 0 {
      hide Step, Xor, Bit, Low, Half;
      FeedOne(c, x);
      FeedSteps(Step(Xor(c, Bit(Low(x)))), Half(x), n - 1);
      assert Bits(x, n)[1..] == Bits(Half(x), n - 1);
    }
  }

  lemma ByteShifted(b: bv8)
    ensures (b as bv64) >> 8 == 0
  {
  }

  lemma ByteIsBits(c: bv64, b: bv8)
    ensures ByteStep(c, b) == Feed(c, Bits(b as bv64, 8))
  {
    hide *;
    ByteStepExact(c, b);
    StepsEight(Xor(c, b as bv64));
    FeedSteps(c, b as bv64, 8);
    ShrByte(b as bv64);
    ByteShifted(b);
    XorSelf(Feed(c, Bits(b as bv64, 8)));
  }

  lemma {:induction false} FeedAppend(c: bv64, a: Poly, b: Poly)
    ensures Feed(c, a + b) == Feed(Feed(c, a), b)
    decreases |a|
  {
    hide Step, Xor, Bit;
    if a == [] {
      assert a + b == b;
    } else {
      FeedAppend(Step(Xor(c, Bit(a[0]))), a[1..], b);
      assert (a + b)[1..] == a[1..] + b;
    }
  }

  lemma {:induction false} RunIsFeed(c: bv64, s: seq<bv8>)
    ensures Run(c, s) == Feed(c, MessageBits(s))
    decreases |s|
  {
    if s != [] {
      hide ByteStep, Bits, Step, Xor, Bit;
      ByteIsBits(c, s[0]);
      FeedAppend(c, Bits(s[0] as bv64, 8), MessageBits(s[1..]));
      RunIsFeed(ByteStep(c, s[0]), s[1..]);
    }
  }

  // The division itself.

  /** What is left to divide once the register holds c and the bits m are still to come. */
  function Pending(c: bv64, m: Poly): (d: Poly)
    ensures |d| == |m| + 64
  {
    Subtract(m + Zeros(64), Bits(c, 64))
  }

  lemma PendingHead(c: bv64, m: Poly)
    requires m != []
    ensures Pending(c, m)[0] == Low(Xor(c, Bit(m[0])))
  {
    hide Low, Half, Xor, Bit;
    LowDiffers(c, Bit(m[0]));
    LowOfBit(m[0]);
  }

  lemma LowOfBit(b: bool)
    ensures Low(Bit(b)) == b
  {
  }

  lemma StepCases(c: bv64)
    ensures Step(c) == if Low(c) then Xor(Half(c), POLY) else Half(c)
  {
  }

  lemma HalfBit(c: bv64, b: bool)
    ensures Half(Xor(c, Bit(b))) == Half(c)
  {
  }

  /** Without a leading term the dividend just moves up. */
  lemma PendingShift(c: bv64, m: Poly)
    requires m != []
    ensures Pending(c, m)[1..] == Pending(Half(c), m[1..])
  {
    hide Low, Half;
    var d, e := Pending(c, m), Pending(Half(c), m[1..]);
    BitsShift(c);
    var b := Bits(c, 64);
    forall i | 0 <= i < |e|
      ensures d[i + 1] == e[i]
    {
      assert (m + Zeros(64))[i + 1] == (m[1..] + Zeros(64))[i];
      if i < 63 {
        assert Bits(Half(c), 64)[i] == b[i + 1];
      }
    }
  }

  /** With one, the generator is subtracted first. */
  lemma PendingSubtract(c: bv64, m: Poly)
    requires m != []
    ensures Subtract(Pending(c, m), Generator())[1..] == Pending(Xor(Half(c), POLY), m[1..])
  {
    hide Low, Half, Xor, Bits;
    PendingShift(c, m);
    var d := Pending(c, m);
    var s, e := Subtract(d, Generator()), Pending(Xor(Half(c), POLY), m[1..]);
    forall i | 0 <= i < |e|
      ensures s[i + 1] == e[i]
    {
      assert d[i + 1] == d[1..][i] == Pending(Half(c), m[1..])[i];
      if i < 64 {
        BitXor(Half(c), POLY, 64, i);
        assert Generator()[i + 1] == Bits(POLY, 64)[i];
      }
    }
  }

  lemma {:induction false} FeedDivides(c: bv64, m: Poly)
    ensures Remainder(Pending(c, m)) == Bits(Feed(c, m), 64)
    decreases |m|
  {
    hide Low, Half, Xor, Bits, Step, Bit, Pending, Subtract, Generator;
    if m == [] {
      PendingEnd(c);
    } else {
      var c' := Xor(c, Bit(m[0]));
      PendingHead(c, m);
      StepCases(c');
      HalfBit(c, m[0]);
      PendingShift(c, m);
      PendingSubtract(c, m);
      FeedDivides(Step(c'), m[1..]);
    }
  }

  lemma PendingEnd(c: bv64)
    ensures Pending(c, []) == Bits(c, 64)
  {
    hide Bits;
    assert [] + Zeros(64) == Zeros(64);
  }

  /** The table-driven checksum is the remainder of the message times x^64 divided by the
      generator, for every byte string. */
  lemma DivisionExact(s: seq<bv8>)
    ensures Bits(Run(0, s), 64) == Remainder(MessageBits(s) + Zeros(64))
  {
    hide *;
    RunIsFeed(0, s);
    FeedDivides(0, MessageBits(s));
    PendingStart(MessageBits(s));
  }

  lemma PendingStart(m: Poly)
    ensures Pending(0, m) == m + Zeros(64)
  {
    forall i | 0 <= i < 64
      ensures !Bits(0, 64)[i]
    {
      BitAt(0, 64, i);
      ShrZero(i);
    }
  }

  lemma {:induction false} ShrZero(n: nat)
    ensures Shr(0, n) == 0 && !Low(0)
    decreases n
  {
    if n > 0 {
      ShrZero(n - 1);
    }
  }

  // ----- what the checksum detects -----

  /** Byte-wise exclusive or of two strings of the same length. */
  function XorStrings(s: seq<bv8>, t: seq<bv8>): (r: seq<bv8>)
    requires |s| == |t|
    ensures |r| == |s| && forall i :: 0 <= i < |s| ==> r[i] == s[i] ^ t[i]
  {
    seq(|s|, i requires 0 <= i < |s| => s[i] ^ t[i])
  }

  lemma XorMiddle(a: bv64, b: bv64, x: bv64, y: bv64)
    ensures Xor(Xor(a, b), Xor(x, y)) == Xor(Xor(a, x), Xor(b, y))
  {
    hide Xor;
    XorAssociative(a, b, Xor(x, y));
    XorAssociative(b, x, y);
    XorSwap(b, x);
    XorAssociative(x, b, y);
    XorAssociative(a, x, Xor(b, y));
  }

  lemma WidenXor(b: bv8, d: bv8)
    ensures (b ^ d) as bv64 == Xor(b as bv64, d as bv64)
  {
  }

  lemma ByteStepLinear(a: bv64, b: bv8, c: bv64, d: bv8)
    ensures ByteStep(Xor(a, c), b ^ d) == Xor(ByteStep(a, b), ByteStep(c, d))
  {
    hide ByteStep, Xor, Step8;
    ByteStepExact(a, b);
    ByteStepExact(c, d);
    ByteStepExact(Xor(a, c), b ^ d);
    WidenXor(b, d);
    XorMiddle(a, c, b as bv64, d as bv64);
    Step8Linear(Xor(a, b as bv64), Xor(c, d as bv64));
  }

  /** Linear over exclusive or, for strings of equal length. */
  lemma {:induction false} RunLinear(a: bv64, s: seq<bv8>, c: bv64, t: seq<bv8>)
    requires |s| == |t|
    ensures Run(Xor(a, c), XorStrings(s, t)) == Xor(Run(a, s), Run(c, t))
    decreases |s|
  {
    hide ByteStep, Xor;
    if s != [] {
      ByteStepLinear(a, s[0], c, t[0]);
      assert XorStrings(s, t)[1..] == XorStrings(s[1..], t[1..]);
      RunLinear(ByteStep(a, s[0]), s[1..], ByteStep(c, t[0]), t[1..]);
    }
  }

  lemma {:induction false} RunAppend(c: bv64, s: seq<bv8>, t: seq<bv8>)
    ensures Run(c, s + t) == Run(Run(c, s), t)
    decreases |s|
  {
    hide ByteStep;
    if s == [] {
      assert s + t == t;
    } else {
      assert (s + t)[1..] == s[1..] + t;
      RunAppend(ByteStep(c, s[0]), s[1..], t);
    }
  }

  function NullBytes(n: nat): (r: seq<bv8>)
    ensures |r| == n
  {
    seq(n, i => 0)
  }

  lemma ZeroByte(c: bv64)
    ensures ByteStep(c, 0) == 0 <==> c == 0
  {
    hide ByteStep, Xor, Step8;
    ByteStepExact(c, 0);
    XorSelf(c);
    Step8Zero(c);
  }

  /** Zero bytes neither create nor hide a difference. */
  lemma {:induction false} NullBytesKeep(c: bv64, n: nat)
    ensures Run(c, NullBytes(n)) == 0 <==> c == 0
    decreases n
  {
    hide ByteStep;
    if n > 0 {
      ZeroByte(c);
      assert NullBytes(n)[1..] == NullBytes(n - 1);
      NullBytesKeep(ByteStep(c, 0), n - 1);
    }
  }

  function Up(w: bv64): bv64 {
    w << 8
  }

  /** Up to eight bytes as one word, the first in the lowest place. */
  function Word(s: seq<bv8>): bv64
    decreases |s|
  {
    if s == [] then 0 else Xor(s[0] as bv64, Up(Word(s[1..])))
  }

  function Mask(n: nat): bv64 {
    match n
    case 0 => 0
    case 1 => 0xFF
    case 2 => 0xFFFF
    case 3 => 0xFFFFFF
    case 4 => 0xFFFFFFFF
    case 5 => 0xFFFFFFFFFF
    case 6 => 0xFFFFFFFFFFFF
    case 7 => 0xFFFFFFFFFFFFFF
    case _ => 0xFFFFFFFFFFFFFFFF
  }

  /** The word takes up only its n low bytes. */
  predicate Fits(w: bv64, n: nat) {
    w <= Mask(n)
  }

  lemma FitsNext(b: bv8, w: bv64, n: nat)
    requires n <= 7 && Fits(w, n)
    ensures Fits(Xor(b as bv64, Up(w)), n + 1)
  {
    match n {
      case 0 => case 1 => case 2 => case 3 => case 4 => case 5 => case 6 => case _ =>
    }
  }

  lemma FitsZero()
    ensures Fits(0, 0)
  {
  }

  lemma {:induction false} WordFits(s: seq<bv8>)
    requires |s| <= 8
    ensures Fits(Word(s), |s|)
    decreases |s|
  {
    hide Xor, Fits, Up;
    if s == [] {
      FitsZero();
    } else {
      WordFits(s[1..]);
      FitsNext(s[0], Word(s[1..]), |s| - 1);
    }
  }

  lemma FitsBound(w: bv64, n: nat)
    requires n <= 7 && Fits(w, n)
    ensures w <= 0xFFFFFFFFFFFFFF
  {
  }

  lemma UpThenDown(w: bv64)
    requires w <= 0xFFFFFFFFFFFFFF
    ensures Up(w) & 0xFF == 0 && Up(w) >> 8 == w
  {
  }

  /** The rest of the word waits in the high bytes and comes down unchanged. */
  lemma WordDown(w: bv64, n: nat)
    requires n <= 7 && Fits(w, n)
    ensures Step8(Up(w)) == w
  {
    hide Step8, Up, Fits;
    FitsBound(w, n);
    UpThenDown(w);
    Step8High(Up(w));
  }

  function Steps8(c: bv64, n: nat): bv64
    decreases n
  {
    if n == 0 then c else Steps8(Step8(c), n - 1)
  }

  lemma {:induction false} Steps8Zero(c: bv64, n: nat)
    ensures Steps8(c, n) == 0 <==> c == 0
    decreases n
  {
    hide Step8;
    if n > 0 {
      Step8Zero(c);
      Steps8Zero(Step8(c), n - 1);
    }
  }

  /** Up to eight bytes act as if their word had been added to the register at once. */
  lemma {:induction false} RunIsWord(c: bv64, s: seq<bv8>)
    requires |s| <= 8
    ensures Run(c, s) == Steps8(Xor(c, Word(s)), |s|)
    decreases |s|
  {
    hide ByteStep, Xor, Step8, Fits, Up;
    if s == [] {
      XorSelf(c);
    } else {
      var rest := Word(s[1..]);
      ByteStepExact(c, s[0]);
      WordFits(s[1..]);
      WordDown(rest, |s| - 1);
      XorAssociative(c, s[0] as bv64, Up(rest));
      Step8Linear(Xor(c, s[0] as bv64), Up(rest));
      RunIsWord(ByteStep(c, s[0]), s[1..]);
    }
  }

  lemma WordHead(b: bv8, w: bv64, n: nat)
    requires n <= 7 && Fits(w, n) && Xor(b as bv64, Up(w)) == 0
    ensures b == 0 && w == 0
  {
    FitsBound(w, n);
    OnlyZero(b, w);
  }

  lemma OnlyZero(b: bv8, w: bv64)
    requires w <= 0xFFFFFFFFFFFFFF && Xor(b as bv64, Up(w)) == 0
    ensures b == 0 && w == 0
  {
  }

  lemma {:induction false} WordZero(s: seq<bv8>)
    requires |s| <= 8 && Word(s) == 0
    ensures s == NullBytes(|s|)
    decreases |s|
  {
    hide Xor, Fits, Up;
    if s != [] {
      WordFits(s[1..]);
      WordHead(s[0], Word(s[1..]), |s| - 1);
      WordZero(s[1..]);
      assert s == [s[0]] + s[1..];
    }
  }

  /** A difference confined to eight consecutive bytes always changes the checksum. */
  lemma BurstDetected(s: seq<bv8>, t: seq<bv8>, at: nat, len: nat)
    requires |s| == |t| && at + len <= |s| && len <= 8
    requires forall i :: 0 <= i < |s| && (i < at || at + len <= i) ==> s[i] == t[i]
    ensures Run(0, s) == Run(0, t) <==> s == t
  {
    hide ByteStep, Xor, Run, Word, Steps8;
    var d := XorStrings(s, t);
    var before, burst, after := NullBytes(at), d[at..at + len], NullBytes(|s| - at - len);
    assert d == before + (burst + after);
    XorSelf(0);
    RunLinear(0, s, 0, t);
    RunAppend(0, before, burst + after);
    NullBytesKeep(0, at);
    RunAppend(0, burst, after);
    NullBytesKeep(Run(0, burst), |after|);
    RunIsWord(0, burst);
    XorSelf(Word(burst));
    Steps8Zero(Word(burst), len);
    XorZero(Run(0, s), Run(0, t));
    if Word(burst) == 0 {
      WordZero(burst);
      forall k | at <= k < at + len
        ensures s[k] ^ t[k] == 0
      {
        assert burst[k - at] == d[k];
      }
      SameBytes(s, t, at, len);
    }
  }

  lemma SameBytes(s: seq<bv8>, t: seq<bv8>, at: nat, len: nat)
    requires |s| == |t| && at + len <= |s|
    requires forall i :: 0 <= i < |s| && (i < at || at + len <= i) ==> s[i] == t[i]
    requires forall k :: at <= k < at + len ==> s[k] ^ t[k] == 0
    ensures s == t
  {
    forall k | at <= k < at + len
      ensures s[k] == t[k]
    {
      EqualBytes(s[k], t[k]);
    }
  }

  lemma EqualBytes(a: bv8, b: bv8)
    requires a ^ b == 0
    ensures a == b
  {
  }

  // ----- the method -----

  function Digit(d: bv64): char {
    match d
    case 0 => '0' case 1 => '1' case 2 => '2' case 3 => '3' case 4 => '4' case 5 => '5' case 6 => '6' case 7 => '7'
    case 8 => '8' case 9 => '9' case 10 => 'a' case 11 => 'b' case 12 => 'c' case 13 => 'd' case 14 => 'e' case _ => 'f'
  }

  function Undigit(c: char): bv64 {
    match c
    case '0' => 0 case '1' => 1 case '2' => 2 case '3' => 3 case '4' => 4 case '5' => 5 case '6' => 6 case '7' => 7
    case '8' => 8 case '9' => 9 case 'a' => 10 case 'b' => 11 case 'c' => 12 case 'd' => 13 case 'e' => 14 case _ => 15
  }

  lemma DigitBack(d: bv64)
    requires d < 16
    ensures Undigit(Digit(d)) == d
  {
  }

  function Nibble(c: bv64): bv64 {
    c & 15
  }

  /** A number with one more hexadecimal digit. */
  function Join(high: bv64, digit: bv64): bv64 {
    (high << 4) | digit
  }

  lemma NibbleSplit(c: bv64)
    ensures Nibble(c) < 16 && Join(c >> 4, Nibble(c)) == c
  {
  }

  lemma OneDigit(d: bv64)
    ensures Join(0, d) == d
  {
  }

  /** std::hex: no padding, lower case. */
  function Hex(c: bv64): string
    decreases c
  {
    if c < 16 then [Digit(c)] else Hex(c >> 4) + [Digit(Nibble(c))]
  }

  function Unhex(s: string): bv64 {
    if s == "" then 0 else Join(Unhex(s[..|s| - 1]), Undigit(s[|s| - 1]))
  }

  lemma UnhexAppend(s: string, c: char)
    ensures Unhex(s + [c]) == Join(Unhex(s), Undigit(c))
  {
    hide Join, Undigit;
    assert (s + [c])[..|s|] == s;
  }

  lemma HexCases(c: bv64)
    ensures c < 16 ==> Hex(c) == [] + [Digit(c)]
    ensures c >= 16 ==> Hex(c) == Hex(c >> 4) + [Digit(Nibble(c))]
  {
    hide Digit, Nibble;
    assert [] + [Digit(c)] == [Digit(c)];
  }

  lemma {:induction false} HexBack(c: bv64)
    ensures Unhex(Hex(c)) == c
    decreases c
  {
    hide Digit, Undigit, Nibble, Join, Hex;
    HexCases(c);
    if c < 16 {
      DigitBack(c);
      UnhexAppend([], Digit(c));
      OneDigit(c);
    } else {
      NibbleSplit(c);
      DigitBack(Nibble(c));
      HexBack(c >> 4);
      UnhexAppend(Hex(c >> 4), Digit(Nibble(c)));
    }
  }

  method StrCrc64(str: seq<bv8>) returns (text: string)
    ensures text == Hex(Run(0, str))
    ensures Bits(Unhex(text), 64) == Remainder(MessageBits(str) + Zeros(64))
  {
    hide ByteStep, Hex, Unhex, Bits, Remainder, MessageBits, Zeros;
    var crc: bv64 := 0;
    for j := 0 to |str|
      invariant Run(crc, str[j..]) == Run(0, str)
    {
      assert str[j..][1..] == str[j + 1..];
      crc := ByteStep(crc, str[j]);
    }
    DivisionExact(str);
    HexBack(crc);
    return Hex(crc);
  }

  /** The printed checksums of two strings differing only inside eight consecutive bytes are
      never equal. */
  lemma BurstChangesText(s: seq<bv8>, t: seq<bv8>, at: nat, len: nat)
    requires |s| == |t| && at + len <= |s| && len <= 8 && s != t
    requires forall i :: 0 <= i < |s| && (i < at || at + len <= i) ==> s[i] == t[i]
    ensures Hex(Run(0, s)) != Hex(Run(0, t))
  {
    hide *;
    BurstDetected(s, t, at, len);
    HexBack(Run(0, s));
    HexBack(Run(0, t));
  }
}
