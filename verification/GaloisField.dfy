/** Arithmetic in GF(2^8) modulo x^8 + x^4 + x^3 + x^2 + 1 (0x11D), the field of the
    Reed-Solomon code of QR symbols.  A byte is its eight bits and addition is exclusive or,
    so the algebra is proved by induction on the bits of a factor. */
module GaloisField {

  datatype Byte = Byte(b7: bool, b6: bool, b5: bool, b4: bool, b3: bool, b2: bool, b1: bool, b0: bool)

  const ZERO := Byte(false, false, false, false, false, false, false, false)
  const ONE := Byte(false, false, false, false, false, false, false, true)
  const TWO := Byte(false, false, false, false, false, false, true, false)

  function Xor(a: Byte, b: Byte): Byte {
    Byte(a.b7 != b.b7, a.b6 != b.b6, a.b5 != b.b5, a.b4 != b.b4,
         a.b3 != b.b3, a.b2 != b.b2, a.b1 != b.b1, a.b0 != b.b0)
  }

  /** Multiplication by x, reduced modulo 0x11D. */
  function Double(z: Byte): Byte {
    Byte(z.b6, z.b5, z.b4, z.b3 != z.b7, z.b2 != z.b7, z.b1 != z.b7, z.b0, z.b7)
  }

  /** Multiplication by a coefficient of GF(2). */
  function Scale(bit: bool, x: Byte): Byte {
    if bit then x else ZERO
  }

  /** The bits of a byte, most significant first. */
  function Bits(y: Byte): seq<bool> {
    [y.b7, y.b6, y.b5, y.b4, y.b3, y.b2, y.b1, y.b0]
  }

  /** Bit k of a byte, most significant first. */
  predicate BitAt(y: Byte, k: nat)
    requires k < 8
  {
    match k
    case 0 => y.b7 case 1 => y.b6 case 2 => y.b5 case 3 => y.b4
    case 4 => y.b3 case 5 => y.b2 case 6 => y.b1 case _ => y.b0
  }

  /** Horner evaluation of a bit string, most significant first, at x: the Russian peasant
      product of x and the polynomial over GF(2) that the bits denote. */
  function Peasant(x: Byte, bits: seq<bool>): Byte {
    if bits == [] then ZERO
    else Xor(Double(Peasant(x, bits[..|bits| - 1])), Scale(bits[|bits| - 1], x))
  }

  /** The field product. */
  function Mul(x: Byte, y: Byte): Byte {
    Peasant(x, Bits(y))
  }

  // ---------- reedSolomonMultiply ----------

  /** The integer z of the source while it is below 512. */
  datatype Wide = Wide(bit8: bool, low: Byte)

  /** z << 1 for z < 256. */
  function ShiftLeft(z: Byte): Wide {
    Wide(z.b7, Byte(z.b6, z.b5, z.b4, z.b3, z.b2, z.b1, z.b0, false))
  }

  /** z ^ (carry * 0x11D). */
  function Reduce(z: Wide, carry: bool): Wide {
    Wide(z.bit8 != carry,
         Xor(z.low, Scale(carry, Byte(false, false, false, true, true, true, false, true))))
  }

  method ReedSolomonMultiply(x: Byte, y: Byte) returns (r: Byte)
    ensures r == Mul(x, y)
  {
    hide Xor, Scale, Double, Peasant, Reduce, ShiftLeft;
    var z := Wide(false, ZERO);
    var i := 7;
    PeasantNone(x);
    while i >= 0
      invariant -1 <= i <= 7
      invariant !z.bit8
      invariant z.low == Peasant(x, Bits(y)[..7 - i])
    {
      var carry := z.low.b7;
      ReduceDoubles(z.low);
      PeasantNext(x, Bits(y), 7 - i);
      z := Reduce(ShiftLeft(z.low), carry);
      z := z.(low := Xor(z.low, Scale(Bits(y)[7 - i], x)));
      i := i - 1;
    }
    assert Bits(y)[..8] == Bits(y);
    assert !z.bit8;   // the "Assertion error" throw is unreachable
    r := z.low;
  }

  lemma PeasantNone(x: Byte)
    ensures Peasant(x, []) == ZERO
  {}

  lemma PeasantNext(x: Byte, bits: seq<bool>, n: nat)
    requires n < |bits|
    ensures Peasant(x, bits[..n + 1]) == Xor(Double(Peasant(x, bits[..n])), Scale(bits[n], x))
  {
    assert bits[..n + 1][..n] == bits[..n];
  }

  /** Shifting and reducing doubles, and clears the carry. */
  lemma ReduceDoubles(z: Byte)
    ensures Reduce(ShiftLeft(z), z.b7) == Wide(false, Double(z))
  {}

  // ---------- exclusive or ----------

  lemma XorComm(a: Byte, b: Byte)
    ensures Xor(a, b) == Xor(b, a)
  {}

  lemma XorSwap(a: Byte, b: Byte, c: Byte, d: Byte)
    ensures Xor(Xor(a, b), Xor(c, d)) == Xor(Xor(a, c), Xor(b, d))
  {}

  lemma XorZero(a: Byte)
    ensures Xor(a, a) == ZERO && Xor(a, ZERO) == a && Xor(ZERO, a) == a
  {}

  lemma XorEqual(a: Byte, b: Byte)
    requires Xor(a, b) == ZERO
    ensures a == b
  {}

  lemma DoubleXor(a: Byte, b: Byte)
    ensures Double(Xor(a, b)) == Xor(Double(a), Double(b))
  {}

  lemma ScaleXor(bit: bool, a: Byte, b: Byte)
    ensures Scale(bit, Xor(a, b)) == Xor(Scale(bit, a), Scale(bit, b))
  {}

  // ---------- ring laws ----------

  lemma {:induction false} PeasantXor(a: Byte, b: Byte, bits: seq<bool>)
    ensures Peasant(Xor(a, b), bits) == Xor(Peasant(a, bits), Peasant(b, bits))
  {
    if bits != [] {
      var p, t := bits[..|bits| - 1], bits[|bits| - 1];
      PeasantXor(a, b, p);
      DoubleXor(Peasant(a, p), Peasant(b, p));
      ScaleXor(t, a, b);
      XorSwap(Double(Peasant(a, p)), Double(Peasant(b, p)), Scale(t, a), Scale(t, b));
    }
  }

  lemma {:induction false} PeasantDouble(x: Byte, bits: seq<bool>)
    ensures Peasant(Double(x), bits) == Double(Peasant(x, bits))
  {
    if bits != [] {
      var p, t := bits[..|bits| - 1], bits[|bits| - 1];
      PeasantDouble(x, p);
      DoubleXor(Double(Peasant(x, p)), Scale(t, x));
    }
  }

  lemma {:induction false} PeasantZero(bits: seq<bool>)
    ensures Peasant(ZERO, bits) == ZERO
  {
    if bits != [] {
      PeasantZero(bits[..|bits| - 1]);
    }
  }

  /** Bit i of a number written in binary, most significant bit first. */
  predicate At(bits: seq<bool>, i: nat) {
    i < |bits| && bits[|bits| - 1 - i]
  }

  /** The byte that at most eight bits denote. */
  function Pack(bits: seq<bool>): Byte {
    Byte(At(bits, 7), At(bits, 6), At(bits, 5), At(bits, 4), At(bits, 3), At(bits, 2), At(bits, 1), At(bits, 0))
  }

  lemma PackStep(bits: seq<bool>)
    requires 0 < |bits| <= 8
    ensures Pack(bits) == Xor(Double(Pack(bits[..|bits| - 1])), Scale(bits[|bits| - 1], ONE))
  {
    var p := bits[..|bits| - 1];
    assert forall i: nat | i < 7 :: At(bits, i + 1) == At(p, i);
    assert !At(p, 7);
  }

  lemma PackBits(y: Byte)
    ensures Pack(Bits(y)) == y
  {}

  lemma {:induction false} PeasantOne(bits: seq<bool>)
    requires |bits| <= 8
    ensures Peasant(ONE, bits) == Pack(bits)
  {
    if bits != [] {
      PeasantOne(bits[..|bits| - 1]);
      PackStep(bits);
    }
  }

  lemma OneMul(x: Byte)
    ensures Mul(ONE, x) == x
  {
    PeasantOne(Bits(x));
    PackBits(x);
  }

  /** Every factor is a polynomial in the doubling map, so a product can be read off the bits of
      either side. */
  lemma {:induction false} PeasantOf(x: Byte, bits: seq<bool>)
    ensures Mul(Peasant(ONE, bits), x) == Peasant(x, bits)
  {
    if bits == [] {
      PeasantZero(Bits(x));
    } else {
      var p, t := bits[..|bits| - 1], bits[|bits| - 1];
      PeasantOf(x, p);
      PeasantXor(Double(Peasant(ONE, p)), Scale(t, ONE), Bits(x));
      PeasantDouble(Peasant(ONE, p), Bits(x));
      OneMul(x);
      PeasantZero(Bits(x));
    }
  }

  lemma MulComm(x: Byte, y: Byte)
    ensures Mul(x, y) == Mul(y, x)
  {
    PeasantOf(x, Bits(y));
    OneMul(y);
  }

  lemma MulOne(x: Byte)
    ensures Mul(ONE, x) == x && Mul(x, ONE) == x
  {
    OneMul(x);
    MulComm(x, ONE);
  }

  lemma MulZero(x: Byte)
    ensures Mul(ZERO, x) == ZERO && Mul(x, ZERO) == ZERO
  {
    PeasantZero(Bits(x));
    MulComm(x, ZERO);
  }

  lemma MulXorLeft(a: Byte, b: Byte, y: Byte)
    ensures Mul(Xor(a, b), y) == Xor(Mul(a, y), Mul(b, y))
  {
    PeasantXor(a, b, Bits(y));
  }

  lemma MulXorRight(x: Byte, a: Byte, b: Byte)
    ensures Mul(x, Xor(a, b)) == Xor(Mul(x, a), Mul(x, b))
  {
    MulComm(x, Xor(a, b));
    MulXorLeft(a, b, x);
    MulComm(x, a);
    MulComm(x, b);
  }

  lemma MulDouble(x: Byte, y: Byte)
    ensures Mul(x, Double(y)) == Double(Mul(x, y))
  {
    MulComm(x, Double(y));
    PeasantDouble(y, Bits(x));
    MulComm(x, y);
  }

  lemma {:induction false} PeasantAssoc(x: Byte, y: Byte, bits: seq<bool>)
    ensures Peasant(Mul(x, y), bits) == Mul(x, Peasant(y, bits))
  {
    if bits == [] {
      MulZero(x);
    } else {
      var p, t := bits[..|bits| - 1], bits[|bits| - 1];
      PeasantAssoc(x, y, p);
      MulDouble(x, Peasant(y, p));
      MulXorRight(x, Double(Peasant(y, p)), Scale(t, y));
      MulZero(x);
    }
  }

  lemma MulAssoc(x: Byte, y: Byte, z: Byte)
    ensures Mul(Mul(x, y), z) == Mul(x, Mul(y, z))
  {
    PeasantAssoc(x, y, Bits(z));
  }

  // ---------- field laws ----------

  /** Squaring written out on bits. */
  function Squared(x: Byte): Byte {
    Byte(x.b6, (x.b3 != x.b5) != x.b6, x.b5, (x.b2 != x.b4) != (x.b5 != x.b7),
         x.b4 != x.b6, (x.b1 != x.b4) != (x.b5 != x.b6), x.b7, (x.b0 != x.b4) != (x.b6 != x.b7))
  }

  lemma SquareXor(a: Byte, b: Byte)
    ensures Squared(Xor(a, b)) == Xor(Squared(a), Squared(b))
  {}

  lemma SquareDouble(x: Byte)
    ensures Squared(Double(x)) == Double(Double(Squared(x)))
  {}

  /** Squaring is additive: the cross terms cancel. */
  lemma MulSelfXor(a: Byte, b: Byte)
    ensures Mul(Xor(a, b), Xor(a, b)) == Xor(Mul(a, a), Mul(b, b))
  {
    MulXorLeft(a, b, Xor(a, b));
    MulXorRight(a, a, b);
    MulXorRight(b, a, b);
    MulComm(a, b);
    var p, q, c := Mul(a, a), Mul(b, b), Mul(a, b);
    XorComm(c, q);
    XorSwap(p, c, q, c);
    XorZero(c);
    XorZero(Xor(p, q));
  }

  lemma {:induction false} SquareOfPack(bits: seq<bool>)
    requires |bits| <= 8
    ensures Squared(Pack(bits)) == Mul(Pack(bits), Pack(bits))
  {
    if bits == [] {
      MulZero(ZERO);
    } else {
      var p, t := Pack(bits[..|bits| - 1]), Scale(bits[|bits| - 1], ONE);
      SquareOfPack(bits[..|bits| - 1]);
      PackStep(bits);
      SquareXor(Double(p), t);
      MulSelfXor(Double(p), t);
      SquareDouble(p);
      MulDouble(Double(p), p);
      PeasantDouble(p, Bits(p));
      MulOne(ONE);
      MulZero(ZERO);
    }
  }

  lemma SquareIsMul(x: Byte)
    ensures Squared(x) == Mul(x, x)
  {
    SquareOfPack(Bits(x));
    PackBits(x);
  }

  lemma SquareFixed(e: Byte)
    requires Squared(e) == e
    ensures e == ZERO || e == ONE
  {}

  lemma SquareOrder(x: Byte)
    ensures Squared(Squared(Squared(Squared(Squared(Squared(Squared(Squared(x)))))))) == x
  {}

  function Pow(x: Byte, n: nat): Byte {
    if n == 0 then ONE else Mul(Pow(x, n - 1), x)
  }

  lemma {:induction false} PowAdd(x: Byte, m: nat, n: nat)
    ensures Pow(x, m + n) == Mul(Pow(x, m), Pow(x, n))
  {
    hide Mul;
    if n == 0 {
      MulOne(Pow(x, m));
    } else {
      PowAdd(x, m, n - 1);
      MulAssoc(Pow(x, m), Pow(x, n - 1), x);
    }
  }

  lemma PowTwice(x: Byte, m: nat, n: nat)
    requires n == m + m
    ensures Pow(x, n) == Squared(Pow(x, m))
  {
    PowAdd(x, m, m);
    SquareIsMul(Pow(x, m));
  }

  /** Eight squarings are the identity, so x^256 = x. */
  lemma PowField(x: Byte, n: nat)
    requires n == 256
    ensures Pow(x, n) == x
  {
    hide Mul, Squared;
    var n0: nat, n1: nat, n2: nat, n3: nat, n4: nat := n / 256, n / 128, n / 64, n / 32, n / 16;
    var n5: nat, n6: nat, n7: nat := n / 8, n / 4, n / 2;
    assert Pow(x, n0) == x by { MulOne(x); assert Pow(x, n0 - 1) == ONE; }
    PowTwice(x, n0, n1);
    PowTwice(x, n1, n2);
    PowTwice(x, n2, n3);
    PowTwice(x, n3, n4);
    PowTwice(x, n4, n5);
    PowTwice(x, n5, n6);
    PowTwice(x, n6, n7);
    PowTwice(x, n7, n);
    SquareOrder(x);
  }

  /** The order of every unit divides n = 255: x^255 is idempotent, hence 0 or 1. */
  lemma PowUnit(x: Byte, n: nat)
    requires x != ZERO && n == 255
    ensures Pow(x, n) == ONE
  {
    var e := Pow(x, n);
    PowField(x, n + 1);
    assert x == Mul(e, x);
    PowAdd(x, n, n);
    PowAdd(x, n - 1, n + 1);
    assert n - 1 + (n + 1) == n + n;
    SquareIsMul(e);
    SquareFixed(e);
    MulZero(x);
  }

  lemma NoZeroDivisors(x: Byte, y: Byte)
    requires Mul(x, y) == ZERO
    ensures x == ZERO || y == ZERO
  {
    if x != ZERO {
      var n: nat :| n == 255;
      PowUnit(x, n);
      MulAssoc(Pow(x, n - 1), x, y);
      MulZero(Pow(x, n - 1));
      MulOne(y);
    }
  }

  // ---------- the powers of 2 ----------

  lemma MulTwo(x: Byte)
    ensures Mul(x, TWO) == Double(x)
  {
    MulDouble(x, ONE);
    MulOne(x);
  }

  lemma PowNext(x: Byte, m: nat, n: nat)
    requires n == m + m + 1
    ensures Pow(x, n) == Mul(Squared(Pow(x, m)), x)
  {
    PowTwice(x, m, n - 1);
  }

  /** 2^15, 2^51 and 2^85, the powers to the maximal proper divisors of 255, are not 1. */
  lemma PowTwoMaximal(n: nat)
    requires n == 15 || n == 51 || n == 85
    ensures Pow(TWO, n) != ONE
  {
    hide Mul;
    var one: nat := n / n;
    assert Pow(TWO, one) == TWO by { MulOne(TWO); assert Pow(TWO, one - 1) == ONE; }
    hide Pow;
    if n == 15 {
      PowNext(TWO, one, n / 4);
      PowNext(TWO, n / 4, n / 2);
      PowNext(TWO, n / 2, n);
      MulTwo(Squared(Pow(TWO, one)));
      MulTwo(Squared(Pow(TWO, n / 4)));
      MulTwo(Squared(Pow(TWO, n / 2)));
    } else if n == 51 {
      PowNext(TWO, one, n / 16);
      PowTwice(TWO, n / 16, n / 8);
      PowTwice(TWO, n / 8, n / 4);
      PowNext(TWO, n / 4, n / 2);
      PowNext(TWO, n / 2, n);
      MulTwo(Squared(Pow(TWO, one)));
      MulTwo(Squared(Pow(TWO, n / 4)));
      MulTwo(Squared(Pow(TWO, n / 2)));
    } else {
      PowTwice(TWO, one, n / 32);
      PowNext(TWO, n / 32, n / 16);
      PowTwice(TWO, n / 16, n / 8);
      PowNext(TWO, n / 8, n / 4);
      PowTwice(TWO, n / 4, n / 2);
      PowNext(TWO, n / 2, n);
      MulTwo(Squared(Pow(TWO, n / 32)));
      MulTwo(Squared(Pow(TWO, n / 8)));
      MulTwo(Squared(Pow(TWO, n / 2)));
    }
  }

  lemma {:induction false} PowMultiple(x: Byte, m: nat, q: nat)
    requires Pow(x, m) == ONE
    ensures Pow(x, m * q) == ONE
  {
    hide Mul;
    if q > 0 {
      PowMultiple(x, m, q - 1);
      assert m * q == m * (q - 1) + m;
      PowAdd(x, m * (q - 1), m);
      MulOne(ONE);
    } else {
      assert m * q == 0;
    }
  }

  /** The order of 2 is 255: it is a generator of the multiplicative group. */
  lemma {:induction false} PowTwoOrder(m: nat)
    requires 0 < m < 255
    ensures Pow(TWO, m) != ONE
  {
    hide Mul, Pow;
    if Pow(TWO, m) == ONE {
      var n: nat :| n == 255;
      var q, r := n / m, n % m;
      assert n == m * q + r;
      PowUnit(TWO, n);
      PowMultiple(TWO, m, q);
      PowAdd(TWO, m * q, r);
      MulOne(Pow(TWO, r));
      if r > 0 {
        PowTwoOrder(r);
      } else {
        ProperDivisor(m, q);
        var d: nat :| (d == 15 || d == 51 || d == 85) && d % m == 0;
        PowMultiple(TWO, m, d / m);
        assert m * (d / m) == d;
        PowTwoMaximal(d);
      }
    }
  }

  lemma ProperDivisor(m: nat, q: nat)
    requires 0 < m < 255 && m * q == 255
    ensures exists d: nat :: (d == 15 || d == 51 || d == 85) && d % m == 0
  {
    if m <= 15 {
      assert m == 1 || m == 3 || m == 5 || m == 15 by { SmallDivisor(m, q); }
      assert 15 % m == 0;
    } else {
      assert 16 * q <= m * q;
      assert m * (q - 1) == 255 - m;
      assert q == 1 || q == 3 || q == 5 || q == 15 by { SmallDivisor(q, m); }
      if q == 3 {
        assert m == 85 && 85 % m == 0;
      } else if q == 5 {
        assert m == 51 && 51 % m == 0;
      } else {
        assert m == 17 && 51 % m == 0;
      }
    }
  }

  lemma SmallDivisor(m: nat, q: nat)
    requires 0 < m <= 15 && m * q == 255
    ensures m == 1 || m == 3 || m == 5 || m == 15
  {
    assert m != 2 && m != 4 && m != 6 && m != 7 && m != 8 && m != 9;
    assert m != 10 && m != 11 && m != 12 && m != 13 && m != 14;
  }

  /** Multiplication by a non-zero element can be undone. */
  lemma MulCancel(x: Byte, a: Byte, b: Byte)
    requires x != ZERO && Mul(x, a) == Mul(x, b)
    ensures a == b
  {
    hide Mul;
    MulXorRight(x, a, b);
    XorZero(Mul(x, a));
    NoZeroDivisors(x, Xor(a, b));
    XorEqual(a, b);
  }

  lemma {:induction false} PowNonZero(x: Byte, n: nat)
    requires x != ZERO
    ensures Pow(x, n) != ZERO
  {
    hide Mul;
    if n > 0 {
      PowNonZero(x, n - 1);
      if Pow(x, n) == ZERO {
        NoZeroDivisors(Pow(x, n - 1), x);
      }
    }
  }

  lemma PowTwoDistinct(i: nat, j: nat)
    requires i < j < 255
    ensures Pow(TWO, i) != Pow(TWO, j)
  {
    hide Mul, Pow;
    if Pow(TWO, i) == Pow(TWO, j) {
      PowAdd(TWO, i, j - i);
      MulOne(Pow(TWO, i));
      PowNonZero(TWO, i);
      MulCancel(Pow(TWO, i), ONE, Pow(TWO, j - i));
      PowTwoOrder(j - i);
    }
  }
}
