/** Products of polynomials over GF(2), coefficient by coefficient, and what they say of the arithmetic that reduces as
    it goes: multiplication of bytes, and the check bits of format and version words. */
module CarryLess {
  import opened Basics
  import opened BitStream
  import opened GaloisField
  import opened Patterns
  import opened Tables

  /** Parity of the products a[i] b[k - i] for i < n. */
  function Convolution(a: seq<bool>, b: seq<bool>, k: nat, n: nat): bool
    requires n <= |a|
  {
    if n == 0 then false
    else Convolution(a, b, k, n - 1) != (a[n - 1] && 0 <= k - (n - 1) < |b| && b[k - (n - 1)])
  }

  /** The product of two polynomials given by their coefficients, highest first. */
  function ClMul(a: seq<bool>, b: seq<bool>): (r: seq<bool>)
    requires |b| > 0
    ensures |r| == |a| + |b| - 1 && forall k | 0 <= k < |r| :: r[k] == Convolution(a, b, k, |a|)
  {
    seq(|a| + |b| - 1, k requires 0 <= k < |a| + |b| - 1 => Convolution(a, b, k, |a|))
  }

  /** x^8 + x^4 + x^3 + x^2 + 1, that is, 0x11D. */
  const FIELD := [true, false, false, false, true, true, true, false, true]

  // ---------- one more coefficient ----------

  function Scaled(c: bool, b: seq<bool>): (r: seq<bool>)
    ensures |r| == |b| && forall i | 0 <= i < |b| :: r[i] == (c && b[i])
  {
    if c then b else Falses(|b|)
  }

  lemma {:induction false} ConvolutionPrefix(a: seq<bool>, c: bool, b: seq<bool>, k: nat, n: nat)
    requires n <= |a|
    ensures Convolution(a + [c], b, k, n) == Convolution(a, b, k, n)
  {
    if n > 0 {
      ConvolutionPrefix(a, c, b, k, n - 1);
    }
  }

  lemma {:induction false} ConvolutionBeyond(a: seq<bool>, b: seq<bool>, k: nat, n: nat)
    requires n <= |a| && k + 1 >= n + |b|
    ensures !Convolution(a, b, k, n)
  {
    if n > 0 {
      ConvolutionBeyond(a, b, k, n - 1);
    }
  }

  /** Appending a coefficient shifts the product and adds a multiple. */
  lemma ClMulNext(a: seq<bool>, c: bool, b: seq<bool>)
    requires |b| > 0
    ensures ClMul(a + [c], b) == XorBits(ClMul(a, b) + [false], Falses(|a|) + Scaled(c, b))
  {
    hide ClMul, XorBits, Scaled, Falses;
    var l, r := ClMul(a + [c], b), XorBits(ClMul(a, b) + [false], Falses(|a|) + Scaled(c, b));
    forall k | 0 <= k < |a| + |b|
      ensures l[k] == r[k]
    {
      ConvolutionPrefix(a, c, b, k, |a|);
      assert Convolution(a + [c], b, k, |a| + 1) ==
             (Convolution(a, b, k, |a|) != (c && 0 <= k - |a| < |b| && b[k - |a|]));
      if k == |a| + |b| - 1 {
        ConvolutionBeyond(a, b, k, |a|);
      }
    }
  }

  lemma ClMulNone(b: seq<bool>)
    requires |b| > 0
    ensures ClMul([], b) == Falses(|b| - 1)
  {}

  lemma {:induction false} ConvolutionLeading(a: seq<bool>, b: seq<bool>, k: nat, n: nat)
    requires n <= |a|
    ensures Convolution([false] + a, b, k + 1, n + 1) == Convolution(a, b, k, n)
  {
    if n == 0 {
      assert Convolution([false] + a, b, k + 1, 0) == false;
    } else {
      ConvolutionLeading(a, b, k, n - 1);
    }
  }

  /** A leading zero stays a leading zero. */
  lemma ClMulLeading(a: seq<bool>, b: seq<bool>)
    requires |b| > 0
    ensures ClMul([false] + a, b) == [false] + ClMul(a, b)
  {
    hide ClMul;
    var l, r := ClMul([false] + a, b), [false] + ClMul(a, b);
    forall k | 0 <= k < |a| + |b|
      ensures l[k] == r[k]
    {
      if k == 0 {
        LeadingZero(a, b, |a| + 1);
      } else {
        ConvolutionLeading(a, b, k - 1, |a|);
      }
    }
  }

  lemma {:induction false} LeadingZero(a: seq<bool>, b: seq<bool>, n: nat)
    requires n <= |a| + 1
    ensures !Convolution([false] + a, b, 0, n)
  {
    if n > 0 {
      LeadingZero(a, b, n - 1);
    }
  }

  // ---------- multiplication of bytes ----------

  lemma BitsAt(z: Byte)
    ensures |Bits(z)| == 8
    ensures Bits(z)[0] == z.b7 && Bits(z)[1] == z.b6 && Bits(z)[2] == z.b5 && Bits(z)[3] == z.b4
    ensures Bits(z)[4] == z.b3 && Bits(z)[5] == z.b2 && Bits(z)[6] == z.b1 && Bits(z)[7] == z.b0
  {}

  lemma BitsLength(z: Byte)
    ensures |Bits(z)| == 8
  {}

  lemma XorFields(a: Byte, b: Byte)
    ensures var x := Xor(a, b);
      && x.b7 == (a.b7 != b.b7) && x.b6 == (a.b6 != b.b6) && x.b5 == (a.b5 != b.b5) && x.b4 == (a.b4 != b.b4)
      && x.b3 == (a.b3 != b.b3) && x.b2 == (a.b2 != b.b2) && x.b1 == (a.b1 != b.b1) && x.b0 == (a.b0 != b.b0)
  {}

  lemma XorBit(a: Byte, b: Byte, k: nat)
    requires k < 8
    ensures |Bits(a)| == |Bits(b)| == |Bits(Xor(a, b))| == 8
    ensures Bits(Xor(a, b))[k] == (Bits(a)[k] != Bits(b)[k])
  {
    hide Bits, Xor;
    XorFields(a, b);
    BitsAt(a);
    BitsAt(b);
    BitsAt(Xor(a, b));
    assert k == 0 || k == 1 || k == 2 || k == 3 || k == 4 || k == 5 || k == 6 || k == 7;
  }

  lemma ScaleBit(c: bool, x: Byte, k: nat)
    requires k < 8
    ensures Bits(Scale(c, x))[k] == (c && Bits(x)[k])
  {
    if !c {
      EightBits();
    }
  }

  lemma XorOfBytes(a: Byte, c: bool, x: Byte)
    ensures Bits(Xor(a, Scale(c, x))) == XorBits(Bits(a), Scaled(c, Bits(x)))
  {
    hide Xor, Scale, Bits, XorBits, Scaled;
    BitsAt(a);
    BitsAt(x);
    BitsAt(Xor(a, Scale(c, x)));
    forall k | 0 <= k < 8
      ensures Bits(Xor(a, Scale(c, x)))[k] == (Bits(a)[k] != Scaled(c, Bits(x))[k])
    {
      BitsAt(Scale(c, x));
      XorBit(a, Scale(c, x), k);
      ScaleBit(c, x, k);
    }
  }

  lemma DoubleBit(z: Byte, k: nat)
    requires k < 9
    ensures |Bits(z)| == |Bits(Double(z))| == 8
    ensures (Bits(z) + [false])[k] == ((z.b7 && FIELD[k]) != ([false] + Bits(Double(z)))[k])
  {
    hide Bits;
    BitsAt(z);
    BitsAt(Double(z));
  }

  /** Doubling a byte subtracts the field polynomial if the byte shifted has nine bits. */
  lemma DoubleReduces(z: Byte)
    ensures Bits(z) + [false] == XorBits(Scaled(z.b7, FIELD), [false] + Bits(Double(z)))
  {
    hide Double, Bits, XorBits, Scaled;
    BitsAt(z);
    BitsAt(Double(z));
    forall k | 0 <= k < 9
      ensures (Bits(z) + [false])[k] == (Scaled(z.b7, FIELD)[k] != ([false] + Bits(Double(z)))[k])
    {
      DoubleBit(z, k);
    }
  }

  /** One step of a division that goes along with a multiplication: if p is congruent to r modulo m, then p shifted plus
      add is congruent to r shifted and reduced, plus add. */
  lemma DivisionStep(p: seq<bool>, q: seq<bool>, m: seq<bool>, r: seq<bool>, top: bool, low: seq<bool>,
                     add: seq<bool>)
    requires |m| > 1 && |r| == |low| == |add| == |m| - 1 && |p| == |q| + |m| - 1
    requires p == XorBits(ClMul(q, m), Falses(|q|) + r)
    requires r + [false] == XorBits(Scaled(top, m), [false] + low)
    ensures XorBits(p + [false], Falses(|q| + 1) + add) ==
            XorBits(ClMul(q + [top], m), Falses(|q| + 1) + XorBits(low, add))
  {
    hide ClMul, XorBits, Scaled, Falses;
    ClMulNext(q, top, m);
    var n := |q|;
    var product := ClMul(q, m);
    var l := XorBits(p + [false], Falses(n + 1) + add);
    var h := XorBits(ClMul(q + [top], m), Falses(n + 1) + XorBits(low, add));
    forall k | 0 <= k < n + |m|
      ensures l[k] == h[k]
    {
      assert ClMul(q + [top], m)[k] == ((product + [false])[k] != (Falses(n) + Scaled(top, m))[k]);
      if k >= n {
        assert (r + [false])[k - n] == (Scaled(top, m)[k - n] != ([false] + low)[k - n]);
      }
    }
  }

  /** The quotient that Horner's rule leaves behind. */
  ghost function Carries(x: Byte, bits: seq<bool>): (q: seq<bool>)
    ensures |q| == |bits|
  {
    if bits == [] then []
    else Carries(x, bits[..|bits| - 1]) + [Peasant(x, bits[..|bits| - 1]).b7]
  }

  lemma {:induction false} PeasantReduces(x: Byte, bits: seq<bool>)
    ensures [false] + ClMul(bits, Bits(x)) ==
            XorBits(ClMul(Carries(x, bits), FIELD), Falses(|bits|) + Bits(Peasant(x, bits)))
  {
    hide ClMul, XorBits, Scaled, Falses, Double, Xor, Scale, Bits;
    if bits == [] {
      BitsLength(x);
      ClMulNone(FIELD);
      ClMulNone(Bits(x));
      EightBits();
      PeasantNone(x);
      assert [false] + Falses(7) == Falses(8);
      assert XorBits(Falses(8), Falses(0) + Falses(8)) == Falses(8);
    } else {
      var n := |bits| - 1;
      var less, c := bits[..n], bits[n];
      var z, q := Peasant(x, less), Carries(x, less);
      PeasantReduces(x, less);
      BitsLength(x);
      BitsLength(z);
      BitsLength(Double(z));
      DoubleReduces(z);
      XorOfBytes(Double(z), c, x);
      var p := [false] + ClMul(less, Bits(x));
      DivisionStep(p, q, FIELD, Bits(z), z.b7, Bits(Double(z)), Scaled(c, Bits(x)));
      ClMulNext(less, c, Bits(x));
      assert bits == less + [c];
      ShiftedSum(ClMul(less, Bits(x)), n, Scaled(c, Bits(x)));
    }
  }

  lemma ShiftedSum(a: seq<bool>, n: nat, b: seq<bool>)
    requires |a| + 1 == n + |b|
    ensures XorBits([false] + a + [false], Falses(n + 1) + b) == [false] + XorBits(a + [false], Falses(n) + b)
  {}

  lemma EightBits()
    ensures Bits(ZERO) == Falses(8)
  {}

  /** The product of two bytes is what remains of their polynomial product modulo x^8 + x^4 + x^3 + x^2 + 1. */
  lemma MulReduces(x: Byte, y: Byte) returns (q: seq<bool>)
    ensures |q| == 7
    ensures |Bits(x)| == |Bits(y)| == |Bits(Mul(x, y))| == 8
    ensures ClMul(Bits(x), Bits(y)) == XorBits(ClMul(q, FIELD), Falses(7) + Bits(Mul(x, y)))
  {
    hide ClMul, XorBits, Falses, Peasant;
    BitsLength(x);
    BitsLength(y);
    BitsLength(Mul(x, y));
    MulComm(x, y);
    PeasantReduces(y, Bits(x));
    var c := Carries(y, Bits(x));
    q := c[1..];
    FirstCarry(y, Bits(x));
    assert c == [false] + q;
    ClMulLeading(q, FIELD);
    DropLeading(ClMul(Bits(x), Bits(y)), ClMul(q, FIELD), Falses(7) + Bits(Mul(x, y)));
    assert Falses(8) == [false] + Falses(7);
    assert Falses(8) + Bits(Mul(x, y)) == [false] + (Falses(7) + Bits(Mul(x, y)));
  }

  lemma {:induction false} FirstCarry(x: Byte, bits: seq<bool>)
    requires bits != []
    ensures !Carries(x, bits)[0]
  {
    if |bits| > 1 {
      FirstCarry(x, bits[..|bits| - 1]);
    } else {
      assert bits[..0] == [];
    }
  }

  lemma DropLeading(a: seq<bool>, b: seq<bool>, c: seq<bool>)
    requires |a| == |b| == |c|
    ensures [false] + a == XorBits([false] + b, [false] + c) ==> a == XorBits(b, c)
  {
    if [false] + a == XorBits([false] + b, [false] + c) {
      forall k | 0 <= k < |a|
        ensures a[k] == XorBits(b, c)[k]
      {
        assert ([false] + a)[k + 1] == a[k];
      }
    }
  }

  /** In particular x^8 is 0x1D. */
  lemma EighthPower(x7: Byte)
    requires x7 == Byte(true, false, false, false, false, false, false, false)
    ensures Mul(x7, TWO) == Byte(false, false, false, true, true, true, false, true)
  {
    MulTwo(x7);
  }

  // ---------- check bits of format and version words ----------

  /** One step of the register subtracts the generator if the bit shifted out is set. */
  lemma BchReduces(rem: seq<bool>, poly: seq<bool>)
    requires |rem| == |poly| > 0
    ensures rem + [false] == XorBits(Scaled(rem[0], [true] + poly), [false] + BchStep(rem, poly))
  {
    hide XorBits, Scaled;
    var l, r := rem + [false], XorBits(Scaled(rem[0], [true] + poly), [false] + BchStep(rem, poly));
    forall k | 0 <= k < |l|
      ensures l[k] == r[k]
    {
      if k > 0 {
        assert BchStep(rem, poly)[k - 1] == (l[k] != (rem[0] && poly[k - 1]));
      }
    }
  }

  ghost function Tops(rem: seq<bool>, poly: seq<bool>, n: nat): (q: seq<bool>)
    requires |rem| == |poly| > 0
    ensures |q| == n
  {
    if n == 0 then [] else Tops(rem, poly, n - 1) + [Bch(rem, poly, n - 1)[0]]
  }

  /** After n steps the register holds the remainder of its first contents times x^n. */
  lemma {:induction false} BchDivides(rem: seq<bool>, poly: seq<bool>, n: nat)
    requires |rem| == |poly| > 0
    ensures rem + Falses(n) == XorBits(ClMul(Tops(rem, poly, n), [true] + poly), Falses(n) + Bch(rem, poly, n))
  {
    hide ClMul, XorBits, Scaled, Falses, BchStep;
    var m, w := [true] + poly, |poly|;
    if n == 0 {
      ClMulNone(m);
      assert rem + Falses(0) == rem && Falses(0) + Bch(rem, poly, 0) == rem;
      assert XorBits(Falses(w), rem) == rem;
    } else {
      BchDivides(rem, poly, n - 1);
      var r := Bch(rem, poly, n - 1);
      var low := BchStep(r, poly);
      BchReduces(r, poly);
      var p := rem + Falses(n - 1);
      DivisionStep(p, Tops(rem, poly, n - 1), m, r, r[0], low, Falses(w));
      assert p + [false] == rem + Falses(n);
      assert XorBits(rem + Falses(n), Falses(n) + Falses(w)) == rem + Falses(n);
      assert XorBits(low, Falses(w)) == low;
    }
  }

  /** Data followed by its check bits, as the code computes them, is a multiple of the generator. */
  lemma BchCodeword(zeros: nat, data: seq<bool>, poly: seq<bool>, n: nat) returns (q: seq<bool>)
    requires zeros + |data| == |poly| == n && n > 0
    ensures |q| == n
    ensures Falses(zeros) + data + Bch(Falses(zeros) + data, poly, n) == ClMul(q, [true] + poly)
  {
    hide ClMul, XorBits, Falses, Bch;
    var rem := Falses(zeros) + data;
    var check := Bch(rem, poly, n);
    BchDivides(rem, poly, n);
    q := Tops(rem, poly, n);
    var product := ClMul(q, [true] + poly);
    forall k | 0 <= k < 2 * n
      ensures (rem + check)[k] == product[k]
    {
      assert (rem + Falses(n))[k] == (product[k] != (Falses(n) + check)[k]);
    }
  }

  /** x^10 + x^8 + x^5 + x^4 + x^2 + x + 1, that is, 0x537. */
  const FORMAT_CODE := [true, false, true, false, false, true, true, false, true, true, true]

  /** The pattern that format words are masked with, 0x5412. */
  const FORMAT_MASK :=
    [true, false, true, false, true, false, false, false, false, false, true, false, false, true, false]

  /** x^12 + x^11 + x^10 + x^9 + x^8 + x^5 + x^2 + 1, that is, 0x1F25. */
  const VERSION_CODE := [true, true, true, true, true, false, false, true, false, false, true, false, true]

  /** Level and mask as they stand in front of a format word. */
  function FormatData(ecl: Ecc, mask: nat): seq<bool> {
    (match ecl
     case Low => [false, true]
     case Medium => [false, false]
     case Quartile => [true, true]
     case High => [true, false])
    + [mask / 4 % 2 == 1, mask / 2 % 2 == 1, mask % 2 == 1]
  }

  lemma FormatMaskBits()
    ensures ToBits(0x5412, 15) == FORMAT_MASK
  {
    hide ToBits, FromBits;
    ValueFormatMaskBits();
    ToFromBits(FORMAT_MASK);
  }

  lemma ValueFormatMaskBits()
    ensures FromBits(FORMAT_MASK) == 0x5412
  {
    hide FromBits;
    NoBits(FORMAT_MASK);
    FromBitsNext(FORMAT_MASK, 0);
    FromBitsNext(FORMAT_MASK, 1);
    FromBitsNext(FORMAT_MASK, 2);
    FromBitsNext(FORMAT_MASK, 3);
    FromBitsNext(FORMAT_MASK, 4);
    FromBitsNext(FORMAT_MASK, 5);
    FromBitsNext(FORMAT_MASK, 6);
    FromBitsNext(FORMAT_MASK, 7);
    FromBitsNext(FORMAT_MASK, 8);
    FromBitsNext(FORMAT_MASK, 9);
    FromBitsNext(FORMAT_MASK, 10);
    FromBitsNext(FORMAT_MASK, 11);
    FromBitsNext(FORMAT_MASK, 12);
    FromBitsNext(FORMAT_MASK, 13);
    FromBitsNext(FORMAT_MASK, 14);
    assert FORMAT_MASK[..15] == FORMAT_MASK;
  }

  lemma FormatCodeBits()
    ensures ToBits(0x537, 11) == FORMAT_CODE
  {
    hide ToBits, FromBits;
    ValueFormatCodeBits();
    ToFromBits(FORMAT_CODE);
  }

  lemma ValueFormatCodeBits()
    ensures FromBits(FORMAT_CODE) == 0x537
  {
    hide FromBits;
    NoBits(FORMAT_CODE);
    FromBitsNext(FORMAT_CODE, 0);
    FromBitsNext(FORMAT_CODE, 1);
    FromBitsNext(FORMAT_CODE, 2);
    FromBitsNext(FORMAT_CODE, 3);
    FromBitsNext(FORMAT_CODE, 4);
    FromBitsNext(FORMAT_CODE, 5);
    FromBitsNext(FORMAT_CODE, 6);
    FromBitsNext(FORMAT_CODE, 7);
    FromBitsNext(FORMAT_CODE, 8);
    FromBitsNext(FORMAT_CODE, 9);
    FromBitsNext(FORMAT_CODE, 10);
    assert FORMAT_CODE[..11] == FORMAT_CODE;
  }

  lemma VersionCodeBits()
    ensures ToBits(0x1F25, 13) == VERSION_CODE
  {
    hide ToBits, FromBits;
    ValueVersionCodeBits();
    ToFromBits(VERSION_CODE);
  }

  lemma ValueVersionCodeBits()
    ensures FromBits(VERSION_CODE) == 0x1F25
  {
    hide FromBits;
    NoBits(VERSION_CODE);
    FromBitsNext(VERSION_CODE, 0);
    FromBitsNext(VERSION_CODE, 1);
    FromBitsNext(VERSION_CODE, 2);
    FromBitsNext(VERSION_CODE, 3);
    FromBitsNext(VERSION_CODE, 4);
    FromBitsNext(VERSION_CODE, 5);
    FromBitsNext(VERSION_CODE, 6);
    FromBitsNext(VERSION_CODE, 7);
    FromBitsNext(VERSION_CODE, 8);
    FromBitsNext(VERSION_CODE, 9);
    FromBitsNext(VERSION_CODE, 10);
    FromBitsNext(VERSION_CODE, 11);
    FromBitsNext(VERSION_CODE, 12);
    assert VERSION_CODE[..13] == VERSION_CODE;
  }

  /** Without its leading one a generator has the value less the leading power. */
  lemma {:induction false} LowBits(v: nat, n: nat)
    requires v < Pow2(n)
    ensures ToBits(Pow2(n) + v, n + 1) == [true] + ToBits(v, n)
  {
    if n > 0 {
      LowBits(v / 2, n - 1);
    }
  }

  lemma FormatConstants()
    ensures [true] + ToBits(0x137, 10) == FORMAT_CODE && ToBits(0x5412, 15) == FORMAT_MASK && ToBits(0, 5) == Falses(5)
  {
    hide ToBits;
    FormatCodeBits();
    FormatMaskBits();
    ZeroBits(5);
    assert Pow2(10) == 1024;
    LowBits(0x137, 10);
  }

  lemma VersionConstants()
    ensures [true] + ToBits(0xF25, 12) == VERSION_CODE && ToBits(0, 6) == Falses(6)
  {
    hide ToBits;
    VersionCodeBits();
    ZeroBits(6);
    assert Pow2(12) == 4096;
    LowBits(0xF25, 12);
  }

  lemma FormatDataBits(ecl: Ecc, mask: nat)
    requires mask < 8
    ensures ToBits(ecl.FormatBits() * 8 + mask, 5) == FormatData(ecl, mask)
  {
    hide ToBits, FromBits;
    var d := FormatData(ecl, mask);
    NoBits(d);
    FromBitsNext(d, 0);
    FromBitsNext(d, 1);
    FromBitsNext(d, 2);
    FromBitsNext(d, 3);
    FromBitsNext(d, 4);
    assert d[..5] == d;
    ToFromBits(d);
  }

  /** A format word, unmasked, begins with level and mask and is a multiple of 0x537: the codeword of the standard's
      (15, 5) code, of which there is only one for each level and mask. */
  lemma FormatWordCode(ecl: Ecc, mask: nat) returns (q: seq<bool>)
    requires mask < 8
    ensures var word := XorBits(FormatWord(ecl, mask), FORMAT_MASK);
      |q| == 10 && word[..5] == FormatData(ecl, mask) && Falses(5) + word == ClMul(q, FORMAT_CODE)
  {
    hide ClMul, XorBits, Falses, Bch, ToBits;
    FormatConstants();
    FormatDataBits(ecl, mask);
    var data := FormatData(ecl, mask);
    var check := Bch(Falses(5) + data, ToBits(0x137, 10), 10);
    q := BchCodeword(5, data, ToBits(0x137, 10), 10);
    var word := XorBits(FormatWord(ecl, mask), FORMAT_MASK);
    assert word == data + check;
    assert Falses(5) + data + check == Falses(5) + word;
  }

  /** A version word begins with the version and is a multiple of 0x1F25. */
  lemma VersionWordCode(version: nat) returns (q: seq<bool>)
    requires version < 64
    ensures |q| == 12 && VersionWord(version)[..6] == ToBits(version, 6)
    ensures Falses(6) + VersionWord(version) == ClMul(q, VERSION_CODE)
  {
    hide ClMul, XorBits, Falses, Bch, ToBits;
    VersionConstants();
    var data := ToBits(version, 6);
    var check := Bch(Falses(6) + data, ToBits(0xF25, 12), 12);
    q := BchCodeword(6, data, ToBits(0xF25, 12), 12);
    assert Falses(6) + data + check == Falses(6) + VersionWord(version);
  }
}
