/** The Reed-Solomon code of QR symbols: the generator polynomial, the remainder that serves as
    the error correction codewords, and the distance of the resulting code. */
module ReedSolomon {
  import opened Basics
  import opened GaloisField
  import opened Polynomial
  import opened Wrappers

  // ---------- specification ----------

  /** The product of (x - 2^i) for i < degree, leading coefficient included. */
  function Generator(degree: nat): (g: Poly)
    ensures |g| == degree + 1
  {
    if degree == 0 then [ONE]
    else Product(Generator(degree - 1), [ONE, Pow(TWO, degree - 1)])
  }

  /** Coefficient k of p, zero outside its range. */
  function Coefficient(p: Poly, k: int): Byte {
    if 0 <= k < |p| then p[k] else ZERO
  }

  /** One round of the shift register: drop the leading coefficient and subtract the multiple of
      the divisor that it asks for.  The divisor's leading 1 is not stored. */
  function RemainderStep(r: Poly, b: Byte, divisor: Poly): (r': Poly)
    requires |r| == |divisor| > 0
    ensures |r'| == |divisor|
  {
    Add(r[1..] + [ZERO], Times(divisor, Xor(b, r[0])))
  }

  function Remainder(data: Poly, divisor: Poly): (r: Poly)
    requires |divisor| > 0
    ensures |r| == |divisor|
  {
    if data == [] then Zeros(|divisor|)
    else RemainderStep(Remainder(data[..|data| - 1], divisor), data[|data| - 1], divisor)
  }

  /** The factors that the shift register subtracts, in order. */
  function Quotient(data: Poly, divisor: Poly): (q: Poly)
    requires |divisor| > 0
    ensures |q| == |data|
  {
    if data == [] then []
    else
      var data', b := data[..|data| - 1], data[|data| - 1];
      Quotient(data', divisor) + [Xor(b, Remainder(data', divisor)[0])]
  }

  /** The generator without its leading 1, as the encoder stores it. */
  function Divisor(degree: nat): (d: Poly)
    ensures |d| == degree
  {
    Generator(degree)[1..]
  }

  // ---------- the encoder ----------

  /** The buffer of length degree after i rounds: the product of i factors, right aligned.  After
      the last round its leading 1 has dropped off the left end. */
  function Register(degree: nat, i: nat): (s: Poly)
    ensures |s| == degree
    ensures forall k | 0 <= k < degree :: s[k] == Coefficient(Generator(i), k + 1 + i - degree)
  {
    seq(degree, k requires 0 <= k < degree => Coefficient(Generator(i), k + 1 + i - degree))
  }

  /** Entry k of the buffer after a round that multiplies it by x - root. */
  function RoundAt(before: Poly, root: Byte, k: nat): Byte
    requires k < |before|
  {
    if k + 1 < |before| then Xor(Mul(before[k], root), before[k + 1]) else Mul(before[k], root)
  }

  ghost predicate Round(after: Poly, before: Poly, root: Byte) {
    |after| == |before| && forall k | 0 <= k < |after| :: after[k] == RoundAt(before, root, k)
  }

  method ComputeDivisor(degree: int) returns (r: Result<Poly>)
    ensures r == if 1 <= degree <= 255 then Ok(Divisor(degree)) else Fail(DomainError)
  {
    hide Register, Coefficient, Generator, Pow, Mul, Xor, Divisor;
    if degree < 1 || degree > 255 {
      return Fail(DomainError);
    }
    var result := new Byte[degree](_ => ZERO);
    result[degree - 1] := ONE;
    RegisterStart(degree, result[..]);
    var root := ONE;
    for i := 0 to degree
      invariant root == Pow(TWO, i)
      invariant result[..] == Register(degree, i)
    {
      ghost var before := result[..];
      for j := 0 to degree
        invariant forall k | 0 <= k < j :: result[k] == RoundAt(before, root, k)
        invariant forall k | j <= k < degree :: result[k] == before[k]
      {
        var product := ReedSolomonMultiply(result[j], root);
        result[j] := product;
        if j + 1 < degree {
          result[j] := Xor(result[j], result[j + 1]);
        }
      }
      assert Round(result[..], before, root);
      RegisterRound(degree, i, result[..]);
      PowSucc(i);
      root := ReedSolomonMultiply(root, TWO);
    }
    RegisterEnd(degree);
    r := Ok(result[..]);
  }

  lemma PowSucc(i: nat)
    ensures Pow(TWO, i + 1) == Mul(Pow(TWO, i), TWO)
    ensures Pow(TWO, 0) == ONE
  {}

  lemma RegisterStart(degree: nat, s: Poly)
    requires degree == |s| > 0 && s[degree - 1] == ONE && forall k | 0 <= k < degree - 1 :: s[k] == ZERO
    ensures s == Register(degree, 0)
    ensures Pow(TWO, 0) == ONE
  {
    assert Generator(0) == [ONE];
  }

  lemma RegisterEnd(degree: nat)
    ensures Register(degree, degree) == Divisor(degree)
  {}

  lemma RegisterRound(degree: nat, i: nat, s: Poly)
    requires i < degree && Round(s, Register(degree, i), Pow(TWO, i))
    ensures s == Register(degree, i + 1)
  {
    hide Register, Mul, Xor, Pow, Product, Generator, Coefficient;
    forall k | 0 <= k < degree
      ensures s[k] == Register(degree, i + 1)[k]
    {
      GeneratorCoefficient(i, k + 2 + i - degree);
      var b := Register(degree, i);
      assert b[k] == Coefficient(Generator(i), k + 1 + i - degree);
      if k + 1 < degree {
        assert b[k + 1] == Coefficient(Generator(i), k + 2 + i - degree);
      }
    }
  }

  /** Multiplying by x - 2^i, coefficient by coefficient. */
  lemma GeneratorCoefficient(i: nat, k: int)
    requires k <= i + 1
    ensures Coefficient(Generator(i + 1), k)
         == if k <= i then Xor(Mul(Coefficient(Generator(i), k - 1), Pow(TWO, i)), Coefficient(Generator(i), k))
            else Mul(Coefficient(Generator(i), k - 1), Pow(TWO, i))
  {
    hide Mul, Xor, Pow, Product;
    var g, r := Generator(i), Pow(TWO, i);
    assert Generator(i + 1) == Product(g, [ONE, r]);
    MulZero(r);
    if k < 0 {
      XorZero(ZERO);
    } else {
      ProductLinear(g, r, k);
      var t := Mul(Coefficient(g, k - 1), r);
      XorZero(t);
      XorComm(t, Coefficient(g, k));
    }
  }

  /** An empty divisor leaves nothing to shift: the result is empty too, or the access to its first element throws. */
  method ComputeRemainder(data: Poly, divisor: Poly) returns (r: Result<Poly>)
    ensures divisor == [] ==> r == if data == [] then Ok([]) else Fail(OutOfRange)
    ensures divisor != [] ==> r == Ok(Remainder(data, divisor))
  {
    hide Xor, Mul, Add, Times, Zeros;
    var result := Zeros(|divisor|);
    if divisor == [] {
      return if data == [] then Ok(result) else Fail(OutOfRange);
    }
    for n := 0 to |data|
      invariant result == Remainder(data[..n], divisor)
    {
      ghost var before := result;
      var factor := Xor(data[n], result[0]);
      result := result[1..] + [ZERO];
      ghost var shifted := result;
      for i := 0 to |result|
        invariant |result| == |divisor| == |shifted|
        invariant forall k | 0 <= k < i :: result[k] == Xor(shifted[k], Mul(divisor[k], factor))
        invariant forall k | i <= k < |result| :: result[k] == shifted[k]
      {
        var product := ReedSolomonMultiply(divisor[i], factor);
        result := result[i := Xor(result[i], product)];
      }
      assert result == RemainderStep(before, data[n], divisor);
      assert data[..n + 1][..n] == data[..n];
    }
    assert data[..|data|] == data;
    r := Ok(result);
  }

  // ---------- the shift register divides ----------

  lemma XorTwice(a: Byte, b: Byte)
    ensures Xor(a, Xor(b, a)) == b && Xor(Xor(b, a), a) == b
  {}

  /** Data followed by its remainder is the quotient times the monic divisor. */
  lemma {:induction false} CodewordMultiple(data: Poly, divisor: Poly)
    requires |divisor| > 0
    ensures data + Remainder(data, divisor) == Product(Quotient(data, divisor), [ONE] + divisor)
  {
    hide Xor, Mul, Product, Remainder, Quotient, Add, Times, Zeros, RemainderStep;
    if data == [] {
      EmptyCodeword(data, divisor);
    } else {
      var n := |data| - 1;
      var data', b := data[..n], data[n];
      CodewordMultiple(data', divisor);
      RemainderNext(data, divisor);
      QuotientNext(data, divisor);
      CodewordNext(data', b, Remainder(data', divisor), divisor, Quotient(data', divisor));
      assert data == data' + [b];
    }
  }

  lemma EmptyCodeword(data: Poly, divisor: Poly)
    requires |divisor| > 0 && data == []
    ensures data + Remainder(data, divisor) == Product(Quotient(data, divisor), [ONE] + divisor)
  {
    assert data + Remainder(data, divisor) == Zeros(|divisor|);
  }

  lemma QuotientNext(data: Poly, divisor: Poly)
    requires |divisor| > 0 && data != []
    ensures var less := data[..|data| - 1];
      Quotient(data, divisor) == Quotient(less, divisor) + [Xor(data[|data| - 1], Remainder(less, divisor)[0])]
  {}

  /** One more round of the register keeps the codeword a multiple of the divisor. */
  lemma CodewordNext(data: Poly, b: Byte, r: Poly, divisor: Poly, q: Poly)
    requires |r| == |divisor| > 0 && |q| == |data|
    requires data + r == Product(q, [ONE] + divisor)
    ensures data + [b] + RemainderStep(r, b, divisor) == Product(q + [Xor(b, r[0])], [ONE] + divisor)
  {
    hide Xor, Product, RemainderStep;
    forall k | 0 <= k < |data| + 1 + |divisor|
      ensures (data + [b] + RemainderStep(r, b, divisor))[k] == Product(q + [Xor(b, r[0])], [ONE] + divisor)[k]
    {
      CodewordAt(data, b, r, divisor, q, k);
    }
  }

  /** One coefficient after one more round of the register. */
  lemma CodewordAt(data: Poly, b: Byte, r: Poly, divisor: Poly, q: Poly, k: nat)
    requires |r| == |divisor| > 0 && |q| == |data| && k <= |data| + |divisor|
    requires data + r == Product(q, [ONE] + divisor)
    ensures (data + [b] + RemainderStep(r, b, divisor))[k] == Product(q + [Xor(b, r[0])], [ONE] + divisor)[k]
  {
    hide Xor, Mul, Product, Add, Times, Zeros;
    var n, d, g, f := |data|, |divisor|, [ONE] + divisor, Xor(b, r[0]);
    var q1 := q + [f];
    assert q1[..n] == q;
    ProductAt(q1, g, k);
    if k < n {
      XorZero(Product(q, g)[k]);
      assert Product(q, g)[k] == (data + r)[k];
    } else if k == n {
      assert Product(q, g)[k] == (data + r)[n] == r[0];
      MulOne(f);
      XorTwice(r[0], b);
    } else {
      var j := k - n - 1;
      assert g[k - n] == divisor[j];
      if j < d - 1 {
        assert Product(q, g)[k] == (data + r)[k] == r[j + 1];
      }
    }
  }

  /** Schoolbook division: data(x) x^d = q(x) g(x) + r(x), where g is x^d plus the stored divisor. */
  lemma DivisionIdentity(data: Poly, divisor: Poly)
    requires |divisor| > 0
    ensures data + Zeros(|divisor|)
         == Add(Product(Quotient(data, divisor), [ONE] + divisor), Zeros(|data|) + Remainder(data, divisor))
  {
    hide Xor, Mul, Product, Remainder, Quotient, Add, Zeros;
    CodewordMultiple(data, divisor);
    SubtractTail(data, Remainder(data, divisor));
  }

  lemma SubtractTail(data: Poly, r: Poly)
    ensures data + Zeros(|r|) == Add(data + r, Zeros(|data|) + r)
  {
    hide Xor, Add, Zeros;
    var n := |data|;
    forall k | 0 <= k < n + |r|
      ensures (data + Zeros(|r|))[k] == Xor((data + r)[k], (Zeros(n) + r)[k])
    {
      if k < n { XorZero(data[k]); } else { XorZero(r[k - n]); }
    }
  }

  lemma {:induction false} LeadingZeros(m: nat, data: Poly, divisor: Poly)
    requires |divisor| > 0
    ensures Remainder(Zeros(m) + data, divisor) == Remainder(data, divisor)
    decreases m + |data|
  {
    hide Xor, Mul, Add, Times, Zeros, RemainderStep, Remainder;
    var w := Zeros(m) + data;
    if data != [] {
      assert w[..|w| - 1] == Zeros(m) + data[..|data| - 1];
      LeadingZeros(m, data[..|data| - 1], divisor);
      RemainderNext(data, divisor);
      RemainderNext(w, divisor);
    } else if m > 0 {
      assert w[..|w| - 1] == Zeros(m - 1) + data;
      LeadingZeros(m - 1, data, divisor);
      RemainderNext(w, divisor);
      NoRemainder(data, divisor);
      ZeroStep(divisor);
    } else {
      assert w == data;
    }
  }

  lemma RemainderNext(data: Poly, divisor: Poly)
    requires |divisor| > 0 && data != []
    ensures Remainder(data, divisor) == RemainderStep(Remainder(data[..|data| - 1], divisor), data[|data| - 1], divisor)
  {}

  lemma NoRemainder(data: Poly, divisor: Poly)
    requires |divisor| > 0 && data == []
    ensures Remainder(data, divisor) == Zeros(|divisor|)
  {}

  lemma ZeroStep(divisor: Poly)
    requires |divisor| > 0
    ensures RemainderStep(Zeros(|divisor|), ZERO, divisor) == Zeros(|divisor|)
  {
    hide Xor, Mul, Add, Times, Zeros;
    var r := Zeros(|divisor|);
    XorZero(ZERO);
    forall k | 0 <= k < |divisor|
      ensures RemainderStep(r, ZERO, divisor)[k] == r[k]
    {
      MulZero(divisor[k]);
    }
  }

  /** The remainder is the only one: whatever the length of the quotient offered, a remainder of
      degree below d that completes data(x) x^d is the one computed. */
  lemma RemainderUnique(data: Poly, divisor: Poly, m: nat, q: Poly, r: Poly)
    requires |divisor| > 0 && |q| == m + |data| && |r| == |divisor|
    requires Zeros(m) + data + Zeros(|divisor|) == Add(Product(q, [ONE] + divisor), Zeros(|q|) + r)
    ensures r == Remainder(data, divisor)
  {
    hide Xor, Mul, Product, Remainder, Quotient, Add, Zeros;
    var w := Zeros(m) + data;
    DivisionIdentity(w, divisor);
    DivisionUnique([ONE] + divisor, q, r, Quotient(w, divisor), Remainder(w, divisor));
    LeadingZeros(m, data, divisor);
  }

  // ---------- roots of the codewords ----------

  lemma {:induction false} GeneratorMonic(degree: nat)
    ensures Generator(degree)[0] == ONE
  {
    hide Mul, Pow, Xor, Product;
    if degree > 0 {
      GeneratorMonic(degree - 1);
      ProductLinear(Generator(degree - 1), Pow(TWO, degree - 1), 0);
      XorZero(ONE);
    }
  }

  lemma EvalLinear(r: Byte)
    ensures Eval([ONE, r], r) == ZERO
  {
    hide Mul, Xor;
    assert [ONE, r][..1] == [ONE] && [ONE][..0] == [];
    assert Eval([], r) == ZERO;
    MulZero(r);
    XorZero(ONE);
    assert Eval([ONE], r) == ONE;
    MulOne(r);
    XorZero(r);
  }

  lemma {:induction false} GeneratorRoots(degree: nat, i: nat)
    requires i < degree
    ensures Eval(Generator(degree), Pow(TWO, i)) == ZERO
  {
    hide Mul, Eval, Product, Pow, Xor;
    var g, l := Generator(degree - 1), [ONE, Pow(TWO, degree - 1)];
    assert Generator(degree) == Product(g, l);
    var x := Pow(TWO, i);
    EvalProduct(g, l, x);
    if i < degree - 1 {
      GeneratorRoots(degree - 1, i);
    } else {
      EvalLinear(x);
    }
    MulZero(Eval(l, x));
    MulZero(Eval(g, x));
  }

  /** Every codeword that the encoder forms vanishes at 2^0, ..., 2^(degree - 1). */
  lemma CodewordRoots(data: Poly, degree: nat, i: nat)
    requires i < degree
    ensures Eval(data + Remainder(data, Divisor(degree)), Pow(TWO, i)) == ZERO
  {
    var g, q, x := Generator(degree), Quotient(data, Divisor(degree)), Pow(TWO, i);
    GeneratorMonic(degree);
    assert [ONE] + Divisor(degree) == g;
    CodewordMultiple(data, Divisor(degree));
    hide Mul, Eval, Product, Remainder, Quotient, Generator, Divisor;
    EvalProduct(q, g, x);
    GeneratorRoots(degree, i);
    MulZero(Eval(q, x));
  }

  // ---------- distance ----------

  /** Sum of c[k] x[k]^j. */
  function PowerSum(c: seq<Byte>, x: seq<Byte>, j: nat): Byte
    requires |c| == |x|
  {
    if c == [] then ZERO
    else Xor(PowerSum(c[..|c| - 1], x[..|c| - 1], j), Mul(c[|c| - 1], Pow(x[|c| - 1], j)))
  }

  /** The powers 2^(n-1), ..., 2, 1 that mark the positions of a word. */
  function Locators(n: nat): (x: seq<Byte>)
    ensures |x| == n && forall k | 0 <= k < n :: x[k] == Pow(TWO, n - 1 - k)
  {
    seq(n, k requires 0 <= k < n => Pow(TWO, n - 1 - k))
  }

  ghost function Support(c: seq<Byte>): set<int> {
    set k | 0 <= k < |c| && c[k] != ZERO
  }

  ghost function Differences(a: seq<Byte>, b: seq<Byte>): set<int>
    requires |a| == |b|
  {
    set k | 0 <= k < |a| && a[k] != b[k]
  }

  lemma {:induction false} PowOfProduct(x: Byte, y: Byte, n: nat)
    ensures Pow(Mul(x, y), n) == Mul(Pow(x, n), Pow(y, n))
  {
    hide Mul;
    if n == 0 {
      MulOne(ONE);
    } else {
      PowOfProduct(x, y, n - 1);
      var a, b := Pow(x, n - 1), Pow(y, n - 1);
      MulAssoc(a, b, Mul(x, y));
      MulComm(b, Mul(x, y));
      MulAssoc(x, y, b);
      MulAssoc(a, x, Mul(y, b));
      MulComm(y, b);
    }
  }

  lemma {:induction false} PowOne(n: nat)
    ensures Pow(ONE, n) == ONE
  {
    hide Mul;
    if n > 0 {
      PowOne(n - 1);
      MulOne(ONE);
    }
  }

  lemma {:induction false} PowerSumScale(c: seq<Byte>, x: seq<Byte>, y: seq<Byte>, r: Byte, j: nat)
    requires |c| == |x| == |y| && forall k | 0 <= k < |c| :: y[k] == Mul(x[k], r)
    ensures PowerSum(c, y, j) == Mul(PowerSum(c, x, j), Pow(r, j))
  {
    hide Mul, Xor, Pow;
    if c == [] {
      MulZero(Pow(r, j));
    } else {
      var n := |c| - 1;
      PowerSumScale(c[..n], x[..n], y[..n], r, j);
      PowOfProduct(x[n], r, j);
      MulAssoc(c[n], Pow(x[n], j), Pow(r, j));
      MulXorLeft(PowerSum(c[..n], x[..n], j), Mul(c[n], Pow(x[n], j)), Pow(r, j));
    }
  }

  /** The value of a word at 2^j is a power sum of its coefficients over the position locators. */
  lemma {:induction false} EvalIsPowerSum(c: seq<Byte>, j: nat)
    ensures Eval(c, Pow(TWO, j)) == PowerSum(c, Locators(|c|), j)
  {
    hide Mul, Xor;
    if c != [] {
      var n := |c| - 1;
      var x, y := Locators(n), Locators(n + 1)[..n];
      EvalIsPowerSum(c[..n], j);
      forall k | 0 <= k < n
        ensures y[k] == Mul(x[k], TWO)
      {
        assert y[k] == Pow(TWO, n - k) && x[k] == Pow(TWO, n - 1 - k);
      }
      PowerSumScale(c[..n], x, y, TWO, j);
      assert Locators(n + 1)[n] == Pow(TWO, 0) == ONE;
      PowOne(j);
      MulOne(c[n]);
    }
  }

  lemma EliminateTerm(c: Byte, x: Byte, t: Byte, p: Byte)
    ensures Mul(Mul(c, Xor(x, t)), p) == Xor(Mul(c, Mul(p, x)), Mul(Mul(c, p), t))
  {
    hide Mul, Xor;
    MulXorRight(c, x, t);
    MulXorLeft(Mul(c, x), Mul(c, t), p);
    MulAssoc(c, x, p);
    MulComm(x, p);
    MulAssoc(c, t, p);
    MulComm(t, p);
    MulAssoc(c, p, t);
  }

  /** Coefficients of the word with the locator t cancelled. */
  function Eliminate(c: seq<Byte>, x: seq<Byte>, t: Byte): (r: seq<Byte>)
    requires |c| == |x|
    ensures |r| == |c| && forall k | 0 <= k < |c| :: r[k] == Mul(c[k], Xor(x[k], t))
  {
    seq(|c|, k requires 0 <= k < |c| => Mul(c[k], Xor(x[k], t)))
  }

  lemma {:induction false} PowerSumEliminate(c: seq<Byte>, x: seq<Byte>, t: Byte, j: nat)
    requires |c| == |x|
    ensures PowerSum(Eliminate(c, x, t), x, j) == Xor(PowerSum(c, x, j + 1), Mul(PowerSum(c, x, j), t))
  {
    hide Mul, Xor, Eliminate;
    if c == [] {
      MulZero(t);
      XorZero(ZERO);
    } else {
      var n := |c| - 1;
      var c', x', p := c[..n], x[..n], Pow(x[n], j);
      PowerSumEliminate(c', x', t, j);
      assert Eliminate(c, x, t)[..n] == Eliminate(c', x', t);
      EliminateTerm(c[n], x[n], t, p);
      assert Pow(x[n], j + 1) == Mul(p, x[n]);
      var a1, a0, b1, b0 := PowerSum(c', x', j + 1), PowerSum(c', x', j), Mul(c[n], Mul(p, x[n])), Mul(c[n], p);
      MulXorLeft(a0, b0, t);
      XorSwap(a1, Mul(a0, t), b1, Mul(b0, t));
    }
  }

  lemma {:induction false} PowerSumSingle(c: seq<Byte>, x: seq<Byte>, t: int)
    requires |c| == |x| && (forall k | 0 <= k < |c| && k != t :: c[k] == ZERO)
    ensures PowerSum(c, x, 0) == if 0 <= t < |c| then c[t] else ZERO
  {
    hide Mul, Xor;
    if c != [] {
      var n := |c| - 1;
      PowerSumSingle(c[..n], x[..n], t);
      MulOne(c[n]);
      assert Pow(x[n], 0) == ONE;
      XorZero(c[n]);
      XorZero(PowerSum(c[..n], x[..n], 0));
    }
  }

  /** The Vandermonde argument: with distinct locators, d vanishing power sums leave no room for
      between 1 and d non-zero coefficients. */
  lemma {:induction false} VanishingPowerSums(c: seq<Byte>, x: seq<Byte>, d: nat)
    requires |c| == |x| && |Support(c)| <= d
    requires forall i, j | 0 <= i < j < |x| :: x[i] != x[j]
    requires forall j: nat | j < d :: PowerSum(c, x, j) == ZERO
    ensures Support(c) == {}
    decreases d
  {
    hide Mul, Xor, PowerSum, Pow, Eliminate;
    if Support(c) != {} {
      var t :| t in Support(c);
      var e := Eliminate(c, x, x[t]);
      XorZero(x[t]);
      MulZero(c[t]);
      assert t !in Support(e);
      forall k | k in Support(e)
        ensures k in Support(c)
      {
        MulZero(Xor(x[k], x[t]));
      }
      assert Support(e) <= Support(c) - {t};
      SubsetSize(Support(e), Support(c) - {t});
      forall j: nat | j < d - 1
        ensures PowerSum(e, x, j) == ZERO
      {
        PowerSumEliminate(c, x, x[t], j);
        MulZero(x[t]);
        XorZero(ZERO);
      }
      VanishingPowerSums(e, x, d - 1);
      forall k | 0 <= k < |c| && k != t
        ensures c[k] == ZERO
      {
        assert k !in Support(e);
        NoZeroDivisors(c[k], Xor(x[k], x[t]));
        if Xor(x[k], x[t]) == ZERO {
          XorEqual(x[k], x[t]);
        }
      }
      PowerSumSingle(c, x, t);
    }
  }

  /** A word of at most 255 symbols that vanishes at 2^0, ..., 2^(degree - 1). */
  ghost predicate IsCodeword(w: seq<Byte>, degree: nat) {
    |w| <= 255 && forall i: nat | i < degree :: Eval(w, Pow(TWO, i)) == ZERO
  }

  /** The code has the greatest possible distance: two different codewords differ in more than
      degree places. */
  lemma MinimumDistance(a: seq<Byte>, b: seq<Byte>, degree: nat)
    requires |a| == |b| && IsCodeword(a, degree) && IsCodeword(b, degree) && a != b
    ensures |Differences(a, b)| > degree
  {
    hide Mul, Xor, PowerSum, Pow, Eval, Add;
    var c, x := Add(a, b), Locators(|a|);
    forall k | 0 <= k < |a|
      ensures k in Support(c) <==> k in Differences(a, b)
    {
      XorZero(a[k]);
      if Xor(a[k], b[k]) == ZERO { XorEqual(a[k], b[k]); }
    }
    assert Support(c) == Differences(a, b);
    var k :| 0 <= k < |a| && a[k] != b[k];
    assert k in Differences(a, b);
    if |Support(c)| <= degree {
      forall j: nat | j < degree
        ensures PowerSum(c, x, j) == ZERO
      {
        EvalAdd(a, b, Pow(TWO, j));
        XorZero(ZERO);
        EvalIsPowerSum(c, j);
      }
      forall i, j | 0 <= i < j < |x|
        ensures x[i] != x[j]
      {
        PowTwoDistinct(|a| - 1 - j, |a| - 1 - i);
      }
      VanishingPowerSums(c, x, degree);
    }
  }

  /** Errors in up to half of degree places can be corrected: at most one codeword is that near. */
  lemma UniqueDecoding(received: seq<Byte>, a: seq<Byte>, b: seq<Byte>, degree: nat)
    requires |received| == |a| == |b| && IsCodeword(a, degree) && IsCodeword(b, degree)
    requires 2 * |Differences(received, a)| <= degree && 2 * |Differences(received, b)| <= degree
    ensures a == b
  {
    var da, db := Differences(received, a), Differences(received, b);
    SubsetSize(Differences(a, b), da + db);
    assert |da + db| + |da * db| == |da| + |db|;
    if a != b {
      MinimumDistance(a, b, degree);
    }
  }

  /** The remainder gives the only check symbols that complete the data to a codeword. */
  lemma CheckSymbolsUnique(data: Poly, ecc: Poly, degree: nat)
    requires 0 < degree == |ecc| && |data| + degree <= 255
    ensures IsCodeword(data + ecc, degree) <==> ecc == Remainder(data, Divisor(degree))
  {
    hide Remainder, Divisor, Eval, Pow;
    var w, v := data + Remainder(data, Divisor(degree)), data + ecc;
    forall i: nat | i < degree
      ensures Eval(w, Pow(TWO, i)) == ZERO
    {
      CodewordRoots(data, degree, i);
    }
    if IsCodeword(v, degree) && v != w {
      MinimumDistance(v, w, degree);
      SubsetSize(Differences(v, w), Interval(|data|, |w|));
    }
    assert v[|data|..] == ecc && w[|data|..] == Remainder(data, Divisor(degree));
  }

  ghost function Interval(lo: nat, hi: nat): (s: set<int>)
    requires lo <= hi
    ensures |s| == hi - lo && forall k :: k in s <==> lo <= k < hi
    decreases hi
  {
    if lo == hi then {} else Interval(lo, hi - 1) + {hi - 1}
  }
}
