/** Polynomials over GF(2^8) as coefficient sequences, highest power first.  Leading zeros are
    allowed, so sums are taken between sequences of equal length. */
module Polynomial {
  import opened GaloisField

  type Poly = seq<Byte>

  function Zeros(n: nat): (r: Poly)
    ensures |r| == n && forall i | 0 <= i < n :: r[i] == ZERO
  {
    seq(n, _ => ZERO)
  }

  function Add(p: Poly, q: Poly): (r: Poly)
    requires |p| == |q|
    ensures |r| == |p| && forall i | 0 <= i < |p| :: r[i] == Xor(p[i], q[i])
  {
    seq(|p|, i requires 0 <= i < |p| => Xor(p[i], q[i]))
  }

  function Times(p: Poly, c: Byte): (r: Poly)
    ensures |r| == |p| && forall i | 0 <= i < |p| :: r[i] == Mul(p[i], c)
  {
    seq(|p|, i requires 0 <= i < |p| => Mul(p[i], c))
  }

  /** The product, by the schoolbook method: one shifted multiple of q for each coefficient of p. */
  function Product(p: Poly, q: Poly): (r: Poly)
    requires |q| > 0
    ensures |r| == |p| + |q| - 1
  {
    if p == [] then Zeros(|q| - 1)
    else Add(Product(p[..|p| - 1], q) + [ZERO], Zeros(|p| - 1) + Times(q, p[|p| - 1]))
  }

  /** The value at x, by Horner's rule. */
  function Eval(p: Poly, x: Byte): Byte {
    if p == [] then ZERO
    else Xor(Mul(Eval(p[..|p| - 1], x), x), p[|p| - 1])
  }

  // ---------- evaluation is a ring homomorphism ----------

  lemma {:induction false} EvalAdd(p: Poly, q: Poly, x: Byte)
    requires |p| == |q|
    ensures Eval(Add(p, q), x) == Xor(Eval(p, x), Eval(q, x))
  {
    hide Xor, Mul, Add, Times, Zeros;
    if p == [] {
      XorZero(ZERO);
    } else {
      var p', q', n := p[..|p| - 1], q[..|q| - 1], |p| - 1;
      EvalAdd(p', q', x);
      assert Add(p, q)[..n] == Add(p', q');
      MulXorLeft(Eval(p', x), Eval(q', x), x);
      XorSwap(Mul(Eval(p', x), x), Mul(Eval(q', x), x), p[n], q[n]);
    }
  }

  lemma {:induction false} EvalTimes(p: Poly, c: Byte, x: Byte)
    ensures Eval(Times(p, c), x) == Mul(Eval(p, x), c)
  {
    hide Xor, Mul, Add, Times, Zeros;
    if p == [] {
      MulZero(c);
    } else {
      var p', n := p[..|p| - 1], |p| - 1;
      EvalTimes(p', c, x);
      assert Times(p, c)[..n] == Times(p', c);
      var e := Eval(p', x);
      MulXorLeft(Mul(e, x), p[n], c);
      MulAssoc(e, x, c);
      MulComm(x, c);
      MulAssoc(e, c, x);
    }
  }

  lemma {:induction false} EvalLeadingZeros(n: nat, p: Poly, x: Byte)
    ensures Eval(Zeros(n) + p, x) == Eval(p, x)
  {
    hide Xor, Mul, Add, Times, Zeros;
    if p != [] {
      EvalLeadingZeros(n, p[..|p| - 1], x);
      assert (Zeros(n) + p)[..n + |p| - 1] == Zeros(n) + p[..|p| - 1];
    } else if n > 0 {
      EvalLeadingZeros(n - 1, [], x);
      assert (Zeros(n) + p)[..n - 1] == Zeros(n - 1) + p;
      MulZero(x);
      XorZero(ZERO);
    } else {
      assert Zeros(n) + p == [];
    }
  }

  lemma {:induction false} EvalProduct(p: Poly, q: Poly, x: Byte)
    requires |q| > 0
    ensures Eval(Product(p, q), x) == Mul(Eval(p, x), Eval(q, x))
  {
    hide Xor, Mul, Add, Times, Zeros;
    if p == [] {
      EvalLeadingZeros(|q| - 1, [], x);
      assert Zeros(|q| - 1) + [] == Zeros(|q| - 1);
      MulZero(Eval(q, x));
    } else {
      var p', c := p[..|p| - 1], p[|p| - 1];
      EvalProduct(p', q, x);
      var a, b := Product(p', q) + [ZERO], Zeros(|p'|) + Times(q, c);
      EvalAdd(a, b, x);
      assert a[..|a| - 1] == Product(p', q);
      XorZero(Mul(Eval(Product(p', q), x), x));
      EvalLeadingZeros(|p'|, Times(q, c), x);
      EvalTimes(q, c, x);
      var e, f := Eval(p', x), Eval(q, x);
      MulAssoc(e, f, x);
      MulComm(f, x);
      MulAssoc(e, x, f);
      MulComm(f, c);
      MulXorLeft(Mul(e, x), c, f);
    }
  }

  // ---------- division by a monic polynomial ----------

  /** The coefficient that the last factor adds. */
  lemma ProductAt(p: Poly, q: Poly, k: nat)
    requires |p| > 0 && |q| > 0 && k < |p| + |q| - 1
    ensures Product(p, q)[k] == Xor(if k < |p| + |q| - 2 then Product(p[..|p| - 1], q)[k] else ZERO,
                                    if k < |p| - 1 then ZERO else Mul(q[k + 1 - |p|], p[|p| - 1]))
  {
    hide Xor, Mul, Add, Times, Zeros;
    var p', c := p[..|p| - 1], p[|p| - 1];
    var a, b := Product(p', q) + [ZERO], Zeros(|p'|) + Times(q, c);
    ProductStep(p, q);
    hide Product;
    assert Product(p, q)[k] == Xor(a[k], b[k]);
  }

  lemma ProductStep(p: Poly, q: Poly)
    requires |p| > 0 && |q| > 0
    ensures Product(p, q) == Add(Product(p[..|p| - 1], q) + [ZERO], Zeros(|p| - 1) + Times(q, p[|p| - 1]))
  {}

  /** Coefficient k of a product is settled by the first k + 1 coefficients of the left factor. */
  lemma ProductLead(p: Poly, q: Poly, k: nat)
    requires |p| > 0 && |q| > 0 && k < |p| - 1
    ensures Product(p, q)[k] == Product(p[..|p| - 1], q)[k]
  {
    hide *;
    ProductAt(p, q, k);
    XorZero(Product(p[..|p| - 1], q)[k]);
  }

  /** Long division by a monic polynomial has one answer: the quotient is settled by the leading
      coefficients of the dividend. */
  lemma {:induction false} QuotientUnique(q1: Poly, q2: Poly, g: Poly)
    requires |q1| == |q2| && |g| > 0 && g[0] == ONE
    requires forall k | 0 <= k < |q1| :: Product(q1, g)[k] == Product(q2, g)[k]
    ensures q1 == q2
  {
    hide Xor, Mul, Add, Times, Zeros;
    if q1 != [] {
      var n := |q1| - 1;
      var p1, p2 := q1[..n], q2[..n];
      forall k | 0 <= k < n
        ensures Product(p1, g)[k] == Product(p2, g)[k]
      {
        ProductLead(q1, g, k);
        ProductLead(q2, g, k);
      }
      QuotientUnique(p1, p2, g);
      MulOne(q1[n]);
      MulOne(q2[n]);
      var t := (Product(p1, g) + [ZERO])[n];
      assert Product(q1, g)[n] == Xor(t, q1[n]);
      assert Product(q2, g)[n] == Xor(t, q2[n]);
      XorInjective(t, q1[n], q2[n]);
      assert q1 == p1 + [q1[n]] && q2 == p2 + [q2[n]];
    }
  }

  lemma XorInjective(t: Byte, a: Byte, b: Byte)
    requires Xor(t, a) == Xor(t, b)
    ensures a == b
  {}

  /** q g + r determines q and r when g is monic and r is shorter than g. */
  lemma DivisionUnique(g: Poly, q1: Poly, r1: Poly, q2: Poly, r2: Poly)
    requires |q1| == |q2| && |r1| == |r2| == |g| - 1 && g[0] == ONE
    requires Add(Product(q1, g), Zeros(|q1|) + r1) == Add(Product(q2, g), Zeros(|q2|) + r2)
    ensures q1 == q2 && r1 == r2
  {
    hide Xor, Mul, Product, Add, Zeros;
    var n, p1, p2 := |q1|, Product(q1, g), Product(q2, g);
    var z1, z2 := Zeros(n) + r1, Zeros(n) + r2;
    forall k | 0 <= k < n
      ensures p1[k] == p2[k]
    {
      SumAt(p1, z1, p2, z2, k);
      XorZero(p1[k]);
      XorZero(p2[k]);
    }
    QuotientUnique(q1, q2, g);
    forall k | 0 <= k < |r1|
      ensures r1[k] == r2[k]
    {
      SumAt(p1, z1, p2, z2, n + k);
      XorInjective(p1[n + k], r1[k], r2[k]);
    }
  }

  lemma SumAt(a: Poly, b: Poly, c: Poly, d: Poly, k: nat)
    requires k < |a| == |b| == |c| == |d| && Add(a, b) == Add(c, d)
    ensures Xor(a[k], b[k]) == Xor(c[k], d[k])
  {
    assert Add(a, b)[k] == Add(c, d)[k];
  }

  /** Coefficients of a product by the linear polynomial x + r. */
  lemma ProductLinear(p: Poly, r: Byte, k: nat)
    requires k <= |p|
    ensures Product(p, [ONE, r])[k]
         == Xor(if k < |p| then p[k] else ZERO, if k > 0 then Mul(p[k - 1], r) else ZERO)
  {
    hide Xor, Mul, Add, Times, Zeros;
    var l := [ONE, r];
    if p == [] {
      XorZero(ZERO);
    } else {
      hide Product;
      var n := |p| - 1;
      var p', c := p[..n], p[n];
      ProductAt(p, l, k);
      MulOne(c);
      MulComm(r, c);
      if k <= n {
        ProductLinear(p', r, k);
      }
      if k < n {
        XorZero(Product(p', l)[k]);
      } else if k == n {
        var t := if n > 0 then Mul(p[n - 1], r) else ZERO;
        XorZero(t);
        XorComm(t, c);
      }
    }
  }
}
