/** Big-endian bit fields and the buffer that collects them. */
module BitStream {
  import opened Basics

  function Pow2(n: nat): (r: nat)
    ensures r > 0
  {
    if n == 0 then 1 else 2 * Pow2(n - 1)
  }

  /** The len low-order bits of v, most significant first. */
  function ToBits(v: nat, len: nat): (bits: seq<bool>)
    ensures |bits| == len
  {
    if len == 0 then [] else ToBits(v / 2, len - 1) + [v % 2 == 1]
  }

  /** The number that a bit field denotes. */
  function FromBits(bits: seq<bool>): nat {
    if bits == [] then 0
    else 2 * FromBits(bits[..|bits| - 1]) + (if bits[|bits| - 1] then 1 else 0)
  }

  lemma {:induction false} FromToBits(v: nat, len: nat)
    requires v < Pow2(len)
    ensures FromBits(ToBits(v, len)) == v
  {
    if len > 0 {
      FromToBits(v / 2, len - 1);
      assert ToBits(v, len)[..len - 1] == ToBits(v / 2, len - 1);
    }
  }

  lemma {:induction false} ToFromBits(bits: seq<bool>)
    ensures FromBits(bits) < Pow2(|bits|)
    ensures ToBits(FromBits(bits), |bits|) == bits
  {
    if bits != [] {
      var n := |bits| - 1;
      ToFromBits(bits[..n]);
      assert FromBits(bits) / 2 == FromBits(bits[..n]);
      assert bits == bits[..n] + [bits[n]];
    }
  }

  lemma {:induction false} ZeroBits(n: nat)
    ensures ToBits(0, n) == Falses(n) && 0 < Pow2(n)
  {
    if n > 0 {
      ZeroBits(n - 1);
      assert Falses(n) == Falses(n - 1) + [false];
    }
  }

  /** Places count from the right: what stands in front weighs by the length of what follows. */
  lemma {:induction false} FromBitsConcat(a: seq<bool>, b: seq<bool>)
    ensures FromBits(a + b) == FromBits(a) * Pow2(|b|) + FromBits(b)
  {
    if b == [] {
      assert a + b == a;
    } else {
      var n := |b| - 1;
      FromBitsConcat(a, b[..n]);
      assert (a + b)[..|a| + n] == a + b[..n];
      assert FromBits(a) * Pow2(|b|) == 2 * (FromBits(a) * Pow2(n));
    }
  }

  lemma NoBits(bits: seq<bool>)
    ensures FromBits(bits[..0]) == 0
  {}

  lemma FromBitsNext(bits: seq<bool>, n: nat)
    requires n < |bits|
    ensures FromBits(bits[..n + 1]) == 2 * FromBits(bits[..n]) + if bits[n] then 1 else 0
  {
    assert bits[..n + 1][..n] == bits[..n];
  }

  /** v >> i. */
  function ShiftRight(v: nat, i: nat): nat {
    if i == 0 then v else ShiftRight(v / 2, i - 1)
  }

  lemma {:induction false} ShiftRightNext(v: nat, i: nat)
    ensures ShiftRight(v, i + 1) == ShiftRight(v, i) / 2
  {
    if i > 0 {
      ShiftRightNext(v / 2, i - 1);
    }
  }

  /** Shifting out every bit leaves zero exactly when the value fits. */
  lemma {:induction false} ShiftRightZero(v: nat, n: nat)
    ensures ShiftRight(v, n) == 0 <==> v < Pow2(n)
  {
    if n > 0 {
      ShiftRightZero(v / 2, n - 1);
    }
  }

  const UINT32 := 0x1_0000_0000

  class BitBuffer {
    var bits: seq<bool>

    constructor ()
      ensures bits == []
    {
      bits := [];
    }

    /** Appends the len low-order bits of val; refuses a value that does not fit. */
    method AppendBits(val: nat, len: int) returns (ok: bool)
      requires val < UINT32
      modifies this
      ensures ok == (0 <= len <= 31 && val < Pow2(len))
      ensures bits == if ok then old(bits) + ToBits(val, len) else old(bits)
    {
      if 0 <= len {
        ShiftRightZero(val, len);
      }
      if len < 0 || len > 31 || ShiftRight(val, len) != 0 {
        return false;
      }
      var i := len - 1;
      while i >= 0
        invariant -1 <= i < len
        invariant bits == old(bits) + ToBits(ShiftRight(val, i + 1), len - 1 - i)
      {
        ShiftRightNext(val, i);
        bits := bits + [ShiftRight(val, i) % 2 == 1];
        i := i - 1;
      }
      ok := true;
    }
  }
}
