/** From segments to data codewords: the bit stream of a symbol, its terminator and padding, and
    the reader that recovers the contents of the segments. */
module DataStream {
  import opened Basics
  import opened BitStream
  import opened GaloisField
  import opened Segments
  import opened Wrappers

  // ---------- concatenation ----------

  function SegmentBits(s: Segment, version: nat): seq<bool>
    requires 1 <= version <= 40
  {
    ToBits(s.mode.ModeBits(), 4) + ToBits(s.numChars, s.mode.CharCountBits(version)) + s.data
  }

  function Stream(segs: seq<Segment>, version: nat): seq<bool>
    requires 1 <= version <= 40
  {
    if segs == [] then [] else SegmentBits(segs[0], version) + Stream(segs[1..], version)
  }

  /** Every character count fits its field. */
  predicate CountsFit(segs: seq<Segment>, version: nat)
    requires 1 <= version <= 40
  {
    forall i | 0 <= i < |segs| :: segs[i].numChars < Pow2(segs[i].mode.CharCountBits(version))
  }

  lemma {:induction false} StreamAppend(a: seq<Segment>, b: seq<Segment>, version: nat)
    requires 1 <= version <= 40
    ensures Stream(a + b, version) == Stream(a, version) + Stream(b, version)
  {
    hide SegmentBits, Stream;
    if a == [] {
      assert a + b == b;
      StreamEmpty(a, version);
    } else {
      StreamAppend(a[1..], b, version);
      assert (a + b)[1..] == a[1..] + b && (a + b)[0] == a[0];
      StreamNext(a, version);
      StreamNext(a + b, version);
    }
  }

  lemma StreamNext(segs: seq<Segment>, version: nat)
    requires 1 <= version <= 40 && segs != []
    ensures Stream(segs, version) == SegmentBits(segs[0], version) + Stream(segs[1..], version)
  {}

  lemma StreamEmpty(segs: seq<Segment>, version: nat)
    requires 1 <= version <= 40 && segs == []
    ensures Stream(segs, version) == []
  {}

  lemma StreamPrefix(segs: seq<Segment>, i: nat, version: nat)
    requires 1 <= version <= 40 && i < |segs|
    ensures Stream(segs[..i + 1], version) == Stream(segs[..i], version) + SegmentBits(segs[i], version)
    ensures |Stream(segs[..i + 1], version)| <= |Stream(segs, version)|
  {
    hide SegmentBits;
    StreamAppend(segs[..i], [segs[i]], version);
    assert segs[..i + 1] == segs[..i] + [segs[i]];
    assert Stream([segs[i]], version) == SegmentBits(segs[i], version) by {
      assert Stream([segs[i]][1..], version) == [];
    }
    StreamAppend(segs[..i + 1], segs[i + 1..], version);
    assert segs == segs[..i + 1] + segs[i + 1..];
  }

  /** The length of the stream, or -1 when a count does not fit or the length overflows an int. */
  method GetTotalBits(segs: seq<Segment>, version: nat) returns (result: int)
    requires 1 <= version <= 40
    ensures result == if CountsFit(segs, version) && |Stream(segs, version)| <= INT_MAX
                      then |Stream(segs, version)| else -1
  {
    hide SegmentBits;
    result := 0;
    for i := 0 to |segs|
      invariant CountsFit(segs[..i], version)
      invariant 0 <= result == |Stream(segs[..i], version)| <= INT_MAX
    {
      var seg := segs[i];
      var ccbits := seg.mode.CharCountBits(version);
      StreamPrefix(segs, i, version);
      SegmentLength(seg, version);
      if seg.numChars >= Pow2(ccbits) {
        return -1;
      }
      if 4 + ccbits > INT_MAX - result {
        return -1;
      }
      result := result + 4 + ccbits;
      if |seg.data| > INT_MAX - result {
        return -1;
      }
      result := result + |seg.data|;
      assert segs[..i + 1] == segs[..i] + [seg];
    }
    assert segs[..|segs|] == segs;
  }

  lemma SegmentLength(s: Segment, version: nat)
    requires 1 <= version <= 40
    ensures |SegmentBits(s, version)| == 4 + s.mode.CharCountBits(version) + |s.data|
  {}

  /** Appends every segment to a fresh buffer; no append can be refused. */
  method Concatenate(segs: seq<Segment>, version: nat) returns (bb: BitBuffer)
    requires 1 <= version <= 40 && CountsFit(segs, version)
    ensures fresh(bb) && bb.bits == Stream(segs, version)
  {
    hide Stream, Pow2, ToBits, Mode.CharCountBits, Mode.ModeBits;
    bb := new BitBuffer();
    assert Stream(segs[..0], version) == [] by { StreamEmpty(segs[..0], version); }
    for i := 0 to |segs|
      invariant fresh(bb) && bb.bits == Stream(segs[..i], version)
    {
      var seg := segs[i];
      StreamPrefix(segs, i, version);
      FieldsFit(seg, version);
      ghost var before := bb.bits;
      var ok := bb.AppendBits(seg.mode.ModeBits(), 4);
      assert ok;
      ok := bb.AppendBits(seg.numChars, seg.mode.CharCountBits(version));
      assert ok;
      bb.bits := bb.bits + seg.data;
      assert bb.bits == before + SegmentBits(seg, version);
    }
    assert segs[..|segs|] == segs;
  }

  lemma FieldsFit(s: Segment, version: nat)
    requires 1 <= version <= 40
    ensures s.mode.ModeBits() < 16 == Pow2(4) && Pow2(s.mode.CharCountBits(version)) <= UINT32
  {
    assert Pow2(4) == 16 && Pow2(16) == 65536;
    Pow2Mono(s.mode.CharCountBits(version), 16);
  }

  lemma {:induction false} Pow2Mono(m: nat, n: nat)
    requires m <= n
    ensures Pow2(m) <= Pow2(n)
  {
    if m < n {
      Pow2Mono(m, n - 1);
    }
  }

  // ---------- reading back ----------

  function ModeOf(bits: nat): Option<Mode> {
    if bits == 1 then Some(Numeric)
    else if bits == 2 then Some(Alphanumeric)
    else if bits == 4 then Some(Bytes)
    else if bits == 7 then Some(Eci)
    else if bits == 8 then Some(Kanji)
    else None
  }

  /** Reads segments until the terminator, or until fewer than four bits are left. */
  function Parse(bits: seq<bool>, version: nat): Option<seq<Content>>
    requires 1 <= version <= 40
    decreases |bits|
  {
    if |bits| < 4 || FromBits(bits[..4]) == 0 then Some([])
    else match ModeOf(FromBits(bits[..4]))
      case None => None
      case Some(mode) =>
        var cc := mode.CharCountBits(version);
        if |bits| < 4 + cc then None
        else match ReadPayload(mode, FromBits(bits[4..4 + cc]), bits[4 + cc..])
          case None => None
          case Some((content, rest)) =>
            match Parse(rest, version)
            case None => None
            case Some(contents) => Some([content] + contents)
  }

  /** A terminator: four zero bits, or whatever is left when there is no room for them. */
  predicate Terminated(tail: seq<bool>) {
    |tail| < 4 || (!tail[0] && !tail[1] && !tail[2] && !tail[3])
  }

  /** The contents of factory-made segments are read back from their stream. */
  lemma {:induction false} StreamRoundTrip(cs: seq<Content>, version: nat, tail: seq<bool>)
    requires 1 <= version <= 40 && AllValid(cs) && CountsFit(EncodeAll(cs), version)
    requires Terminated(tail)
    ensures Parse(Stream(EncodeAll(cs), version) + tail, version) == Some(cs)
  {
    hide SegmentBits, ReadPayload, Mode.CharCountBits;
    if cs == [] {
      assert Stream(EncodeAll(cs), version) + tail == tail;
      if |tail| >= 4 {
        assert tail[..4] == ToBits(0, 4);
        FromToBits(0, 4);
      }
    } else {
      var s, rest := Encode(cs[0]), Stream(EncodeAll(cs[1..]), version) + tail;
      assert EncodeAll(cs)[1..] == EncodeAll(cs[1..]) && EncodeAll(cs)[0] == s;
      StreamRoundTrip(cs[1..], version, tail);
      assert Stream(EncodeAll(cs), version) + tail == SegmentBits(s, version) + rest;
      hide Stream, Encode;
      SegmentRoundTrip(cs[0], version, rest);
      assert cs == [cs[0]] + cs[1..];
    }
  }

  lemma SegmentRoundTrip(c: Content, version: nat, rest: seq<bool>)
    requires 1 <= version <= 40 && c.Valid()
    requires Encode(c).numChars < Pow2(Encode(c).mode.CharCountBits(version))
    ensures Parse(SegmentBits(Encode(c), version) + rest, version)
         == match Parse(rest, version) case None => None case Some(cs) => Some([c] + cs)
  {
    hide ToBits, FromBits, Pow2, Encode, ReadPayload, Mode.CharCountBits, Mode.ModeBits, Content.Valid, Parse;
    var s := Encode(c);
    var bits := SegmentBits(s, version) + rest;
    var cc := s.mode.CharCountBits(version);
    FieldsFit(s, version);
    EncodeMode(c);
    PayloadRoundTrip(c, rest);
    FromToBits(s.mode.ModeBits(), 4);
    FromToBits(s.numChars, cc);
    assert bits[..4] == ToBits(s.mode.ModeBits(), 4);
    assert bits[4..4 + cc] == ToBits(s.numChars, cc);
    assert bits[4 + cc..] == s.data + rest;
    ParseNext(bits, version, s.mode, s.numChars, c, rest);
  }

  lemma ParseNext(bits: seq<bool>, version: nat, mode: Mode, count: nat, c: Content, rest: seq<bool>)
    requires 1 <= version <= 40 && |bits| >= 4 + mode.CharCountBits(version)
    requires FromBits(bits[..4]) != 0 && ModeOf(FromBits(bits[..4])) == Some(mode)
    requires count == FromBits(bits[4..4 + mode.CharCountBits(version)])
    requires ReadPayload(mode, count, bits[4 + mode.CharCountBits(version)..]) == Some((c, rest))
    ensures |rest| < |bits|
    ensures Parse(bits, version) == match Parse(rest, version) case None => None case Some(cs) => Some([c] + cs)
  {
    hide FromBits, ReadPayload, Mode.CharCountBits;
  }

  lemma EncodeMode(c: Content)
    requires c.Valid()
    ensures ModeOf(Encode(c).mode.ModeBits()) == Some(Encode(c).mode) && Encode(c).mode.ModeBits() != 0
  {}

  // ---------- terminator and padding ----------

  /** n padding bytes, alternately 0xEC and 0x11. */
  function PadBytes(n: nat, first: nat): (s: seq<bool>)
    ensures |s| == 8 * n
  {
    if n == 0 then [] else ToBits(first, 8) + PadBytes(n - 1, if first == 0xEC then 0x11 else 0xEC)
  }

  function WithTerminator(bits: seq<bool>, capacity: nat): seq<bool>
    requires |bits| <= capacity
  {
    bits + Falses(Min(4, capacity - |bits|))
  }

  /** Bits missing up to the next byte boundary. */
  function Gap(n: nat): (g: nat)
    ensures (n + g) % 8 == 0
  {
    (8 - n % 8) % 8
  }

  lemma GapFits(n: nat, capacity: nat)
    requires n <= capacity && capacity % 8 == 0
    ensures n + Gap(n) <= capacity && (capacity - (n + Gap(n))) % 8 == 0
  {}

  function ToByteBoundary(bits: seq<bool>): (r: seq<bool>)
    ensures |r| == |bits| + Gap(|bits|)
  {
    bits + Falses(Gap(|bits|))
  }

  /** The stream filled up to the symbol's capacity. */
  function Padded(bits: seq<bool>, capacity: nat): (r: seq<bool>)
    requires |bits| <= capacity && capacity % 8 == 0
    ensures |r| == capacity
  {
    var t := ToByteBoundary(WithTerminator(bits, capacity));
    GapFits(|WithTerminator(bits, capacity)|, capacity);
    t + PadBytes((capacity - |t|) / 8, 0xEC)
  }

  /** The stream is kept, and what follows it stops the reader. */
  lemma PaddedTerminates(bits: seq<bool>, capacity: nat)
    requires |bits| <= capacity && capacity % 8 == 0
    ensures exists tail :: Terminated(tail) && Padded(bits, capacity) == bits + tail
  {
    hide PadBytes, Falses, Gap;
    var n := Min(4, capacity - |bits|);
    var t := ToByteBoundary(WithTerminator(bits, capacity));
    GapFits(|bits| + n, capacity);
    var tail := Falses(n) + Falses(Gap(|bits| + n)) + PadBytes((capacity - |t|) / 8, 0xEC);
    assert Padded(bits, capacity) == bits + tail;
    if n < 4 {
      assert |bits| + n == capacity;
    } else {
      assert !tail[0] && !tail[1] && !tail[2] && !tail[3];
    }
    assert Terminated(tail);
  }

  /** The padding bytes 0xEC and 0x11, most significant bit first. */
  const PADDING := [
    true, true, true, false, true, true, false, false, false, false, false, true, false, false, false, true
  ]

  lemma PadByteBits()
    ensures ToBits(0xEC, 8) == PADDING[..8] && ToBits(0x11, 8) == PADDING[8..]
  {
    hide ToBits, FromBits;
    OddByte(PADDING[..8]);
    OddByte(PADDING[8..]);
    ToFromBits(PADDING[..8]);
    ToFromBits(PADDING[8..]);
  }

  lemma OddByte(b: seq<bool>)
    requires |b| == 8
    ensures FromBits(b) == (if b[0] then 128 else 0) + (if b[1] then 64 else 0) + (if b[2] then 32 else 0)
      + (if b[3] then 16 else 0) + (if b[4] then 8 else 0) + (if b[5] then 4 else 0) + (if b[6] then 2 else 0)
      + if b[7] then 1 else 0
  {
    hide FromBits;
    NoBits(b);
    FromBitsNext(b, 0);
    FromBitsNext(b, 1);
    FromBitsNext(b, 2);
    FromBitsNext(b, 3);
    FromBitsNext(b, 4);
    FromBitsNext(b, 5);
    FromBitsNext(b, 6);
    FromBitsNext(b, 7);
    assert b[..8] == b;
  }

  lemma {:induction false} PadBytesAt(n: nat, first: nat, k: nat)
    requires k < 8 * n && (first == 0xEC || first == 0x11)
    ensures PadBytes(n, first)[k] == PADDING[(k + if first == 0xEC then 0 else 8) % 16]
  {
    hide ToBits, PadBytes;
    PadBytesNext(n, first);
    if k >= 8 {
      PadBytesAt(n - 1, if first == 0xEC then 0x11 else 0xEC, k - 8);
      TwoBytes(k);
    } else {
      PadByteBits();
      assert ToBits(first, 8)[k] == PADDING[k + if first == 0xEC then 0 else 8];
    }
  }

  lemma TwoBytes(k: nat)
    requires k >= 8
    ensures (k - 8) % 16 == (k + 8) % 16
  {}

  /** The padded stream bit by bit: after the data at most four zero bits end the message, zeros fill the byte that this
      reaches into, and from there on the two padding bytes alternate. */
  lemma PaddedAt(bits: seq<bool>, capacity: nat, filled: nat, k: nat)
    requires |bits| <= capacity && capacity % 8 == 0 && k < capacity && filled % 8 == 0
    requires var ended := if |bits| + 4 < capacity then |bits| + 4 else capacity; ended <= filled < ended + 8
    ensures Padded(bits, capacity)[k] ==
      if k < |bits| then bits[k] else if k < filled then false else PADDING[(k - filled) % 16]
  {
    hide PadBytes, Gap;
    var n := Min(4, capacity - |bits|);
    BoundaryIs(|bits| + n, filled);
    GapFits(|bits| + n, capacity);
    var t := ToByteBoundary(WithTerminator(bits, capacity));
    if k >= filled {
      PadBytesAt((capacity - filled) / 8, 0xEC, k - filled);
    }
  }

  lemma BoundaryIs(n: nat, filled: nat)
    requires filled % 8 == 0 && n <= filled < n + 8
    ensures n + Gap(n) == filled
  {}

  /** Adds the terminator and the padding; the buffer ends exactly at the capacity. */
  method Pad(bb: BitBuffer, capacity: nat)
    requires |bb.bits| <= capacity && capacity % 8 == 0
    modifies bb
    ensures bb.bits == Padded(old(bb.bits), capacity)
  {
    hide ToBits, Pow2, PadBytes, Padded, Gap;
    ghost var start := bb.bits;
    var n := Min(4, capacity - |bb.bits|);
    ZeroBits(n);
    var ok := bb.AppendBits(0, n);
    assert ok && bb.bits == WithTerminator(start, capacity);
    n := (8 - |bb.bits| % 8) % 8;
    GapIs(|bb.bits|);
    ZeroBits(n);
    ok := bb.AppendBits(0, n);
    assert ok && bb.bits == ToByteBoundary(WithTerminator(start, capacity));
    ghost var k := PadCount(start, capacity);
    hide ToByteBoundary, WithTerminator;
    FillUp(bb, capacity, k);
  }

  /** Appends k padding bytes, up to the capacity. */
  method FillUp(bb: BitBuffer, capacity: nat, ghost count: nat)
    requires |bb.bits| + 8 * count == capacity
    modifies bb
    ensures bb.bits == old(bb.bits) + PadBytes(count, 0xEC)
  {
    hide ToBits, Pow2, PadBytes;
    var padByte := 0xEC;
    ghost var k, full := count, bb.bits + PadBytes(count, 0xEC);
    NoPadBytes();
    while |bb.bits| < capacity
      invariant padByte == 0xEC || padByte == 0x11
      invariant |bb.bits| + 8 * k == capacity
      invariant bb.bits + PadBytes(k, padByte) == full
    {
      PadBytesNext(k, padByte);
      var ok := bb.AppendBits(padByte, 8);
      assert ok;
      padByte := if padByte == 0xEC then 0x11 else 0xEC;
      k := k - 1;
    }
  }

  lemma GapIs(n: nat)
    ensures Gap(n) == (8 - n % 8) % 8
  {}

  /** How many padding bytes there are. */
  lemma PadCount(bits: seq<bool>, capacity: nat) returns (k: nat)
    requires |bits| <= capacity && capacity % 8 == 0
    ensures var t := ToByteBoundary(WithTerminator(bits, capacity));
      |t| + 8 * k == capacity && t + PadBytes(k, 0xEC) == Padded(bits, capacity)
  {
    hide Gap;
    GapFits(|WithTerminator(bits, capacity)|, capacity);
    k := (capacity - |ToByteBoundary(WithTerminator(bits, capacity))|) / 8;
  }

  lemma NoPadBytes()
    ensures PadBytes(0, 0x11) == [] && PadBytes(0, 0xEC) == []
  {}

  lemma PadBytesNext(k: nat, padByte: nat)
    requires k > 0 && (padByte == 0xEC || padByte == 0x11)
    ensures PadBytes(k, padByte) == ToBits(padByte, 8) + PadBytes(k - 1, if padByte == 0xEC then 0x11 else 0xEC)
    ensures padByte < Pow2(8)
  {
    assert Pow2(8) == 256;
  }

  // ---------- codewords ----------

  /** The bits of a sequence of bytes. */
  function Unpack(bytes: seq<Byte>): (bits: seq<bool>)
    ensures |bits| == 8 * |bytes|
    ensures forall k | 0 <= k < |bits| :: bits[k] == BitAt(bytes[k / 8], k % 8)
  {
    seq(8 * |bytes|, k requires 0 <= k < 8 * |bytes| => BitAt(bytes[k / 8], k % 8))
  }

  /** b | (bit << (7 - k)). */
  function OrBit(b: Byte, k: nat, bit: bool): Byte
    requires k < 8
  {
    match k
    case 0 => b.(b7 := b.b7 || bit)
    case 1 => b.(b6 := b.b6 || bit)
    case 2 => b.(b5 := b.b5 || bit)
    case 3 => b.(b4 := b.b4 || bit)
    case 4 => b.(b3 := b.b3 || bit)
    case 5 => b.(b2 := b.b2 || bit)
    case 6 => b.(b1 := b.b1 || bit)
    case _ => b.(b0 := b.b0 || bit)
  }

  lemma OrBitAt(b: Byte, k: nat, bit: bool, i: nat)
    requires k < 8 && i < 8
    ensures BitAt(OrBit(b, k, bit), i) == if i == k then BitAt(b, i) || bit else BitAt(b, i)
  {}

  /** Packs bits into bytes, most significant bit first. */
  method PackCodewords(bits: seq<bool>) returns (codewords: seq<Byte>)
    requires |bits| % 8 == 0
    ensures |codewords| == |bits| / 8 && Unpack(codewords) == bits
  {
    hide BitAt, OrBit;
    var a := new Byte[|bits| / 8](_ => ZERO);
    forall k | 0 <= k < 8 ensures !BitAt(ZERO, k) { BitZero(k); }
    for i := 0 to |bits|
      invariant forall k | 0 <= k < |bits| :: BitAt(a[k / 8], k % 8) == (k < i && bits[k])
    {
      ghost var before := a[..];
      a[i / 8] := OrBit(a[i / 8], i % 8, bits[i]);
      forall k | 0 <= k < |bits|
        ensures BitAt(a[k / 8], k % 8) == (k < i + 1 && bits[k])
      {
        assert BitAt(before[k / 8], k % 8) == (k < i && bits[k]);
        if k / 8 == i / 8 {
          assert k % 8 == i % 8 <==> k == i;
          OrBitAt(before[i / 8], i % 8, bits[i], k % 8);
        }
      }
    }
    codewords := a[..];
    assert Unpack(codewords) == bits;
  }

  lemma BitZero(k: nat)
    requires k < 8
    ensures !BitAt(ZERO, k)
  {}
}
