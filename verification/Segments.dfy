/** QR segments: the factories that pack text, bytes and ECI designators into bits, and readers
    that recover them from the front of a bit stream. */
module Segments {
  import opened Basics
  import opened BitStream
  import opened Wrappers

  const INT_MAX := 0x7FFF_FFFF

  datatype Mode = Numeric | Alphanumeric | Bytes | Kanji | Eci {
    function ModeBits(): nat {
      match this
      case Numeric => 0x1
      case Alphanumeric => 0x2
      case Bytes => 0x4
      case Kanji => 0x8
      case Eci => 0x7
    }

    /** Width of the character count field. */
    function CharCountBits(version: nat): (bits: nat)
      requires 1 <= version <= 40
      ensures bits <= 16
    {
      var row := match this
        case Numeric => [10, 12, 14]
        case Alphanumeric => [9, 11, 13]
        case Bytes => [8, 16, 16]
        case Kanji => [8, 10, 12]
        case Eci => [0, 0, 0];
      row[(version + 7) / 17]
    }
  }

  datatype Segment = Segment(mode: Mode, numChars: nat, data: seq<bool>)

  /** A NUL-terminated string of 8-bit characters, without its terminator. */
  type CString = s: string | forall c | c in s :: 0 < c as int < 256

  const ALPHANUMERIC_CHARSET := "0123456789ABCDEFGHIJKLMNOPQRSTUVWXYZ $%*+-./:"

  // ---------- digits packed in groups ----------

  /** How a mode packs symbols below base: widths[k] bits hold a group of k symbols, and only the
      last group may be short. */
  datatype Coding = Coding(base: nat, widths: seq<nat>) {
    predicate Known() {
      this == DIGITS || this == LETTERS || this == OCTETS
    }

    function Group(): nat
      requires |widths| > 0
    {
      |widths| - 1
    }
  }

  const DIGITS := Coding(10, [0, 4, 7, 10])
  const LETTERS := Coding(45, [0, 6, 11])
  const OCTETS := Coding(256, [0, 8])

  function Value(ds: seq<nat>, base: nat): nat {
    if ds == [] then 0 else Value(ds[..|ds| - 1], base) * base + ds[|ds| - 1]
  }

  function Digits(v: nat, c: Coding, n: nat): (ds: seq<nat>)
    requires c.Known()
    ensures |ds| == n
  {
    if n == 0 then [] else Digits(v / c.base, c, n - 1) + [v % c.base]
  }

  function GroupBits(ds: seq<nat>, c: Coding): seq<bool>
    requires |c.widths| > 1
    decreases |ds|
  {
    if ds == [] then []
    else
      var k := Min(|ds|, c.Group());
      ToBits(Value(ds[..k], c.base), c.widths[k]) + GroupBits(ds[k..], c)
  }

  /** Reads n symbols from the front of a stream; yields them and the rest of the stream. */
  function ReadGroups(bits: seq<bool>, n: nat, c: Coding): (r: Option<(seq<nat>, seq<bool>)>)
    requires c.Known()
    ensures r.Some? ==> |r.value.1| <= |bits|
  {
    if n == 0 then Some(([], bits))
    else
      var k := Min(n, c.Group());
      var w := c.widths[k];
      if |bits| < w then None
      else match ReadGroups(bits[w..], n - k, c)
        case None => None
        case Some((ds, rest)) => Some((Digits(FromBits(bits[..w]), c, k) + ds, rest))
  }

  ghost predicate Below(ds: seq<nat>, base: nat) {
    forall i | 0 <= i < |ds| :: ds[i] < base
  }

  lemma {:induction false} DigitsOfValue(ds: seq<nat>, c: Coding)
    requires c.Known() && Below(ds, c.base)
    ensures Digits(Value(ds, c.base), c, |ds|) == ds
  {
    if ds != [] {
      var n := |ds| - 1;
      DigitsOfValue(ds[..n], c);
      var v, d := Value(ds[..n], c.base), ds[n];
      assert (v * c.base + d) / c.base == v && (v * c.base + d) % c.base == d;
      assert ds == ds[..n] + [d];
    }
  }

  /** A full or short group fits its field. */
  lemma GroupFits(ds: seq<nat>, c: Coding)
    requires c.Known() && Below(ds, c.base) && |ds| <= c.Group()
    ensures Value(ds, c.base) < Pow2(c.widths[|ds|])
  {
    if |ds| > 0 {
      assert ds[..1][..0] == [] && Value(ds[..1], c.base) == ds[0];
    }
    if |ds| > 1 {
      assert ds[..2][..1] == ds[..1];
      assert Value(ds[..2], c.base) == ds[0] * c.base + ds[1];
    }
    if |ds| > 2 {
      assert ds[..3][..2] == ds[..2];
      assert Value(ds[..3], c.base) == (ds[0] * c.base + ds[1]) * c.base + ds[2];
    }
    assert ds[..|ds|] == ds;
    assert Pow2(4) == 16 && Pow2(6) == 64 && Pow2(7) == 128 && Pow2(8) == 256 && Pow2(10) == 1024 && Pow2(11) == 2048;
  }

  /** Groups read back: any symbols of the coding, whatever follows them in the stream. */
  lemma {:induction false} GroupsRoundTrip(ds: seq<nat>, c: Coding, tail: seq<bool>)
    requires c.Known() && Below(ds, c.base)
    ensures ReadGroups(GroupBits(ds, c) + tail, |ds|, c) == Some((ds, tail))
    decreases |ds|
  {
    hide Value, Digits, ToBits, FromBits, Pow2, GroupBits;
    if ds == [] {
      NoGroups(ds, c);
      assert GroupBits(ds, c) + tail == tail;
    } else {
      var k := Min(|ds|, c.Group());
      PositiveGroup(c);
      GroupBitsFirst(ds, c);
      var w := c.widths[k];
      var v, rest := Value(ds[..k], c.base), GroupBits(ds[k..], c) + tail;
      var bits := GroupBits(ds, c) + tail;
      assert bits == ToBits(v, w) + rest;
      assert bits[..w] == ToBits(v, w) && bits[w..] == rest;
      GroupFits(ds[..k], c);
      FromToBits(v, w);
      DigitsOfValue(ds[..k], c);
      GroupsRoundTrip(ds[k..], c, tail);
      assert ds[..k] + ds[k..] == ds;
    }
  }

  lemma PositiveGroup(c: Coding)
    requires c.Known()
    ensures c.Group() > 0
  {}

  /** Bits taken by n symbols: full groups at the full width, then one short group. */
  function PackedLength(n: nat, c: Coding): nat
    requires c.Known()
  {
    if c == DIGITS then 10 * (n / 3) + [0, 4, 7][n % 3]
    else if c == LETTERS then 11 * (n / 2) + [0, 6][n % 2]
    else 8 * n
  }

  lemma NoGroups(ds: seq<nat>, c: Coding)
    requires c.Known() && ds == []
    ensures GroupBits(ds, c) == []
  {}

  lemma GroupBitsFirst(ds: seq<nat>, c: Coding)
    requires c.Known() && ds != []
    ensures var k := Min(|ds|, c.Group());
        GroupBits(ds, c) == ToBits(Value(ds[..k], c.base), c.widths[k]) + GroupBits(ds[k..], c)
  {
    hide ToBits, Value;
  }

  lemma PackedLengthNext(n: nat, c: Coding)
    requires c.Known()
    ensures PackedLength(0, c) == 0
    ensures n > 0 ==> var k := Min(n, c.Group()); PackedLength(n, c) == c.widths[k] + PackedLength(n - k, c)
  {}

  lemma {:induction false} GroupLength(ds: seq<nat>, c: Coding)
    requires c.Known()
    ensures |GroupBits(ds, c)| == PackedLength(|ds|, c)
    decreases |ds|
  {
    hide GroupBits, PackedLength, Value, ToBits, Coding.Known;
    PackedLengthNext(|ds|, c);
    if ds == [] {
      NoGroups(ds, c);
    } else {
      var k := Min(|ds|, c.Group());
      GroupBitsFirst(ds, c);
      PositiveGroup(c);
      GroupLength(ds[k..], c);
    }
  }

  // ---------- what a segment holds ----------

  datatype Content =
    | NumericText(text: string)
    | AlphanumericText(text: string)
    | ByteData(bytes: seq<nat>)
    | EciValue(value: nat)
  {
    /** Exactly what the factories accept. */
    ghost predicate Valid() {
      match this
      case NumericText(t) => IsNumeric(t)
      case AlphanumericText(t) => IsAlphanumeric(t)
      case ByteData(bs) => Below(bs, 256) && |bs| <= INT_MAX
      case EciValue(v) => v < 1000000
    }
  }

  predicate IsNumeric(s: string) {
    forall i | 0 <= i < |s| :: '0' <= s[i] <= '9'
  }

  predicate IsAlphanumeric(s: string) {
    forall i | 0 <= i < |s| :: s[i] in ALPHANUMERIC_CHARSET
  }

  function DigitValues(s: string): (ds: seq<nat>)
    requires IsNumeric(s)
    ensures |ds| == |s| && forall i | 0 <= i < |s| :: ds[i] == s[i] as int - '0' as int
  {
    seq(|s|, i requires 0 <= i < |s| => s[i] as int - '0' as int)
  }

  /** Position of the first occurrence of c, as strchr finds it. */
  function IndexOf(s: string, c: char): (k: nat)
    requires c in s
    ensures k < |s| && s[k] == c && c !in s[..k]
  {
    if s[0] == c then 0 else 1 + IndexOf(s[1..], c)
  }

  function LetterValues(s: string): (ds: seq<nat>)
    requires IsAlphanumeric(s)
    ensures |ds| == |s| && forall i | 0 <= i < |s| :: ds[i] == IndexOf(ALPHANUMERIC_CHARSET, s[i])
  {
    seq(|s|, i requires 0 <= i < |s| => IndexOf(ALPHANUMERIC_CHARSET, s[i]))
  }

  function EciBits(v: nat): seq<bool> {
    if v < 128 then ToBits(v, 8)
    else if v < 16384 then ToBits(2, 2) + ToBits(v, 14)
    else ToBits(6, 3) + ToBits(v, 21)
  }

  ghost function Encode(c: Content): Segment
    requires c.Valid()
  {
    match c
    case NumericText(t) => Segment(Numeric, |t|, GroupBits(DigitValues(t), DIGITS))
    case AlphanumericText(t) => Segment(Alphanumeric, |t|, GroupBits(LetterValues(t), LETTERS))
    case ByteData(bs) => Segment(Bytes, |bs|, GroupBits(bs, OCTETS))
    case EciValue(v) => Segment(Eci, 0, EciBits(v))
  }

  // ---------- readers ----------

  function ReadText(bits: seq<bool>, n: nat, c: Coding, charset: string): (r: Option<(string, seq<bool>)>)
    requires c.Known() && c.base <= |charset|
    ensures r.Some? ==> |r.value.1| <= |bits|
  {
    match ReadGroups(bits, n, c)
    case None => None
    case Some((ds, rest)) =>
      if forall i | 0 <= i < |ds| :: ds[i] < c.base then
        Some((seq(|ds|, i requires 0 <= i < |ds| => charset[ds[i]]), rest))
      else None
  }

  function ReadEci(bits: seq<bool>): Option<(nat, seq<bool>)> {
    if |bits| >= 8 && !bits[0] then Some((FromBits(bits[..8]), bits[8..]))
    else if |bits| >= 16 && !bits[1] then Some((FromBits(bits[2..16]), bits[16..]))
    else if |bits| >= 24 && !bits[2] then Some((FromBits(bits[3..24]), bits[24..]))
    else None
  }

  /** Reads the payload of a segment from its mode and character count. */
  function ReadPayload(mode: Mode, count: nat, bits: seq<bool>): (r: Option<(Content, seq<bool>)>)
    ensures r.Some? ==> |r.value.1| <= |bits|
  {
    match mode
    case Numeric => (match ReadText(bits, count, DIGITS, "0123456789")
                     case None => None
                     case Some((t, rest)) => Some((NumericText(t), rest)))
    case Alphanumeric => (match ReadText(bits, count, LETTERS, ALPHANUMERIC_CHARSET)
                          case None => None
                          case Some((t, rest)) => Some((AlphanumericText(t), rest)))
    case Bytes => (match ReadGroups(bits, count, OCTETS)
                   case None => None
                   case Some((bs, rest)) => Some((ByteData(bs), rest)))
    case Eci => (match ReadEci(bits)
                 case None => None
                 case Some((v, rest)) => Some((EciValue(v), rest)))
    case Kanji => None
  }

  lemma {:induction false} LeadingFalse(v: nat, len: nat)
    requires 0 < len && v < Pow2(len - 1)
    ensures !ToBits(v, len)[0]
  {
    if len > 1 {
      LeadingFalse(v / 2, len - 1);
    }
  }

  lemma EciRoundTrip(v: nat, tail: seq<bool>)
    requires v < 1000000
    ensures ReadEci(EciBits(v) + tail) == Some((v, tail))
  {
    var bits := EciBits(v) + tail;
    assert Pow2(7) == 128 && Pow2(8) == 256 && Pow2(14) == 16384 && Pow2(21) == 2097152;
    hide Pow2, FromBits;
    if v < 128 {
      LeadingFalse(v, 8);
      FromToBits(v, 8);
      hide ToBits;
      assert bits[..8] == ToBits(v, 8) && bits[8..] == tail;
    } else if v < 16384 {
      FromToBits(v, 14);
      assert ToBits(2, 2) == [true, false];
      hide ToBits;
      assert bits[2..16] == ToBits(v, 14) && bits[16..] == tail;
    } else {
      FromToBits(v, 21);
      assert ToBits(6, 3) == [true, true, false];
      hide ToBits;
      assert bits[3..24] == ToBits(v, 21) && bits[24..] == tail;
    }
  }

  /** Whatever a factory packs is read back exactly, and reading stops where the payload ends. */
  lemma PayloadRoundTrip(c: Content, tail: seq<bool>)
    requires c.Valid()
    ensures var s := Encode(c); ReadPayload(s.mode, s.numChars, s.data + tail) == Some((c, tail))
  {
    hide GroupBits, ReadGroups, ReadText, ReadEci, EciBits;
    match c
    case NumericText(t) =>
      forall i | 0 <= i < |t| ensures "0123456789"[DigitValues(t)[i]] == t[i] {
        DigitChar(t[i]);
      }
      TextRoundTrip(t, DigitValues(t), DIGITS, "0123456789", tail);
    case AlphanumericText(t) =>
      TextRoundTrip(t, LetterValues(t), LETTERS, ALPHANUMERIC_CHARSET, tail);
    case ByteData(bs) =>
      GroupsRoundTrip(bs, OCTETS, tail);
    case EciValue(v) =>
      EciRoundTrip(v, tail);
  }

  lemma TextRoundTrip(t: string, ds: seq<nat>, c: Coding, charset: string, tail: seq<bool>)
    requires c.Known() && c.base <= |charset| && |ds| == |t|
    requires forall i | 0 <= i < |t| :: ds[i] < c.base && charset[ds[i]] == t[i]
    ensures ReadText(GroupBits(ds, c) + tail, |t|, c, charset) == Some((t, tail))
  {
    GroupsRoundTrip(ds, c, tail);
    hide GroupBits, ReadGroups;
    assert t == seq(|ds|, i requires 0 <= i < |ds| => charset[ds[i]]);
  }

  lemma DigitChar(c: char)
    requires '0' <= c <= '9'
    ensures "0123456789"[c as int - '0' as int] == c
  {}

  /** Payload sizes promised by the standard. */
  lemma PayloadLength(c: Content)
    requires c.Valid()
    ensures |Encode(c).data| == match c
      case NumericText(t) => 10 * (|t| / 3) + [0, 4, 7][|t| % 3]
      case AlphanumericText(t) => 11 * (|t| / 2) + [0, 6][|t| % 2]
      case ByteData(bs) => 8 * |bs|
      case EciValue(v) => if v < 128 then 8 else if v < 16384 then 16 else 24
  {
    match c
    case NumericText(t) => GroupLength(DigitValues(t), DIGITS);
    case AlphanumericText(t) => GroupLength(LetterValues(t), LETTERS);
    case ByteData(bs) => GroupLength(bs, OCTETS);
    case EciValue(v) =>
  }

  // ---------- factories ----------

  /** n symbols fill whole groups. */
  ghost predicate WholeGroups(n: nat, c: Coding)
    requires c.Known()
  {
    if c == DIGITS then n % 3 == 0 else if c == LETTERS then n % 2 == 0 else true
  }

  lemma NextGroup(n: nat, c: Coding)
    requires c.Known() && WholeGroups(n, c)
    ensures WholeGroups(n + c.Group(), c)
    ensures n > 0 ==> n >= c.Group() && WholeGroups(n - c.Group(), c)
  {}

  /** State of a packing loop after the symbols ds: whole groups are flushed to bits and the
      pending symbols are accumulated. */
  ghost predicate Packing(ds: seq<nat>, c: Coding, bits: seq<bool>, pending: nat, accum: nat)
    requires c.Known() && pending <= |ds|
  {
    var f := |ds| - pending;
    && WholeGroups(f, c)
    && accum == Value(ds[f..], c.base)
    && bits == GroupBits(ds[..f], c)
  }

  lemma PackSymbol(ds: seq<nat>, d: nat, c: Coding, bits: seq<bool>, pending: nat, accum: nat)
    requires c.Known() && pending <= |ds| && Packing(ds, c, bits, pending, accum)
    ensures Packing(ds + [d], c, bits, pending + 1, accum * c.base + d)
  {
    var f := |ds| - pending;
    assert (ds + [d])[f..][..pending] == ds[f..];
    assert (ds + [d])[..f] == ds[..f];
  }

  lemma {:induction false} GroupBitsAppend(a: seq<nat>, b: seq<nat>, c: Coding)
    requires c.Known() && WholeGroups(|a|, c)
    ensures GroupBits(a + b, c) == GroupBits(a, c) + GroupBits(b, c)
    decreases |a|
  {
    hide Value, ToBits, GroupBits, WholeGroups;
    if a == [] {
      assert a + b == b;
      NoGroups(a, c);
    } else {
      var g := c.Group();
      PositiveGroup(c);
      NextGroup(|a|, c);
      GroupBitsAppend(a[g..], b, c);
      assert (a + b)[..g] == a[..g] && (a + b)[g..] == a[g..] + b;
      GroupBitsFirst(a, c);
      GroupBitsFirst(a + b, c);
    }
  }

  lemma OneGroup(ds: seq<nat>, c: Coding)
    requires c.Known() && 0 < |ds| <= c.Group()
    ensures GroupBits(ds, c) == ToBits(Value(ds, c.base), c.widths[|ds|])
  {
    hide ToBits, Value;
    assert ds[..|ds|] == ds && ds[|ds|..] == [];
    assert GroupBits(ds[|ds|..], c) == [];
  }

  lemma FlushGroup(ds: seq<nat>, c: Coding, bits: seq<bool>, pending: nat, accum: nat)
    requires c.Known() && Below(ds, c.base) && 0 < pending <= |ds| && pending <= c.Group()
    requires Packing(ds, c, bits, pending, accum)
    ensures accum < Pow2(c.widths[pending]) && accum < UINT32
    ensures GroupBits(ds, c) == bits + ToBits(accum, c.widths[pending])
    ensures pending == c.Group() ==> Packing(ds, c, GroupBits(ds, c), 0, 0)
  {
    hide ToBits, GroupBits, Value, Pow2, Coding.Known, WholeGroups;
    var f := |ds| - pending;
    var last := ds[f..];
    WidthBound(c, pending);
    GroupFits(last, c);
    GroupBitsAppend(ds[..f], last, c);
    OneGroup(last, c);
    assert ds == ds[..f] + last && ds[..|ds|] == ds;
    if pending == c.Group() {
      EmptyPacking(ds[|ds|..], c);
      NextGroup(f, c);
    }
  }

  lemma WidthBound(c: Coding, k: nat)
    requires c.Known() && k <= c.Group()
    ensures 0 < c.Group() <= 3 && Pow2(c.widths[k]) <= 2048 < UINT32
  {
    assert Pow2(4) == 16 && Pow2(6) == 64 && Pow2(7) == 128 && Pow2(8) == 256 && Pow2(10) == 1024 && Pow2(11) == 2048;
  }

  method MakeBytes(data: seq<nat>) returns (r: Result<Segment>)
    requires Below(data, 256)
    ensures r == if |data| <= INT_MAX then Ok(Encode(ByteData(data))) else Fail(LengthError)
  {
    hide GroupBits, ToBits, Pow2, Value;
    if |data| > INT_MAX {
      return Fail(LengthError);
    }
    var bb := new BitBuffer();
    assert GroupBits(data[..0], OCTETS) == [] && Value(data[..0][0..], 256) == 0 by { EmptyPacking(data[..0], OCTETS); }
    for i := 0 to |data|
      invariant fresh(bb)
      invariant Packing(data[..i], OCTETS, bb.bits, 0, 0)
    {
      PackSymbol(data[..i], data[i], OCTETS, bb.bits, 0, 0);
      assert data[..i] + [data[i]] == data[..i + 1];
      FlushGroup(data[..i + 1], OCTETS, bb.bits, 1, data[i]);
      var ok := bb.AppendBits(data[i], 8);
      assert ok;
    }
    assert data[..|data|] == data;
    r := Ok(Segment(Bytes, |data|, bb.bits));
  }

  lemma EmptyPacking(ds: seq<nat>, c: Coding)
    requires c.Known() && ds == []
    ensures Packing(ds, c, [], 0, 0) && GroupBits(ds, c) == [] && Value(ds[0..], c.base) == 0
  {}

  lemma AllPacked(ds: seq<nat>, c: Coding, bits: seq<bool>, accum: nat)
    requires c.Known() && Packing(ds, c, bits, 0, accum)
    ensures bits == GroupBits(ds, c)
  {
    hide GroupBits, Value;
    assert ds[..|ds|] == ds;
  }

  lemma NoDigits()
    ensures IsNumeric([]) && DigitValues([]) == [] && Below([], 10)
  {}

  lemma DigitsNext(text: string, n: nat)
    requires n < |text| && IsNumeric(text[..n])
    ensures !('0' <= text[n] <= '9') ==> !IsNumeric(text)
    ensures '0' <= text[n] <= '9' ==>
      IsNumeric(text[..n + 1]) && DigitValues(text[..n + 1]) == DigitValues(text[..n]) + [text[n] as int - '0' as int]
  {}

  lemma DigitsEncoded(text: string)
    requires IsNumeric(text)
    ensures NumericText(text).Valid()
    ensures Encode(NumericText(text)) == Segment(Numeric, |text|, GroupBits(DigitValues(text), DIGITS))
  {}

  method MakeNumeric(digits: CString) returns (r: Result<Segment>)
    ensures r == if IsNumeric(digits) then Ok(Encode(NumericText(digits))) else Fail(DomainError)
  {
    hide GroupBits, ToBits, Pow2, Value, Packing, IsNumeric, DigitValues, Encode, Below;
    NoDigits();
    var bb := new BitBuffer();
    var accumData: nat, accumCount: nat, charCount: nat := 0, 0, 0;
    ghost var ds: seq<nat> := [];
    EmptyPacking(ds, DIGITS);
    while charCount < |digits|
      invariant 0 <= accumCount < 3 && accumCount <= charCount <= |digits|
      invariant IsNumeric(digits[..charCount]) && ds == DigitValues(digits[..charCount]) && Below(ds, 10)
      invariant fresh(bb) && Packing(ds, DIGITS, bb.bits, accumCount, accumData)
    {
      var c := digits[charCount];
      DigitsNext(digits, charCount);
      if c < '0' || c > '9' {
        return Fail(DomainError);
      }
      ghost var d := c as int - '0' as int;
      PackSymbol(ds, d, DIGITS, bb.bits, accumCount, accumData);
      BelowNext(ds, d, 10);
      ds := ds + [d];
      accumData := accumData * 10 + (c as int - '0' as int);
      accumCount := accumCount + 1;
      charCount := charCount + 1;
      if accumCount == 3 {
        FlushGroup(ds, DIGITS, bb.bits, 3, accumData);
        var ok := bb.AppendBits(accumData, 10);
        assert ok;
        accumData, accumCount := 0, 0;
      }
    }
    assert digits[..charCount] == digits;
    if accumCount > 0 {
      FlushGroup(ds, DIGITS, bb.bits, accumCount, accumData);
      var ok := bb.AppendBits(accumData, accumCount * 3 + 1);
      assert ok;
    } else {
      AllPacked(ds, DIGITS, bb.bits, accumData);
    }
    DigitsEncoded(digits);
    r := Ok(Segment(Numeric, charCount, bb.bits));
  }

  lemma NoLetters()
    ensures IsAlphanumeric([]) && LetterValues([]) == [] && Below([], 45)
  {}

  lemma BelowNext(ds: seq<nat>, d: nat, base: nat)
    requires Below(ds, base) && d < base
    ensures Below(ds + [d], base)
  {}

  lemma LettersNext(text: string, n: nat)
    requires n < |text| && IsAlphanumeric(text[..n])
    ensures text[n] !in ALPHANUMERIC_CHARSET ==> !IsAlphanumeric(text)
    ensures text[n] in ALPHANUMERIC_CHARSET ==>
      && IsAlphanumeric(text[..n + 1])
      && LetterValues(text[..n + 1]) == LetterValues(text[..n]) + [IndexOf(ALPHANUMERIC_CHARSET, text[n])]
      && IndexOf(ALPHANUMERIC_CHARSET, text[n]) < 45
  {
    hide IndexOf, ALPHANUMERIC_CHARSET;
    CharsetSize();
  }

  lemma CharsetSize()
    ensures |ALPHANUMERIC_CHARSET| == 45
  {}

  lemma LettersEncoded(text: string)
    requires IsAlphanumeric(text)
    ensures AlphanumericText(text).Valid()
    ensures Encode(AlphanumericText(text)) == Segment(Alphanumeric, |text|, GroupBits(LetterValues(text), LETTERS))
  {}

  method MakeAlphanumeric(text: CString) returns (r: Result<Segment>)
    ensures r == if IsAlphanumeric(text) then Ok(Encode(AlphanumericText(text))) else Fail(DomainError)
  {
    hide GroupBits, ToBits, Pow2, Value, IndexOf, Packing, IsAlphanumeric, LetterValues, Encode, ALPHANUMERIC_CHARSET,
      Below;
    NoLetters();
    var bb := new BitBuffer();
    var accumData: nat, accumCount: nat, charCount: nat := 0, 0, 0;
    ghost var ds: seq<nat> := [];
    EmptyPacking(ds, LETTERS);
    while charCount < |text|
      invariant 0 <= accumCount < 2 && accumCount <= charCount <= |text|
      invariant IsAlphanumeric(text[..charCount]) && ds == LetterValues(text[..charCount]) && Below(ds, 45)
      invariant fresh(bb) && Packing(ds, LETTERS, bb.bits, accumCount, accumData)
    {
      LettersNext(text, charCount);
      if text[charCount] !in ALPHANUMERIC_CHARSET {
        return Fail(DomainError);
      }
      var temp := IndexOf(ALPHANUMERIC_CHARSET, text[charCount]);
      PackSymbol(ds, temp, LETTERS, bb.bits, accumCount, accumData);
      BelowNext(ds, temp, 45);
      ds := ds + [temp];
      accumData := accumData * 45 + temp;
      accumCount := accumCount + 1;
      charCount := charCount + 1;
      if accumCount == 2 {
        FlushGroup(ds, LETTERS, bb.bits, 2, accumData);
        var ok := bb.AppendBits(accumData, 11);
        assert ok;
        accumData, accumCount := 0, 0;
      }
    }
    assert text[..charCount] == text;
    if accumCount > 0 {
      FlushGroup(ds, LETTERS, bb.bits, accumCount, accumData);
      var ok := bb.AppendBits(accumData, 6);
      assert ok;
    } else {
      AllPacked(ds, LETTERS, bb.bits, accumData);
    }
    LettersEncoded(text);
    r := Ok(Segment(Alphanumeric, charCount, bb.bits));
  }

  method MakeEci(assignVal: int) returns (r: Result<Segment>)
    ensures r == if 0 <= assignVal < 1000000 then Ok(Encode(EciValue(assignVal))) else Fail(DomainError)
  {
    assert Pow2(2) == 4 && Pow2(3) == 8 && Pow2(8) == 256 && Pow2(14) == 16384 && Pow2(21) == 2097152;
    hide ToBits, Pow2;
    var bb := new BitBuffer();
    if assignVal < 0 {
      return Fail(DomainError);
    } else if assignVal < 128 {
      var ok := bb.AppendBits(assignVal, 8);
      assert ok;
    } else if assignVal < 16384 {
      var ok := bb.AppendBits(2, 2);
      assert ok;
      ok := bb.AppendBits(assignVal, 14);
      assert ok;
    } else if assignVal < 1000000 {
      var ok := bb.AppendBits(6, 3);
      assert ok;
      ok := bb.AppendBits(assignVal, 21);
      assert ok;
    } else {
      return Fail(DomainError);
    }
    assert bb.bits == EciBits(assignVal);
    r := Ok(Segment(Eci, 0, bb.bits));
  }

  method TestNumeric(text: CString) returns (r: bool)
    ensures r == IsNumeric(text)
  {
    for i := 0 to |text|
      invariant IsNumeric(text[..i])
    {
      if text[i] < '0' || text[i] > '9' {
        return false;
      }
    }
    assert text[..|text|] == text;
    r := true;
  }

  method TestAlphanumeric(text: CString) returns (r: bool)
    ensures r == IsAlphanumeric(text)
  {
    for i := 0 to |text|
      invariant forall k | 0 <= k < i :: text[k] in ALPHANUMERIC_CHARSET
    {
      if text[i] !in ALPHANUMERIC_CHARSET {
        return false;
      }
    }
    r := true;
  }

  /** What the automatic choice of modes puts into the symbol. */
  ghost function TextContents(text: CString): seq<Content> {
    if text == "" then []
    else if IsNumeric(text) then [NumericText(text)]
    else if IsAlphanumeric(text) then [AlphanumericText(text)]
    else [ByteData(CharCodes(text))]
  }

  function CharCodes(text: CString): (bytes: seq<nat>)
    ensures |bytes| == |text| && forall i | 0 <= i < |text| :: bytes[i] == text[i] as int
    ensures Below(bytes, 256)
  {
    seq(|text|, i requires 0 <= i < |text| => text[i] as int)
  }

  /** The automatic choice never makes a factory throw on its content; only a byte string longer
      than INT_MAX is refused. */
  method MakeSegments(text: CString) returns (r: Result<seq<Segment>>)
    ensures r.Ok? <==> IsNumeric(text) || IsAlphanumeric(text) || |text| <= INT_MAX
    ensures r.Fail? ==> r.error == LengthError
    ensures r.Ok? ==> AllValid(TextContents(text)) && EncodeAll(TextContents(text)) == r.value
  {
    hide GroupBits, ToBits, IndexOf;
    var seg: Result<Segment>;
    if text == "" {
      return Ok([]);
    }
    var numeric := TestNumeric(text);
    var alphanumeric := TestAlphanumeric(text);
    if numeric {
      seg := MakeNumeric(text);
    } else if alphanumeric {
      seg := MakeAlphanumeric(text);
    } else {
      var bytes: seq<nat> := [];
      for i := 0 to |text|
        invariant bytes == CharCodes(text)[..i]
      {
        bytes := bytes + [text[i] as int];
      }
      assert bytes == CharCodes(text);
      seg := MakeBytes(bytes);
    }
    match seg
    case Ok(s) => return Ok([s]);
    case Fail(e) => return Fail(e);
  }

  ghost predicate AllValid(cs: seq<Content>) {
    forall i | 0 <= i < |cs| :: cs[i].Valid()
  }

  ghost function EncodeAll(cs: seq<Content>): (segs: seq<Segment>)
    requires AllValid(cs)
    ensures |segs| == |cs| && forall i | 0 <= i < |cs| :: segs[i] == Encode(cs[i])
  {
    seq(|cs|, i requires 0 <= i < |cs| => Encode(cs[i]))
  }
}
