/** Which bits of a segment hold what: the fields of ISO/IEC 18004, section 7.4, one group of characters at a time. */
module SegmentFields {
  import opened Basics
  import opened BitStream
  import opened DataStream
  import opened Segments

  /** The group that starts after f symbols follows the bits of those. */
  lemma GroupField(ds: seq<nat>, c: Coding, f: nat, k: nat, at: nat)
    requires c.Known() && WholeGroups(f, c) && f < |ds| && k == Min(|ds| - f, c.Group()) && at == PackedLength(f, c)
    ensures at + c.widths[k] <= |GroupBits(ds, c)|
    ensures GroupBits(ds, c)[at..at + c.widths[k]] == ToBits(Value(ds[f..f + k], c.base), c.widths[k])
  {
    hide Value, ToBits, GroupBits, WholeGroups, PackedLength;
    assert ds == ds[..f] + ds[f..];
    GroupBitsAppend(ds[..f], ds[f..], c);
    GroupLength(ds[..f], c);
    GroupBitsFirst(ds[f..], c);
    assert ds[f..][..k] == ds[f..f + k];
  }

  lemma ValueOne(ds: seq<nat>, base: nat)
    requires |ds| == 1
    ensures Value(ds, base) == ds[0]
  {
    assert ds[..0] == [];
  }

  lemma ValueTwo(ds: seq<nat>, base: nat)
    requires |ds| == 2
    ensures Value(ds, base) == ds[0] * base + ds[1]
  {
    ValueOne(ds[..1], base);
  }

  lemma ValueThree(ds: seq<nat>, base: nat)
    requires |ds| == 3
    ensures Value(ds, base) == (ds[0] * base + ds[1]) * base + ds[2]
  {
    ValueTwo(ds[..2], base);
  }

  function Digit(c: char): int {
    c as int - '0' as int
  }

  /** Three digits make a number of ten bits; two that are left over one of seven bits, and a single one of four. */
  lemma NumericField(t: string, g: nat)
    requires IsNumeric(t) && 3 * g < |t|
    ensures var data, rest := Encode(NumericText(t)).data, |t| - 3 * g;
      if rest >= 3 then
        var v := 100 * Digit(t[3 * g]) + 10 * Digit(t[3 * g + 1]) + Digit(t[3 * g + 2]);
        10 * g + 10 <= |data| && v >= 0 && data[10 * g..10 * g + 10] == ToBits(v, 10)
      else if rest == 2 then
        var v := 10 * Digit(t[3 * g]) + Digit(t[3 * g + 1]);
        |data| == 10 * g + 7 && v >= 0 && data[10 * g..] == ToBits(v, 7)
      else
        |data| == 10 * g + 4 && Digit(t[3 * g]) >= 0 && data[10 * g..] == ToBits(Digit(t[3 * g]), 4)
  {
    hide GroupBits, ToBits, Value;
    var ds, rest := DigitValues(t), |t| - 3 * g;
    var k := Min(rest, 3);
    ThreeGroups(g);
    GroupField(ds, DIGITS, 3 * g, k, 10 * g);
    PayloadLength(NumericText(t));
    var group := ds[3 * g..3 * g + k];
    if rest >= 3 {
      ValueThree(group, 10);
    } else if rest == 2 {
      LeftOver(|t|, g);
      ValueTwo(group, 10);
      assert Encode(NumericText(t)).data[10 * g..] == Encode(NumericText(t)).data[10 * g..10 * g + 7];
    } else {
      LeftOver(|t|, g);
      ValueOne(group, 10);
      assert Encode(NumericText(t)).data[10 * g..] == Encode(NumericText(t)).data[10 * g..10 * g + 4];
    }
  }

  lemma ThreeGroups(g: nat)
    ensures WholeGroups(3 * g, DIGITS) && PackedLength(3 * g, DIGITS) == 10 * g
  {}

  lemma LeftOver(n: nat, g: nat)
    requires 3 * g <= n < 3 * g + 3
    ensures n / 3 == g && n % 3 == n - 3 * g
  {}

  /** Two characters make a number of eleven bits, to the base 45; one that is left over makes one of six bits. */
  lemma AlphanumericField(t: string, g: nat)
    requires IsAlphanumeric(t) && 2 * g < |t|
    ensures var data := Encode(AlphanumericText(t)).data;
      var a := IndexOf(ALPHANUMERIC_CHARSET, t[2 * g]);
      if 2 * g + 1 < |t| then
        var b := IndexOf(ALPHANUMERIC_CHARSET, t[2 * g + 1]);
        11 * g + 11 <= |data| && data[11 * g..11 * g + 11] == ToBits(45 * a + b, 11)
      else
        |data| == 11 * g + 6 && data[11 * g..] == ToBits(a, 6)
  {
    hide GroupBits, ToBits, Value, IndexOf, ALPHANUMERIC_CHARSET;
    var ds := LetterValues(t);
    var k := Min(|t| - 2 * g, 2);
    TwoGroups(g);
    GroupField(ds, LETTERS, 2 * g, k, 11 * g);
    PayloadLength(AlphanumericText(t));
    var group := ds[2 * g..2 * g + k];
    if k == 2 {
      ValueTwo(group, 45);
    } else {
      assert |t| / 2 == g && |t| % 2 == 1;
      ValueOne(group, 45);
      assert Encode(AlphanumericText(t)).data[11 * g..] == Encode(AlphanumericText(t)).data[11 * g..11 * g + 6];
    }
  }

  lemma TwoGroups(g: nat)
    ensures WholeGroups(2 * g, LETTERS) && PackedLength(2 * g, LETTERS) == 11 * g
  {}

  lemma ByteField(bs: seq<nat>, i: nat)
    requires ByteData(bs).Valid() && i < |bs|
    ensures 8 * i + 8 <= |Encode(ByteData(bs)).data|
    ensures Encode(ByteData(bs)).data[8 * i..8 * i + 8] == ToBits(bs[i], 8)
  {
    hide GroupBits, ToBits, Value;
    GroupField(bs, OCTETS, i, 1, 8 * i);
    ValueOne(bs[i..i + 1], 256);
  }

  /** The header: four bits of mode, then the count in a field whose width depends on the mode and on whether the
      version is at most 9, at most 26 or above. */
  lemma HeaderFields(s: Segment, version: nat)
    requires 1 <= version <= 40
    ensures var small, middle := version <= 9, version <= 26;
      var width := match s.mode
        case Numeric => if small then 10 else if middle then 12 else 14
        case Alphanumeric => if small then 9 else if middle then 11 else 13
        case Bytes => if small then 8 else 16
        case Kanji => if small then 8 else if middle then 10 else 12
        case Eci => 0;
      SegmentBits(s, version)[4..] == ToBits(s.numChars, width) + s.data
    ensures SegmentBits(s, version)[..4] == match s.mode
      case Numeric => [false, false, false, true]
      case Alphanumeric => [false, false, true, false]
      case Bytes => [false, true, false, false]
      case Kanji => [true, false, false, false]
      case Eci => [false, true, true, true]
  {
    ModeField(s.mode);
    hide ToBits;
  }

  lemma ModeField(mode: Mode)
    ensures ToBits(mode.ModeBits(), 4) == match mode
      case Numeric => [false, false, false, true]
      case Alphanumeric => [false, false, true, false]
      case Bytes => [false, true, false, false]
      case Kanji => [true, false, false, false]
      case Eci => [false, true, true, true]
  {
    hide ToBits, FromBits;
    var bits := match mode
      case Numeric => [false, false, false, true]
      case Alphanumeric => [false, false, true, false]
      case Bytes => [false, true, false, false]
      case Kanji => [true, false, false, false]
      case Eci => [false, true, true, true];
    NoBits(bits);
    FromBitsNext(bits, 0);
    FromBitsNext(bits, 1);
    FromBitsNext(bits, 2);
    FromBitsNext(bits, 3);
    assert bits[..4] == bits;
    ToFromBits(bits);
  }

  /** The content is the text, in one of the three modes. */
  ghost predicate Says(c: Content, text: CString) {
    c == NumericText(text) || c == AlphanumericText(text) || c == ByteData(CharCodes(text))
  }

  ghost function Width(c: Content, version: nat): nat
    requires c.Valid() && 1 <= version <= 40
  {
    |SegmentBits(Encode(c), version)|
  }

  lemma WidthIs(c: Content, version: nat)
    requires c.Valid() && 1 <= version <= 40
    ensures var small, middle := version <= 9, version <= 26;
      Width(c, version) == match c
        case NumericText(t) =>
          4 + (if small then 10 else if middle then 12 else 14) + 10 * (|t| / 3) + [0, 4, 7][|t| % 3]
        case AlphanumericText(t) =>
          4 + (if small then 9 else if middle then 11 else 13) + 11 * (|t| / 2) + 6 * (|t| % 2)
        case ByteData(bs) => 4 + (if small then 8 else 16) + 8 * |bs|
        case EciValue(v) => 4 + if v < 128 then 8 else if v < 16384 then 16 else 24
  {
    hide GroupBits, ToBits, EciBits;
    SegmentLength(Encode(c), version);
    PayloadLength(c);
  }

  lemma DigitsShortest(n: nat)
    requires n > 0
    ensures 10 * (n / 3) + [0, 4, 7][n % 3] + 2 <= 11 * (n / 2) + 6 * (n % 2) + 1
    ensures 11 * (n / 2) + 6 * (n % 2) + 2 <= 8 * n + 1
  {}

  /** The automatic choice of a mode gives the shortest segment at every version, and no other mode does as well. */
  lemma ChoiceShortest(text: CString, c: Content, version: nat)
    requires text != "" && 1 <= version <= 40 && Says(c, text) && c.Valid()
    ensures |TextContents(text)| == 1 && TextContents(text)[0].Valid()
    ensures c != TextContents(text)[0] ==> Width(TextContents(text)[0], version) < Width(c, version)
  {
    hide Width, IsNumeric, IsAlphanumeric;
    WidthIs(TextContents(text)[0], version);
    WidthIs(c, version);
    DigitsShortest(|text|);
  }
}
