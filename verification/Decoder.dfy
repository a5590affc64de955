/** A reader that is given nothing but the grid of modules, and the proof that it recovers what
    was encoded. */
module Decoder {
  import opened Basics
  import opened BitStream
  import opened Counting
  import opened DataStream
  import opened Encoder
  import opened GaloisField
  import opened Grids
  import opened Interleave
  import opened Masking
  import opened Patterns
  import opened ReedSolomon
  import opened Segments
  import opened Symbol
  import opened Tables
  import opened Wrappers
  import opened Zigzag

  // ---------- format information ----------

  /** The fixed pattern on the level and mask bits. */
  function FormatPattern(): (p: seq<bool>)
    ensures |p| == 5
  {
    ToBits(0x5412, 15)[..5]
  }

  /** Level and mask bits, from the row beside the top left finder. */
  function ReadFormat(g: Grid): (v: nat)
    requires Square(g, |g|) && |g| >= 21
    ensures v < 32
  {
    var bits := XorBits(seq(5, k requires 0 <= k < 5 => Get(g, Cell(k, 8))), FormatPattern());
    ToFromBits(bits);
    assert Pow2(5) == 32;
    FromBits(bits)
  }

  function LevelOf(bits: nat): Ecc {
    if bits == 1 then Low else if bits == 0 then Medium else if bits == 3 then Quartile else High
  }

  /** The level and the mask can be read off any finished symbol. */
  lemma FormatRoundTrip(g: Grid, f: Grid, ecl: Ecc, m: nat)
    requires Square(g, |g|) && Square(f, |g|) && |g| >= 21 && m < 8
    ensures var v := ReadFormat(Finished(g, f, ecl, m)); LevelOf(v / 8) == ecl && v % 8 == m
  {
    hide Finished, FormatWord, FormatPattern, ToBits, FromBits, Get, Pow2, XorBits;
    var r := Finished(g, f, ecl, m);
    var data := ToBits(ecl.FormatBits() * 8 + m, 5);
    var bits := XorBits(seq(5, k requires 0 <= k < 5 => Get(r, Cell(k, 8))), FormatPattern());
    forall k | 0 <= k < 5
      ensures bits[k] == data[k]
    {
      FormatModule(g, f, ecl, m, k);
      FormatWordBit(ecl, m, k);
    }
    assert bits == data;
    FiveBits(ecl.FormatBits() * 8 + m);
  }

  lemma FiveBits(v: nat)
    requires v < 32
    ensures FromBits(ToBits(v, 5)) == v
  {
    assert Pow2(5) == 32;
    FromToBits(v, 5);
  }

  lemma FormatModule(g: Grid, f: Grid, ecl: Ecc, m: nat, k: nat)
    requires Square(g, |g|) && Square(f, |g|) && |g| >= 21 && m < 8 && k < 5
    ensures Get(Finished(g, f, ecl, m), Cell(k, 8)) == FormatWord(ecl, m)[k]
  {
    hide FormatWord, Masked;
    FormatCell(FormatWord(ecl, m), |g|, Cell(k, 8), 14 - k);
  }

  lemma FormatWordBit(ecl: Ecc, m: nat, k: nat)
    requires m < 8 && k < 5
    ensures FormatWord(ecl, m)[k] == (ToBits(ecl.FormatBits() * 8 + m, 5)[k] != FormatPattern()[k])
  {
    hide ToBits, Bch;
  }

  // ---------- codewords ----------

  /** The first n bytes of a bit stream. */
  function Gather(bits: seq<bool>, n: nat): (bytes: seq<Byte>)
    requires 8 * n <= |bits|
    ensures |bytes| == n && forall i | 0 <= i < n :: bytes[i] == Pack(bits[8 * i..8 * i + 8])
  {
    seq(n, i requires 0 <= i < n => Pack(bits[8 * i..8 * i + 8]))
  }

  lemma BitsAre(b: Byte, bits: seq<bool>)
    requires |bits| == 8 && forall k | 0 <= k < 8 :: bits[k] == BitAt(b, k)
    ensures Pack(bits) == b
  {
    hide Pack;
    assert Bits(b) == bits by {
      assert bits[0] == b.b7 && bits[1] == b.b6 && bits[2] == b.b5 && bits[3] == b.b4;
      assert bits[4] == b.b3 && bits[5] == b.b2 && bits[6] == b.b1 && bits[7] == b.b0;
    }
    PackBits(b);
  }

  lemma GatherUnpack(cw: seq<Byte>, rest: seq<bool>)
    ensures Gather(Unpack(cw) + rest, |cw|) == cw
  {
    hide BitAt, Pack;
    var bits := Unpack(cw) + rest;
    forall i | 0 <= i < |cw|
      ensures Pack(bits[8 * i..8 * i + 8]) == cw[i]
    {
      var b := bits[8 * i..8 * i + 8];
      forall k | 0 <= k < 8
        ensures b[k] == BitAt(cw[i], k)
      {
        assert bits[8 * i + k] == Unpack(cw)[8 * i + k];
        assert (8 * i + k) / 8 == i && (8 * i + k) % 8 == k;
      }
      BitsAre(cw[i], b);
    }
  }

  /** The version that a grid of this size belongs to. */
  function VersionOf(size: nat): Option<nat> {
    if size < 21 || size > 177 || (size - 17) % 4 != 0 then None else Some((size - 17) / 4)
  }

  /** The codewords on a grid whose mask is known: undo the mask, follow the scan, form bytes. */
  function ReadCodewords(g: Grid, version: nat, m: nat): Option<seq<Byte>>
    requires 1 <= version <= 40 && Square(g, SizeOf(version)) && m < 8
  {
    var f := FunctionMap(version);
    var plain := Masked(g, f, m);
    ScanFits(version, plain);
    var bits := Read(plain, f, Scan(SizeOf(version)));
    if |bits| < 8 * RawCodewords(version) then None else Some(Gather(bits, RawCodewords(version)))
  }

  lemma CodewordsRoundTrip(version: nat, ecl: Ecc, data: seq<Byte>, m: nat)
    requires 1 <= version <= 40 && |data| == DataCodewords(version, ecl) && m < 8
    ensures var g := Finished(Unmasked(version, ecl, data), FunctionMap(version), ecl, m);
      ReadCodewords(g, version, m) == Some(AllCodewords(data, LayoutOf(version, ecl)))
  {
    hide FunctionMap, Scan, SizeOf, Masked, Draw, FormatWord, RawDataModules, AllCodewords, Place, Read;
    hide DrawAll, FunctionShapes, Parameters, DataCodewords, Layout.Offset, Unpack, Gather, Layout.Valid, Finished;
    var size, f, scan := SizeOf(version), FunctionMap(version), Scan(SizeOf(version));
    var base, u := BaseGrid(version, ecl), Unmasked(version, ecl, data);
    var cw := AllCodewords(data, LayoutOf(version, ecl));
    var bits := Unpack(cw);
    ScanFits(version, base);
    FreeModulesExact(version, base);
    OddSize(version);
    ScanBijective(size);
    PlaceRead(base, f, scan, bits);
    assert u == Place(base, f, scan, bits);
    FormatsMarked(version);
    var w := FormatWord(ecl, 0);
    TrialRestores(u, f, ecl, w, m);
    var plain := Draw(u, Format(FormatWord(ecl, m)));
    ScanFits(version, plain);
    ScanFits(version, u);
    ReadIgnoresFormat(u, f, FormatWord(ecl, m), scan);
    GatherUnpack(cw, Read(base, f, scan)[|bits|..]);
  }

  lemma ReadIgnoresFormat(g: Grid, f: Grid, w: seq<bool>, cells: seq<Cell>)
    requires |w| == 15 && |g| >= 21 && Fits(g, f, cells) && Square(g, |g|) && Marked(f, Format(w)) && |f| == |g|
    ensures Fits(Draw(g, Format(w)), f, cells)
    ensures Read(Draw(g, Format(w)), f, cells) == Read(g, f, cells)
  {
    hide Draw, Read, Shape.Covers, Shape.Colour;
    ReadUnchanged(Draw(g, Format(w)), g, f, cells);
  }

  // ---------- the whole way ----------

  function Decode(g: Grid): Option<seq<Content>>
    requires Square(g, |g|)
  {
    match VersionOf(|g|)
    case None => None
    case Some(version) =>
      var v := ReadFormat(g);
      var ecl := LevelOf(v / 8);
      match ReadCodewords(g, version, v % 8)
      case None => None
      case Some(cw) =>
        var l := LayoutOf(version, ecl);
        Parse(Unpack(Deinterleaved(cw, l, l.blocks)), version)
  }

  lemma VersionRoundTrip(version: nat)
    requires 1 <= version <= 40
    ensures VersionOf(SizeOf(version)) == Some(version)
  {}

  /** Reading the data codewords back from a finished symbol. */
  lemma DecodeFinished(version: nat, ecl: Ecc, data: seq<Byte>, m: nat)
    requires 1 <= version <= 40 && |data| == DataCodewords(version, ecl) && m < 8
    ensures var g := Finished(Unmasked(version, ecl, data), FunctionMap(version), ecl, m);
      Decode(g) == Parse(Unpack(data), version)
  {
    hide FunctionMap, SizeOf, Unmasked, RawDataModules, AllCodewords, Finished, ReadCodewords, ReadFormat;
    hide Parameters, DataCodewords, Layout.Offset, Unpack, Layout.Valid, LayoutOf, Deinterleaved, Parse, VersionOf;
    VersionRoundTrip(version);
    FormatRoundTrip(Unmasked(version, ecl, data), FunctionMap(version), ecl, m);
    CodewordsRoundTrip(version, ecl, data, m);
    InterleaveRoundTrip(data, LayoutOf(version, ecl));
  }

  /** Whatever list of factory-made segments is encoded, with whatever options, a reader of the
      grid alone gets exactly their contents back. */
  lemma EndToEnd(q: QrCode, cs: seq<Content>, ecl: Ecc, lo: nat, hi: nat, mask: int, boost: bool)
    requires 1 <= lo && hi <= 40 && AllValid(cs)
    requires IsEncoding(q, EncodeAll(cs), ecl, lo, hi, mask, boost)
    ensures Square(q.modules, |q.modules|) && Decode(q.modules) == Some(cs)
  {
    hide FunctionMap, SizeOf, Unmasked, RawDataModules, Finished, Decode, Parameters, DataCodewords;
    hide Stream, Unpack, Padded, Parse, CountsFit, IsLeastVersion, IsLevel;
    var segs, version, level := EncodeAll(cs), q.version, q.errorCorrectionLevel;
    var data :| q.IsSymbol(version, level, data, mask) && CarriesStream(data, segs, version, level);
    DecodeFinished(version, level, data, q.mask);
    PaddedTerminates(Stream(segs, version), Capacity(version, level));
    var tail :| Terminated(tail) &&
      Padded(Stream(segs, version), Capacity(version, level)) == Stream(segs, version) + tail;
    StreamRoundTrip(cs, version, tail);
  }
}
