/** Choosing the version and level of a symbol for a list of segments, and building it. */
module Encoder {
  import opened BitStream
  import opened DataStream
  import opened GaloisField
  import opened Segments
  import opened Symbol
  import opened Tables
  import opened Wrappers

  function Capacity(version: nat, ecl: Ecc): nat
    requires 1 <= version <= 40
  {
    8 * DataCodewords(version, ecl)
  }

  /** The segments can be written in a symbol of this version and level. */
  predicate Holds(segs: seq<Segment>, version: nat, ecl: Ecc)
    requires 1 <= version <= 40
  {
    CountsFit(segs, version) && |Stream(segs, version)| <= Capacity(version, ecl)
  }

  /** The least version in the range that holds the segments at the level asked for. */
  ghost predicate IsLeastVersion(segs: seq<Segment>, ecl: Ecc, lo: nat, hi: nat, version: nat)
    requires 1 <= lo && hi <= 40
  {
    lo <= version <= hi && Holds(segs, version, ecl) && forall v | lo <= v < version :: !Holds(segs, v, ecl)
  }

  ghost predicate NoVersion(segs: seq<Segment>, ecl: Ecc, lo: nat, hi: nat)
    requires 1 <= lo && hi <= 40
  {
    forall v | lo <= v <= hi :: !Holds(segs, v, ecl)
  }

  /** The level used: the one asked for, or with boosting the strongest that still holds. */
  ghost predicate IsLevel(segs: seq<Segment>, version: nat, asked: Ecc, boost: bool, used: Ecc)
    requires 1 <= version <= 40
  {
    && Holds(segs, version, used)
    && used.Ordinal() >= asked.Ordinal()
    && (if boost then forall e: Ecc | e.Ordinal() > used.Ordinal() :: !Holds(segs, version, e) else used == asked)
  }

  lemma CapacityBound(version: nat, ecl: Ecc)
    requires 1 <= version <= 40
    ensures Capacity(version, ecl) <= INT_MAX && Capacity(version, ecl) % 8 == 0
  {
    hide Parameters;
    var l := Parameters(version, ecl);
    assert l.ecc * l.blocks >= 0;
  }

  /** Searches the versions upwards. */
  method FindVersion(segs: seq<Segment>, ecl: Ecc, lo: nat, hi: nat) returns (version: Option<nat>)
    requires 1 <= lo <= hi <= 40
    ensures version.Some? ==> IsLeastVersion(segs, ecl, lo, hi, version.value)
    ensures version == None ==> NoVersion(segs, ecl, lo, hi)
  {
    hide Capacity, CountsFit, Stream;
    for v := lo to hi + 1
      invariant forall u | lo <= u < v :: !Holds(segs, u, ecl)
    {
      CapacityBound(v, ecl);
      var dataCapacityBits := Capacity(v, ecl);
      var dataUsedBits := GetTotalBits(segs, v);
      if dataUsedBits != -1 && dataUsedBits <= dataCapacityBits {
        return Some(v);
      }
    }
    version := None;
  }

  /** Raises the level while the data still fits the version. */
  method BoostLevel(segs: seq<Segment>, version: nat, asked: Ecc, boost: bool) returns (ecl: Ecc)
    requires 1 <= version <= 40 && Holds(segs, version, asked)
    ensures IsLevel(segs, version, asked, boost, ecl)
  {
    hide Capacity, CountsFit, Stream;
    var dataUsedBits := GetTotalBits(segs, version);
    CapacityBound(version, asked);
    ecl := asked;
    var levels := [Medium, Quartile, High];
    for i := 0 to 3
      invariant Holds(segs, version, ecl)
      invariant !boost ==> ecl == asked
      invariant boost ==>
        forall e: Ecc | 0 < e.Ordinal() <= i && Holds(segs, version, e) :: e.Ordinal() <= ecl.Ordinal()
      invariant boost && ecl.Ordinal() < asked.Ordinal() ==> i < asked.Ordinal()
    {
      if boost && dataUsedBits <= Capacity(version, levels[i]) {
        ecl := levels[i];
      }
    }
  }

  /** The data codewords of a symbol: the stream of its segments, padded to the capacity. */
  ghost predicate CarriesStream(data: seq<Byte>, segs: seq<Segment>, version: nat, ecl: Ecc)
    requires 1 <= version <= 40
  {
    && Holds(segs, version, ecl)
    && |data| == DataCodewords(version, ecl)
    && Capacity(version, ecl) % 8 == 0
    && Unpack(data) == Padded(Stream(segs, version), Capacity(version, ecl))
  }

  /** The symbol has the least version and the right level, and holds the segments. */
  ghost predicate IsEncoding(q: QrCode, segs: seq<Segment>, ecl: Ecc, lo: nat, hi: nat, mask: int, boost: bool)
    requires 1 <= lo && hi <= 40
    reads q
  {
    && IsLeastVersion(segs, ecl, lo, hi, q.version)
    && IsLevel(segs, q.version, ecl, boost, q.errorCorrectionLevel)
    && exists data :: q.IsSymbol(q.version, q.errorCorrectionLevel, data, mask)
                   && CarriesStream(data, segs, q.version, q.errorCorrectionLevel)
  }

  /** Encodes a list of segments.  None of the source's internal checks can fail. */
  method EncodeSegments(segs: seq<Segment>, ecl: Ecc, minVersion: int, maxVersion: int, mask: int, boostEcl: bool)
    returns (r: Result<QrCode>)
    ensures !(1 <= minVersion <= maxVersion <= 40) || mask < -1 || mask > 7 <==> r == Fail(InvalidArgument)
    ensures r != Fail(InvalidArgument) ==> (r == Fail(DataTooLong) <==> NoVersion(segs, ecl, minVersion, maxVersion))
    ensures r.Fail? ==> r.error in {InvalidArgument, DataTooLong}
    ensures r.Ok? ==> fresh(r.value) && IsEncoding(r.value, segs, ecl, minVersion, maxVersion, mask, boostEcl)
  {
    hide Capacity, CountsFit, Stream, Padded, Unpack, RawCodewords, Holds, DataCodewords, Unmasked, QrCode.IsSymbol;
    if !(MIN_VERSION <= minVersion <= maxVersion <= MAX_VERSION) || mask < -1 || mask > 7 {
      return Fail(InvalidArgument);
    }
    var found := FindVersion(segs, ecl, minVersion, maxVersion);
    if found == None {
      return Fail(DataTooLong);
    }
    var version := found.value;
    var level := BoostLevel(segs, version, ecl, boostEcl);
    var dataCodewords := MakeData(segs, version, level);
    r := QrCode.Create(version, level, dataCodewords, mask);
    if r.Ok? {
      SymbolFields(r.value, version, level, dataCodewords, mask);
    }
  }

  lemma SymbolFields(q: QrCode, version: nat, ecl: Ecc, data: seq<Byte>, mask: int)
    requires q.IsSymbol(version, ecl, data, mask)
    ensures q.version == version && q.errorCorrectionLevel == ecl
  {}

  /** Concatenates, terminates, pads and packs. */
  method MakeData(segs: seq<Segment>, version: nat, ecl: Ecc) returns (dataCodewords: seq<Byte>)
    requires 1 <= version <= 40 && Holds(segs, version, ecl)
    ensures CarriesStream(dataCodewords, segs, version, ecl)
  {
    hide Stream, Padded, Unpack;
    CapacityBound(version, ecl);
    var dataUsedBits := GetTotalBits(segs, version);
    assert dataUsedBits != -1;
    var bb := Concatenate(segs, version);
    assert |bb.bits| == dataUsedBits <= Capacity(version, ecl);
    Pad(bb, Capacity(version, ecl));
    dataCodewords := PackCodewords(bb.bits);
  }

  /** The symbol holds the contents, at the least version, with the strongest level that fits and the best mask. */
  ghost predicate IsBestEncoding(q: QrCode, cs: seq<Content>, ecl: Ecc)
    reads q
  {
    AllValid(cs) && IsEncoding(q, EncodeAll(cs), ecl, 1, 40, -1, true)
  }

  /** No version holds the contents. */
  ghost predicate TooLong(cs: seq<Content>, ecl: Ecc) {
    AllValid(cs) && NoVersion(EncodeAll(cs), ecl, 1, 40)
  }

  /** Encodes a text in the mode that suits it. */
  method EncodeText(text: CString, ecl: Ecc) returns (r: Result<QrCode>)
    ensures r.Ok? ==> IsBestEncoding(r.value, TextContents(text), ecl)
    ensures r == Fail(LengthError) <==> !IsNumeric(text) && !IsAlphanumeric(text) && |text| > INT_MAX
    ensures r == Fail(DataTooLong) <==> r != Fail(LengthError) && TooLong(TextContents(text), ecl)
    ensures r.Fail? ==> r.error in {LengthError, DataTooLong}
  {
    hide Encode, IsEncoding, TextContents, NoVersion, IsNumeric, IsAlphanumeric, AllValid;
    var segs := MakeSegments(text);
    if segs.Fail? {
      return Fail(segs.error);
    }
    r := EncodeSegments(segs.value, ecl, 1, 40, -1, true);
  }

  method EncodeBinary(data: seq<nat>, ecl: Ecc) returns (r: Result<QrCode>)
    requires Below(data, 256)
    ensures r.Ok? ==> IsBestEncoding(r.value, [ByteData(data)], ecl)
    ensures r == Fail(LengthError) <==> |data| > INT_MAX
    ensures r == Fail(DataTooLong) <==> r != Fail(LengthError) && TooLong([ByteData(data)], ecl)
    ensures r.Fail? ==> r.error in {LengthError, DataTooLong}
  {
    hide Encode, IsEncoding, NoVersion;
    var seg := MakeBytes(data);
    if seg.Fail? {
      return Fail(seg.error);
    }
    assert seg.value == Encode(ByteData(data));
    assert EncodeAll([ByteData(data)]) == [seg.value];
    r := EncodeSegments([seg.value], ecl, 1, 40, -1, true);
  }
}
