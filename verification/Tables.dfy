/** Version and error correction parameters of QR symbols. */
module Tables {

  datatype Ecc = Low | Medium | Quartile | High {
    /** Position in the tables, from weakest to strongest. */
    function Ordinal(): (n: nat)
      ensures n < 4
    {
      match this case Low => 0 case Medium => 1 case Quartile => 2 case High => 3
    }

    /** The two bits that encode the level in the format information. */
    function FormatBits(): (n: nat)
      ensures n < 4
    {
      match this case Low => 1 case Medium => 0 case Quartile => 3 case High => 2
    }
  }

  const MIN_VERSION := 1
  const MAX_VERSION := 40

  /** Modules left for codewords and remainder bits once the function patterns are drawn. */
  function RawDataModules(version: nat): (r: int)
    requires MIN_VERSION <= version <= MAX_VERSION
    ensures 208 <= r <= 29648
  {
    var result := (16 * version + 128) * version + 64;
    if version < 2 then result
    else
      var numAlign := version / 7 + 2;
      result - ((25 * numAlign - 10) * numAlign - 55) - (if version >= 7 then 36 else 0)
  }

  function RawCodewords(version: nat): nat
    requires MIN_VERSION <= version <= MAX_VERSION
  {
    RawDataModules(version) / 8
  }

  /** A level's column of the tables: check codewords per block and number of blocks. */
  datatype Level = Level(ecc: nat, blocks: nat) {
    /** There is a data byte in every block, and a block is shorter than the order of the field. */
    predicate Fits(raw: int) {
      && 1 <= blocks
      && 1 <= ecc <= 30
      && 8 * (blocks * (ecc + 1)) <= raw < 8 * (255 * blocks)
    }
  }

  /** A version's column of ECC_CODEWORDS_PER_BLOCK and NUM_ERROR_CORRECTION_BLOCKS. */
  datatype Row = Row(low: Level, medium: Level, quartile: Level, high: Level) {
    predicate Fits(raw: int) {
      low.Fits(raw) && medium.Fits(raw) && quartile.Fits(raw) && high.Fits(raw)
    }
  }

  function Versions1(version: nat): (r: Row)
    requires 1 <= version <= 10
    ensures r.Fits(RawDataModules(version))
  {
    match version
    case 1 => Row(Level(7, 1), Level(10, 1), Level(13, 1), Level(17, 1))
    case 2 => Row(Level(10, 1), Level(16, 1), Level(22, 1), Level(28, 1))
    case 3 => Row(Level(15, 1), Level(26, 1), Level(18, 2), Level(22, 2))
    case 4 => Row(Level(20, 1), Level(18, 2), Level(26, 2), Level(16, 4))
    case 5 => Row(Level(26, 1), Level(24, 2), Level(18, 4), Level(22, 4))
    case 6 => Row(Level(18, 2), Level(16, 4), Level(24, 4), Level(28, 4))
    case 7 => Row(Level(20, 2), Level(18, 4), Level(18, 6), Level(26, 5))
    case 8 => Row(Level(24, 2), Level(22, 4), Level(22, 6), Level(26, 6))
    case 9 => Row(Level(30, 2), Level(22, 5), Level(20, 8), Level(24, 8))
    case _ => Row(Level(18, 4), Level(26, 5), Level(24, 8), Level(28, 8))
  }

  function Versions11(version: nat): (r: Row)
    requires 11 <= version <= 20
    ensures r.Fits(RawDataModules(version))
  {
    match version
    case 11 => Row(Level(20, 4), Level(30, 5), Level(28, 8), Level(24, 11))
    case 12 => Row(Level(24, 4), Level(22, 8), Level(26, 10), Level(28, 11))
    case 13 => Row(Level(26, 4), Level(22, 9), Level(24, 12), Level(22, 16))
    case 14 => Row(Level(30, 4), Level(24, 9), Level(20, 16), Level(24, 16))
    case 15 => Row(Level(22, 6), Level(24, 10), Level(30, 12), Level(24, 18))
    case 16 => Row(Level(24, 6), Level(28, 10), Level(24, 17), Level(30, 16))
    case 17 => Row(Level(28, 6), Level(28, 11), Level(28, 16), Level(28, 19))
    case 18 => Row(Level(30, 6), Level(26, 13), Level(28, 18), Level(28, 21))
    case 19 => Row(Level(28, 7), Level(26, 14), Level(26, 21), Level(26, 25))
    case _ => Row(Level(28, 8), Level(26, 16), Level(30, 20), Level(28, 25))
  }

  function Versions21(version: nat): (r: Row)
    requires 21 <= version <= 30
    ensures r.Fits(RawDataModules(version))
  {
    match version
    case 21 => Row(Level(28, 8), Level(26, 17), Level(28, 23), Level(30, 25))
    case 22 => Row(Level(28, 9), Level(28, 17), Level(30, 23), Level(24, 34))
    case 23 => Row(Level(30, 9), Level(28, 18), Level(30, 25), Level(30, 30))
    case 24 => Row(Level(30, 10), Level(28, 20), Level(30, 27), Level(30, 32))
    case 25 => Row(Level(26, 12), Level(28, 21), Level(30, 29), Level(30, 35))
    case 26 => Row(Level(28, 12), Level(28, 23), Level(28, 34), Level(30, 37))
    case 27 => Row(Level(30, 12), Level(28, 25), Level(30, 34), Level(30, 40))
    case 28 => Row(Level(30, 13), Level(28, 26), Level(30, 35), Level(30, 42))
    case 29 => Row(Level(30, 14), Level(28, 28), Level(30, 38), Level(30, 45))
    case _ => Row(Level(30, 15), Level(28, 29), Level(30, 40), Level(30, 48))
  }

  function Versions31(version: nat): (r: Row)
    requires 31 <= version <= 35
    ensures r.Fits(RawDataModules(version))
  {
    match version
    case 31 => Row(Level(30, 16), Level(28, 31), Level(30, 43), Level(30, 51))
    case 32 => Row(Level(30, 17), Level(28, 33), Level(30, 45), Level(30, 54))
    case 33 => Row(Level(30, 18), Level(28, 35), Level(30, 48), Level(30, 57))
    case 34 => Row(Level(30, 19), Level(28, 37), Level(30, 51), Level(30, 60))
    case _ => Row(Level(30, 19), Level(28, 38), Level(30, 53), Level(30, 63))
  }

  function Versions36(version: nat): (r: Row)
    requires 36 <= version <= 40
    ensures r.Fits(RawDataModules(version))
  {
    match version
    case 36 => Row(Level(30, 20), Level(28, 40), Level(30, 56), Level(30, 66))
    case 37 => Row(Level(30, 21), Level(28, 43), Level(30, 59), Level(30, 70))
    case 38 => Row(Level(30, 22), Level(28, 45), Level(30, 62), Level(30, 74))
    case 39 => Row(Level(30, 24), Level(28, 47), Level(30, 65), Level(30, 77))
    case _ => Row(Level(30, 25), Level(28, 49), Level(30, 68), Level(30, 81))
  }

  function Versions(version: nat): (r: Row)
    requires MIN_VERSION <= version <= MAX_VERSION
    ensures r.Fits(RawDataModules(version))
  {
    if version <= 10 then Versions1(version)
    else if version <= 20 then Versions11(version)
    else if version <= 30 then Versions21(version)
    else if version <= 35 then Versions31(version)
    else Versions36(version)
  }

  function Parameters(version: nat, ecl: Ecc): (l: Level)
    requires MIN_VERSION <= version <= MAX_VERSION
    ensures l.Fits(RawDataModules(version))
  {
    var r := Versions(version);
    match ecl case Low => r.low case Medium => r.medium case Quartile => r.quartile case High => r.high
  }

  /** Codewords that carry data rather than error correction. */
  function DataCodewords(version: nat, ecl: Ecc): (n: nat)
    requires MIN_VERSION <= version <= MAX_VERSION
    ensures n >= Parameters(version, ecl).blocks
  {
    var l := Parameters(version, ecl);
    BlocksFit(RawDataModules(version), l.ecc, l.blocks);
    RawCodewords(version) - l.ecc * l.blocks
  }

  lemma BlocksFit(raw: int, ecc: nat, blocks: nat)
    requires 8 * (blocks * (ecc + 1)) <= raw
    ensures ecc * blocks + blocks <= raw / 8
  {
    assert blocks * (ecc + 1) == ecc * blocks + blocks;
  }
}
