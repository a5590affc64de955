/** Splitting the data codewords into blocks, adding error correction to each block, and
    interleaving the blocks; with the reader that takes the codewords apart again. */
module Interleave {
  import opened GaloisField
  import opened Polynomial
  import opened ReedSolomon
  import opened Wrappers

  /** The block structure of a symbol: raw codewords in all, in blocks blocks with ecc check
      codewords each.  The last raw % blocks blocks are one codeword longer than the others. */
  datatype Layout = Layout(raw: nat, blocks: nat, ecc: nat) {
    ghost predicate Valid() {
      blocks >= 1 && ecc <= raw / blocks
    }

    function NumShort(): (n: nat)
      requires blocks >= 1
      ensures 1 <= n <= blocks
    {
      blocks - raw % blocks
    }

    /** Data codewords of a short block. */
    function ShortData(): (n: nat)
      requires Valid()
    {
      raw / blocks - ecc
    }

    function DataLength(i: nat): nat
      requires Valid()
    {
      ShortData() + if i < NumShort() then 0 else 1
    }

    /** Data codewords before block i. */
    function Offset(i: nat): (n: nat)
      requires Valid()
    {
      if i == 0 then 0 else Offset(i - 1) + DataLength(i - 1)
    }

    /** Codewords of a block in the interleaving table, where short blocks are padded. */
    function Rows(): nat
      requires Valid()
    {
      raw / blocks + 1
    }

    /** Codewords before row c of the interleaving table. */
    function RowStart(c: nat): int
      requires Valid()
    {
      c * blocks - if c <= ShortData() then 0 else NumShort()
    }

    /** First block with an entry in row c: the padding of short blocks is skipped. */
    function RowFirst(c: nat): (j: nat)
      requires Valid()
      ensures j <= blocks
    {
      if c == ShortData() then NumShort() else 0
    }
  }

  // ---------- block lengths ----------

  lemma {:induction false} OffsetClosed(l: Layout, i: nat)
    requires l.Valid()
    ensures l.Offset(i) == i * l.ShortData() + if i <= l.NumShort() then 0 else i - l.NumShort()
  {
    if i > 0 {
      OffsetClosed(l, i - 1);
      assert i * l.ShortData() == (i - 1) * l.ShortData() + l.ShortData();
    }
  }

  /** The blocks' data lengths add up to the data length of the symbol, and the rows of the
      interleaving table to all its codewords. */
  lemma LengthsAddUp(l: Layout)
    requires l.Valid()
    ensures l.Offset(l.blocks) == l.raw - l.blocks * l.ecc
    ensures l.RowStart(l.Rows()) == l.raw
  {
    OffsetClosed(l, l.blocks);
    var q, r, b := l.raw / l.blocks, l.raw % l.blocks, l.blocks;
    assert l.raw == b * q + r;
    assert b * (q - l.ecc) == b * q - b * l.ecc;
    assert (q + 1) * b == b * q + b;
  }

  lemma {:induction false} OffsetMono(l: Layout, i: nat, j: nat)
    requires l.Valid() && i <= j
    ensures l.Offset(i) <= l.Offset(j)
  {
    if i < j {
      OffsetMono(l, i, j - 1);
    }
  }

  // ---------- blocks ----------

  /** The data codewords of block i. */
  function BlockData(data: seq<Byte>, l: Layout, i: nat): (d: seq<Byte>)
    requires l.Valid() && i < l.blocks && |data| == l.Offset(l.blocks)
    ensures |d| == l.DataLength(i)
  {
    OffsetMono(l, i + 1, l.blocks);
    data[l.Offset(i)..l.Offset(i + 1)]
  }

  /** Block i as a column of the interleaving table: data, padding if short, check codewords. */
  function Column(data: seq<Byte>, l: Layout, i: nat): (b: seq<Byte>)
    requires l.Valid() && i < l.blocks && |data| == l.Offset(l.blocks) && l.ecc > 0
    ensures |b| == l.Rows()
  {
    var d := BlockData(data, l, i);
    d + (if i < l.NumShort() then [ZERO] else []) + Remainder(d, Divisor(l.ecc))
  }

  function Columns(data: seq<Byte>, l: Layout): (t: seq<seq<Byte>>)
    requires l.Valid() && |data| == l.Offset(l.blocks) && l.ecc > 0
    ensures |t| == l.blocks && forall j | 0 <= j < l.blocks :: t[j] == Column(data, l, j)
  {
    seq(l.blocks, i requires 0 <= i < l.blocks => Column(data, l, i))
  }

  // ---------- interleaving ----------

  ghost predicate IsTable(t: seq<seq<Byte>>, l: Layout) {
    l.Valid() && |t| == l.blocks && forall j | 0 <= j < |t| :: |t[j]| == l.Rows()
  }

  /** Row c from block first on. */
  function Row(t: seq<seq<Byte>>, l: Layout, c: nat, first: nat): (r: seq<Byte>)
    requires IsTable(t, l) && c < l.Rows() && first <= l.blocks
    ensures |r| == l.blocks - first
    ensures forall k | 0 <= k < |r| :: r[k] == t[first + k][c]
  {
    seq(l.blocks - first, k requires 0 <= k < l.blocks - first => t[first + k][c])
  }

  /** The first n rows of the table, read row by row without the padding. */
  function Interleaved(t: seq<seq<Byte>>, l: Layout, n: nat): (r: seq<Byte>)
    requires IsTable(t, l) && n <= l.Rows()
  {
    if n == 0 then [] else Interleaved(t, l, n - 1) + Row(t, l, n - 1, l.RowFirst(n - 1))
  }

  lemma {:induction false} InterleavedLength(t: seq<seq<Byte>>, l: Layout, n: nat)
    requires IsTable(t, l) && n <= l.Rows()
    ensures |Interleaved(t, l, n)| == l.RowStart(n)
  {
    if n > 0 {
      InterleavedLength(t, l, n - 1);
      assert n * l.blocks == (n - 1) * l.blocks + l.blocks;
    }
  }

  /** Where each entry of the table ends up. */
  lemma {:induction false} InterleavedAt(t: seq<seq<Byte>>, l: Layout, n: nat, c: nat, j: nat)
    requires IsTable(t, l) && c < n <= l.Rows() && l.RowFirst(c) <= j < l.blocks
    ensures 0 <= l.RowStart(c) + j - l.RowFirst(c) < |Interleaved(t, l, n)|
    ensures Interleaved(t, l, n)[l.RowStart(c) + j - l.RowFirst(c)] == t[j][c]
  {
    InterleavedLength(t, l, n - 1);
    if c < n - 1 {
      InterleavedAt(t, l, n - 1, c, j);
    }
  }

  // ---------- taking the codewords apart ----------

  /** Entry (block j, row c) of the table, found in the interleaved codewords. */
  function Entry(cw: seq<Byte>, l: Layout, j: nat, c: nat): Byte
    requires l.Valid() && |cw| == l.raw && j < l.blocks && c < l.Rows() && l.RowFirst(c) <= j
  {
    EntryInRange(l, j, c);
    cw[l.RowStart(c) + j - l.RowFirst(c)]
  }

  lemma EntryInRange(l: Layout, j: nat, c: nat)
    requires l.Valid() && j < l.blocks && c < l.Rows() && l.RowFirst(c) <= j
    ensures 0 <= l.RowStart(c) + j - l.RowFirst(c) < l.raw
  {
    var b := l.blocks;
    LengthsAddUp(l);
    RowStartMono(l, c + 1, l.Rows());
    assert (c + 1) * b == c * b + b;
    if c > l.ShortData() {
      assert c * b >= b;
    } else {
      assert c * b >= 0;
    }
  }

  lemma {:induction false} RowStartMono(l: Layout, c: nat, d: nat)
    requires l.Valid() && c <= d
    ensures l.RowStart(c) <= l.RowStart(d)
  {
    if c < d {
      RowStartMono(l, c, d - 1);
      assert d * l.blocks == (d - 1) * l.blocks + l.blocks;
    }
  }

  /** Data codewords of block j as received. */
  function ReadData(cw: seq<Byte>, l: Layout, j: nat): (d: seq<Byte>)
    requires l.Valid() && |cw| == l.raw && j < l.blocks
    ensures |d| == l.DataLength(j)
  {
    seq(l.DataLength(j), c requires 0 <= c < l.DataLength(j) => Entry(cw, l, j, c))
  }

  /** Check codewords of block j as received. */
  function ReadEcc(cw: seq<Byte>, l: Layout, j: nat): (d: seq<Byte>)
    requires l.Valid() && |cw| == l.raw && j < l.blocks
    ensures |d| == l.ecc
  {
    seq(l.ecc, c requires 0 <= c < l.ecc => Entry(cw, l, j, l.ShortData() + 1 + c))
  }

  /** The data codewords of the first n blocks, in order. */
  function Deinterleaved(cw: seq<Byte>, l: Layout, n: nat): (d: seq<Byte>)
    requires l.Valid() && |cw| == l.raw && n <= l.blocks
  {
    if n == 0 then [] else Deinterleaved(cw, l, n - 1) + ReadData(cw, l, n - 1)
  }

  /** All that the encoder writes: the columns of the table, read by rows. */
  function AllCodewords(data: seq<Byte>, l: Layout): (cw: seq<Byte>)
    requires l.Valid() && |data| == l.Offset(l.blocks) && l.ecc > 0
    ensures |cw| == l.raw
  {
    var cw := Interleaved(Columns(data, l), l, l.Rows());
    InterleavedLength(Columns(data, l), l, l.Rows());
    LengthsAddUp(l);
    cw
  }

  lemma EntryOfCodewords(data: seq<Byte>, l: Layout, j: nat, c: nat)
    requires l.Valid() && |data| == l.Offset(l.blocks) && l.ecc > 0
    requires j < l.blocks && c < l.Rows() && l.RowFirst(c) <= j
    ensures Entry(AllCodewords(data, l), l, j, c) == Column(data, l, j)[c]
  {
    hide Column, Interleaved;
    InterleavedAt(Columns(data, l), l, l.Rows(), c, j);
  }

  /** Each block is recovered: its data, and the remainder that makes it a codeword. */
  lemma BlockRoundTrip(data: seq<Byte>, l: Layout, j: nat)
    requires l.Valid() && |data| == l.Offset(l.blocks) && l.ecc > 0 && j < l.blocks
    ensures var cw := AllCodewords(data, l);
      && ReadData(cw, l, j) == BlockData(data, l, j)
      && ReadEcc(cw, l, j) == Remainder(BlockData(data, l, j), Divisor(l.ecc))
  {
    hide Remainder, Divisor, AllCodewords, Entry;
    var cw, d := AllCodewords(data, l), BlockData(data, l, j);
    var r := Remainder(d, Divisor(l.ecc));
    forall c | 0 <= c < l.DataLength(j)
      ensures ReadData(cw, l, j)[c] == d[c]
    {
      EntryOfCodewords(data, l, j, c);
    }
    forall c | 0 <= c < l.ecc
      ensures ReadEcc(cw, l, j)[c] == r[c]
    {
      EntryOfCodewords(data, l, j, l.ShortData() + 1 + c);
    }
  }

  /** Lengths said without division: s data codewords in each of the first short blocks, one more in the others. */
  ghost predicate Splits(l: Layout, s: nat, short: nat) {
    1 <= short <= l.blocks && l.raw == l.blocks * (s + l.ecc) + (l.blocks - short)
  }

  lemma SplitsAre(l: Layout, s: nat, short: nat)
    requires Splits(l, s, short)
    ensures l.Valid() && l.ShortData() == s && l.NumShort() == short && l.Rows() == s + l.ecc + 1
    ensures l.raw - l.blocks * l.ecc == s * l.blocks + l.blocks - short
  {
    assert l.blocks * (s + l.ecc) == s * l.blocks + l.blocks * l.ecc;
    QuotientIs(l.raw, l.blocks, s + l.ecc, l.blocks - short);
  }

  lemma QuotientIs(n: nat, b: nat, q: nat, r: nat)
    requires n == b * q + r && r < b
    ensures n / b == q && n % b == r
  {
    var p := n / b;
    assert n == b * p + n % b;
    assert b * (p - q) == r - n % b;
    SmallMultiple(b, p - q);
  }

  lemma SmallMultiple(b: int, d: int)
    requires -b < b * d < b
    ensures d == 0
  {}

  /** Where block j starts and ends. */
  lemma BlockBounds(data: seq<Byte>, l: Layout, s: nat, short: nat, j: nat)
    requires Splits(l, s, short) && l.Valid() && j < l.blocks && |data| == l.Offset(l.blocks)
    ensures |data| == l.raw - l.blocks * l.ecc
    ensures l.Offset(j) == j * s + (if j <= short then 0 else j - short)
    ensures l.Offset(j + 1) == l.Offset(j) + s + (if j < short then 0 else 1) <= |data|
  {
    hide Layout.Offset, Layout.ShortData, Layout.NumShort, Splits;
    SplitsAre(l, s, short);
    OffsetClosed(l, j);
    NextOffset(l, j);
    OffsetMono(l, j + 1, l.blocks);
    LengthsAddUp(l);
  }

  /** The blocks' k-th data codewords stand side by side, row after row. */
  lemma DataPlace(data: seq<Byte>, l: Layout, s: nat, short: nat, j: nat, k: nat, i: nat)
    requires Splits(l, s, short) && l.Valid() && j < l.blocks && |data| == l.Offset(l.blocks) && l.ecc > 0
    requires k < s && i == k * l.blocks + j
    ensures i < l.raw && l.Offset(j) + k < |data| && AllCodewords(data, l)[i] == data[l.Offset(j) + k]
  {
    hide Layout.Offset, Layout.ShortData, Layout.NumShort, Splits, Remainder, Divisor, AllCodewords;
    SplitsAre(l, s, short);
    BlockBounds(data, l, s, short, j);
    EntryInRange(l, j, k);
    EntryOfCodewords(data, l, j, k);
  }

  /** After them stand the last data codewords of the longer blocks. */
  lemma ExtraPlace(data: seq<Byte>, l: Layout, s: nat, short: nat, j: nat, i: nat)
    requires Splits(l, s, short) && l.Valid() && j < l.blocks && |data| == l.Offset(l.blocks) && l.ecc > 0
    requires short <= j && i == s * l.blocks + j - short
    ensures i < l.raw && l.Offset(j) + s < |data| && AllCodewords(data, l)[i] == data[l.Offset(j) + s]
  {
    hide Layout.Offset, Layout.ShortData, Layout.NumShort, Splits, Remainder, Divisor, AllCodewords;
    SplitsAre(l, s, short);
    BlockBounds(data, l, s, short, j);
    EntryInRange(l, j, s);
    EntryOfCodewords(data, l, j, s);
  }

  /** And then the check codewords, again row after row. */
  lemma CheckPlace(data: seq<Byte>, l: Layout, s: nat, short: nat, j: nat, k: nat, i: nat)
    requires Splits(l, s, short) && l.Valid() && j < l.blocks && |data| == l.Offset(l.blocks) && l.ecc > 0
    requires k < l.ecc && i == |data| + k * l.blocks + j
    ensures i < l.raw && l.Offset(j) <= l.Offset(j + 1) <= |data|
    ensures AllCodewords(data, l)[i] == Remainder(data[l.Offset(j)..l.Offset(j + 1)], Divisor(l.ecc))[k]
  {
    hide Layout.Offset, Layout.ShortData, Layout.NumShort, Remainder, Divisor, AllCodewords, Splits, Layout.RowStart,
      Layout.RowFirst, Layout.Rows, Column;
    SplitsAre(l, s, short);
    BlockBounds(data, l, s, short, j);
    CheckRow(l, s, short, k);
    EntryInRange(l, j, s + 1 + k);
    EntryOfCodewords(data, l, j, s + 1 + k);
    ColumnCheck(data, l, j, k);
    BlockSlice(data, l, j);
  }

  lemma CheckRow(l: Layout, s: nat, short: nat, k: nat)
    requires Splits(l, s, short)
    ensures l.Valid() && l.RowFirst(s + 1 + k) == 0
    ensures l.RowStart(s + 1 + k) == l.raw - l.blocks * l.ecc + k * l.blocks
  {
    hide Layout.ShortData, Layout.NumShort, Splits;
    SplitsAre(l, s, short);
    assert (s + 1 + k) * l.blocks == s * l.blocks + l.blocks + k * l.blocks;
  }

  lemma ColumnCheck(data: seq<Byte>, l: Layout, j: nat, k: nat)
    requires l.Valid() && j < l.blocks && |data| == l.Offset(l.blocks) && 0 < l.ecc && k < l.ecc
    ensures Column(data, l, j)[l.ShortData() + 1 + k] == Remainder(BlockData(data, l, j), Divisor(l.ecc))[k]
  {
    hide Remainder, Divisor, Layout.Offset, BlockData;
  }

  lemma NextOffset(l: Layout, j: nat)
    requires l.Valid()
    ensures l.Offset(j + 1) == l.Offset(j) + l.DataLength(j)
  {}

  lemma {:induction false} DeinterleavePrefix(data: seq<Byte>, l: Layout, n: nat)
    requires l.Valid() && |data| == l.Offset(l.blocks) && l.ecc > 0 && n <= l.blocks
    ensures l.Offset(n) <= |data|
    ensures Deinterleaved(AllCodewords(data, l), l, n) == data[..l.Offset(n)]
  {
    hide *;
    OffsetMono(l, n, l.blocks);
    var cw := AllCodewords(data, l);
    if n == 0 {
      NoBlocks(cw, l);
    } else {
      DeinterleavePrefix(data, l, n - 1);
      BlockRoundTrip(data, l, n - 1);
      BlockSlice(data, l, n - 1);
      NextBlock(cw, l, n);
      SliceJoin(data, l.Offset(n - 1), l.Offset(n));
    }
  }

  lemma NoBlocks(cw: seq<Byte>, l: Layout)
    requires l.Valid() && |cw| == l.raw
    ensures Deinterleaved(cw, l, 0) == [] && l.Offset(0) == 0
  {}

  lemma NextBlock(cw: seq<Byte>, l: Layout, n: nat)
    requires l.Valid() && |cw| == l.raw && 0 < n <= l.blocks
    ensures Deinterleaved(cw, l, n) == Deinterleaved(cw, l, n - 1) + ReadData(cw, l, n - 1)
  {}

  lemma BlockSlice(data: seq<Byte>, l: Layout, i: nat)
    requires l.Valid() && i < l.blocks && |data| == l.Offset(l.blocks)
    ensures l.Offset(i) <= l.Offset(i + 1) <= |data|
    ensures BlockData(data, l, i) == data[l.Offset(i)..l.Offset(i + 1)]
  {
    OffsetMono(l, i + 1, l.blocks);
  }

  lemma SliceJoin(data: seq<Byte>, a: nat, b: nat)
    requires a <= b <= |data|
    ensures data[..a] + data[a..b] == data[..b]
  {}

  /** Interleaving loses nothing: the data comes back whole. */
  lemma InterleaveRoundTrip(data: seq<Byte>, l: Layout)
    requires l.Valid() && |data| == l.Offset(l.blocks) && l.ecc > 0
    ensures Deinterleaved(AllCodewords(data, l), l, l.blocks) == data
  {
    hide AllCodewords, Deinterleaved;
    DeinterleavePrefix(data, l, l.blocks);
    assert data[..|data|] == data;
  }

  /** Every block of a symbol is a codeword of the Reed-Solomon code. */
  lemma BlocksAreCodewords(data: seq<Byte>, l: Layout, j: nat)
    requires l.Valid() && |data| == l.Offset(l.blocks) && l.ecc > 0 && j < l.blocks && l.raw / l.blocks < 255
    ensures var cw := AllCodewords(data, l); IsCodeword(ReadData(cw, l, j) + ReadEcc(cw, l, j), l.ecc)
  {
    hide Remainder, Divisor, AllCodewords, ReadData, ReadEcc, IsCodeword;
    BlockRoundTrip(data, l, j);
    var d := BlockData(data, l, j);
    CheckSymbolsUnique(d, Remainder(d, Divisor(l.ecc)), l.ecc);
  }

  /** Block j as received: data, then check codewords. */
  function ReadBlock(cw: seq<Byte>, l: Layout, j: nat): (b: seq<Byte>)
    requires l.Valid() && |cw| == l.raw && j < l.blocks
    ensures |b| == l.DataLength(j) + l.ecc
  {
    ReadData(cw, l, j) + ReadEcc(cw, l, j)
  }

  /** received differs from the codewords of data in at most half of ecc places in every block. */
  ghost predicate Near(received: seq<Byte>, data: seq<Byte>, l: Layout)
    requires l.Valid() && |received| == l.raw && |data| == l.Offset(l.blocks) && l.ecc > 0
  {
    forall j: nat | j < l.blocks ::
      2 * |Differences(ReadBlock(received, l, j), ReadBlock(AllCodewords(data, l), l, j))| <= l.ecc
  }

  /** A symbol damaged that little still determines its data. */
  lemma DamageCorrectable(received: seq<Byte>, d1: seq<Byte>, d2: seq<Byte>, l: Layout)
    requires l.Valid() && |received| == l.raw && |d1| == |d2| == l.Offset(l.blocks) && l.ecc > 0
    requires l.raw / l.blocks < 255 && Near(received, d1, l) && Near(received, d2, l)
    ensures d1 == d2
  {
    hide AllCodewords, Deinterleaved, Layout.Offset, ReadData, ReadEcc, IsCodeword;
    var c1, c2 := AllCodewords(d1, l), AllCodewords(d2, l);
    forall j: nat | j < l.blocks
      ensures ReadData(c1, l, j) == ReadData(c2, l, j)
    {
      BlocksAreCodewords(d1, l, j);
      BlocksAreCodewords(d2, l, j);
      UniqueDecoding(ReadBlock(received, l, j), ReadBlock(c1, l, j), ReadBlock(c2, l, j), l.ecc);
      var n := l.DataLength(j);
      assert ReadBlock(c1, l, j)[..n] == ReadData(c1, l, j) && ReadBlock(c2, l, j)[..n] == ReadData(c2, l, j);
    }
    SameBlocks(c1, c2, l, l.blocks);
    InterleaveRoundTrip(d1, l);
    InterleaveRoundTrip(d2, l);
  }

  lemma {:induction false} SameBlocks(a: seq<Byte>, b: seq<Byte>, l: Layout, n: nat)
    requires l.Valid() && |a| == |b| == l.raw && n <= l.blocks
    requires forall j: nat | j < n :: ReadData(a, l, j) == ReadData(b, l, j)
    ensures Deinterleaved(a, l, n) == Deinterleaved(b, l, n)
  {
    hide ReadData;
    if n > 0 {
      SameBlocks(a, b, l, n - 1);
    }
  }

  // ---------- the encoder ----------

  /** The check against the expected length and the one on the result are both modelled; the
      second never fires. */
  method AddEccAndInterleave(data: seq<Byte>, l: Layout) returns (r: Result<seq<Byte>>)
    requires l.Valid()
    ensures r == if |data| != l.raw - l.ecc * l.blocks then Fail(InvalidArgument)
                 else if l.ecc < 1 || l.ecc > 255 then Fail(DomainError)
                 else (LengthsAddUp(l); Ok(AllCodewords(data, l)))
  {
    LengthsAddUp(l);
    assert l.blocks * l.ecc == l.ecc * l.blocks;
    hide Layout.Offset, Layout.RowStart, Interleaved, Column, Divisor;
    if |data| != l.raw - l.ecc * l.blocks {
      return Fail(InvalidArgument);
    }
    var rsDiv := ComputeDivisor(l.ecc);
    if rsDiv.Fail? {
      return Fail(rsDiv.error);
    }
    var table := SplitIntoBlocks(data, l, rsDiv.value);
    var result := InterleaveBlocks(table, l);
    InterleavedLength(table, l, l.Rows());
    if |result| != l.raw {
      assert false;
    }
    r := Ok(result);
  }

  /** Reads the table row by row, skipping the padding byte of short blocks. */
  method InterleaveBlocks(table: seq<seq<Byte>>, l: Layout) returns (result: seq<Byte>)
    requires IsTable(table, l)
    ensures result == Interleaved(table, l, l.Rows())
  {
    hide Interleaved, PartialRow, Row;
    var numShortBlocks := l.NumShort();
    var shortBlockLen := l.raw / l.blocks;
    result := [];
    InterleavedStart(table, l);
    for i := 0 to |table[0]|
      invariant result == Interleaved(table, l, i)
    {
      PartialRowEnds(table, l, i);
      for j := 0 to |table|
        invariant result == Interleaved(table, l, i) + PartialRow(table, l, i, j)
      {
        PartialRowNext(table, l, i, j);
        if i != shortBlockLen - l.ecc || j >= numShortBlocks {
          result := result + [table[j][i]];
        }
      }
      InterleavedNext(table, l, i);
    }
  }

  /** The entries of row c that come from the first n blocks. */
  function PartialRow(t: seq<seq<Byte>>, l: Layout, c: nat, n: nat): (r: seq<Byte>)
    requires IsTable(t, l) && c < l.Rows() && n <= l.blocks
  {
    var first := l.RowFirst(c);
    if n <= first then [] else Row(t, l, c, first)[..n - first]
  }

  lemma PartialRowNext(t: seq<seq<Byte>>, l: Layout, c: nat, n: nat)
    requires IsTable(t, l) && c < l.Rows() && n < l.blocks
    ensures PartialRow(t, l, c, n + 1) == PartialRow(t, l, c, n) + if n < l.RowFirst(c) then [] else [t[n][c]]
  {
    hide Row;
  }

  lemma PartialRowEnds(t: seq<seq<Byte>>, l: Layout, c: nat)
    requires IsTable(t, l) && c < l.Rows()
    ensures PartialRow(t, l, c, 0) == [] && PartialRow(t, l, c, l.blocks) == Row(t, l, c, l.RowFirst(c))
  {
    hide Row;
  }

  lemma InterleavedNext(t: seq<seq<Byte>>, l: Layout, n: nat)
    requires IsTable(t, l) && n < l.Rows()
    ensures Interleaved(t, l, n + 1) == Interleaved(t, l, n) + Row(t, l, n, l.RowFirst(n))
  {}

  lemma InterleavedStart(t: seq<seq<Byte>>, l: Layout)
    requires IsTable(t, l)
    ensures Interleaved(t, l, 0) == []
  {}

  method SplitIntoBlocks(data: seq<Byte>, l: Layout, rsDiv: Poly) returns (table: seq<seq<Byte>>)
    requires l.Valid() && |data| == l.Offset(l.blocks) && l.ecc > 0 && rsDiv == Divisor(l.ecc)
    ensures table == Columns(data, l)
  {
    hide Divisor, Remainder;
    table := [];
    var k := 0;
    for i := 0 to l.blocks
      invariant k == l.Offset(i)
      invariant table == Columns(data, l)[..i]
    {
      BlockSlice(data, l, i);
      var dat := data[k..k + l.raw / l.blocks - l.ecc + if i < l.NumShort() then 0 else 1];
      k := k + |dat|;
      var check := ComputeRemainder(dat, rsDiv);
      var ecc := check.value;
      if i < l.NumShort() {
        dat := dat + [ZERO];
      }
      dat := dat + ecc;
      table := table + [dat];
      assert dat == Column(data, l, i);
    }
  }
}
