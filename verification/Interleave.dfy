/** Splitting the data codewords into blocks, appending check bytes, and interleaving the blocks.

    Row `i` of the interleaved stream holds byte `i` of every block; the row at which short blocks
    carry a padding byte holds the long blocks only. */
module Interleave {
  import opened ReedSolomon
  import opened Wrappers

  datatype Error = InvalidArgument

  /** The block structure of one version and error correction level. */
  datatype Layout = Layout(raw: nat, blocks: nat, ecc: nat) {
    predicate Valid() {
      blocks > 0 && 1 <= ecc <= 255 && ecc <= raw / blocks
    }

    function Long(): nat
      requires Valid()
    {
      raw % blocks
    }

    function Short(): (n: nat)
      requires Valid()
      ensures 0 < n <= blocks && n + Long() == blocks
    {
      blocks - raw % blocks
    }

    /** Data bytes in a short block; also the row that short blocks pad. */
    function Pad(): nat
      requires Valid()
    {
      raw / blocks - ecc
    }

    function Rows(): nat
      requires Valid()
    {
      raw / blocks + 1
    }

    function DataLen(j: nat): nat
      requires Valid()
    {
      Pad() + if j < Short() then 0 else 1
    }

    /** Index of block `j`'s first byte in the data vector. */
    function Offset(j: nat): nat
      requires Valid()
    {
      if j == 0 then 0 else Offset(j - 1) + DataLen(j - 1)
    }

    function RowLen(i: nat): nat
      requires Valid()
    {
      if i == Pad() then Long() else blocks
    }

    function RowStart(i: nat): nat
      requires Valid()
    {
      if i == 0 then 0 else RowStart(i - 1) + RowLen(i - 1)
    }

    /** The block whose byte stands in column `c` of row `i`. */
    function BlockAt(i: nat, c: nat): nat
      requires Valid()
    {
      if i == Pad() then Short() + c else c
    }

    /** A byte of a block that is not padding. */
    predicate Real(j: nat, i: nat)
      requires Valid()
    {
      j < blocks && i < Rows() && !(i == Pad() && j < Short())
    }

    /** The place of a real byte in the interleaved stream. */
    function Place(j: nat, i: nat): nat
      requires Valid() && Real(j, i)
    {
      RowStart(i) + if i == Pad() then j - Short() else j
    }

    /** The bytes of data that fill the blocks. */
    function DataSize(): int {
      raw - blocks * ecc
    }
  }

  // ---- Sizes ----

  lemma {:induction false} OffsetClosed(l: Layout, j: nat)
    requires l.Valid() && j <= l.blocks
    ensures l.Offset(j) == j * l.Pad() + if j <= l.Short() then 0 else j - l.Short()
  {
    if j > 0 {
      OffsetClosed(l, j - 1);
      assert j * l.Pad() == (j - 1) * l.Pad() + l.Pad();
    }
  }

  lemma {:induction false} RowStartClosed(l: Layout, i: nat)
    requires l.Valid()
    ensures l.RowStart(i) == if i <= l.Pad() then i * l.blocks else (i - 1) * l.blocks + l.Long()
  {
    if i > 0 {
      RowStartClosed(l, i - 1);
      if i - 1 <= l.Pad() {
        assert i * l.blocks == (i - 1) * l.blocks + l.blocks;
      } else {
        assert (i - 1) * l.blocks == (i - 2) * l.blocks + l.blocks;
      }
    }
  }

  lemma Product(n: nat, pad: nat, ecc: nat)
    ensures n * (pad + ecc) == n * pad + n * ecc && n * pad == pad * n
  {
  }

  lemma WholeAndPart(raw: nat, blocks: nat, pad: nat, ecc: nat)
    requires blocks > 0 && pad + ecc == raw / blocks
    ensures raw == blocks * pad + blocks * ecc + raw % blocks
    ensures blocks * pad == pad * blocks && (pad + ecc) * blocks == blocks * pad + blocks * ecc
  {
    Product(blocks, pad, ecc);
    assert raw == blocks * (raw / blocks) + raw % blocks;
  }

  /** The rows hold exactly the raw codewords, the blocks exactly the data. */
  lemma Totals(l: Layout)
    requires l.Valid()
    ensures l.RowStart(l.Rows()) == l.raw
    ensures l.Offset(l.blocks) == l.DataSize()
  {
    RowStartClosed(l, l.Rows());
    OffsetClosed(l, l.blocks);
    hide Layout.RowStart, Layout.Offset;
    WholeAndPart(l.raw, l.blocks, l.Pad(), l.ecc);
  }

  lemma {:induction false} OffsetMonotone(l: Layout, j: nat, k: nat)
    requires l.Valid() && j <= k
    ensures l.Offset(j) <= l.Offset(k)
    decreases k - j
  {
    if j < k {
      OffsetMonotone(l, j, k - 1);
    }
  }

  lemma {:induction false} RowStartMonotone(l: Layout, i: nat, k: nat)
    requires l.Valid() && i <= k
    ensures l.RowStart(i) <= l.RowStart(k)
    decreases k - i
  {
    if i < k {
      RowStartMonotone(l, i, k - 1);
    }
  }

  // ---- Blocks and rows ----

  function BlockData(l: Layout, data: seq<bv8>, j: nat): (d: seq<bv8>)
    requires l.Valid() && j < l.blocks && |data| == l.Offset(l.blocks)
    ensures |d| == l.DataLen(j)
  {
    OffsetMonotone(l, j + 1, l.blocks);
    data[l.Offset(j)..l.Offset(j + 1)]
  }

  function Block(l: Layout, data: seq<bv8>, divisor: Poly, j: nat): (b: seq<bv8>)
    requires l.Valid() && j < l.blocks && |data| == l.Offset(l.blocks) && |divisor| == l.ecc
    ensures |b| == l.Rows()
  {
    var d := BlockData(l, data, j);
    d + (if j < l.Short() then [0] else []) + Remainder(d, divisor)
  }

  function Blocks(l: Layout, data: seq<bv8>, divisor: Poly): (bs: seq<seq<bv8>>)
    requires l.Valid() && |data| == l.Offset(l.blocks) && |divisor| == l.ecc
    ensures |bs| == l.blocks && forall j :: 0 <= j < |bs| ==> |bs[j]| == l.Rows()
  {
    seq(l.blocks, j requires 0 <= j < l.blocks => Block(l, data, divisor, j))
  }

  predicate Shaped(l: Layout, bs: seq<seq<bv8>>) {
    l.Valid() && |bs| == l.blocks && forall j :: 0 <= j < |bs| ==> |bs[j]| == l.Rows()
  }

  function Row(l: Layout, bs: seq<seq<bv8>>, i: nat): seq<bv8>
    requires Shaped(l, bs) && i < l.Rows()
  {
    seq(l.RowLen(i), c requires 0 <= c < l.RowLen(i) => bs[l.BlockAt(i, c)][i])
  }

  function Interleaved(l: Layout, bs: seq<seq<bv8>>, rows: nat): (s: seq<bv8>)
    requires Shaped(l, bs) && rows <= l.Rows()
    ensures |s| == l.RowStart(rows)
  {
    if rows == 0 then [] else Interleaved(l, bs, rows - 1) + Row(l, bs, rows - 1)
  }

  /** The codeword sequence of a data vector. */
  function Codewords(l: Layout, data: seq<bv8>, divisor: Poly): (s: seq<bv8>)
    requires l.Valid() && |data| == l.DataSize() && |divisor| == l.ecc
    ensures |s| == l.raw
  {
    Totals(l);
    Interleaved(l, Blocks(l, data, divisor), l.Rows())
  }

  /** The first half of addEccAndInterleave: cut the data and append check bytes. */
  method SplitIntoBlocks(l: Layout, data: seq<bv8>, rsDiv: Poly) returns (blocks: seq<seq<bv8>>)
    requires l.Valid() && |data| == l.Offset(l.blocks) && |rsDiv| == l.ecc
    ensures blocks == Blocks(l, data, rsDiv)
  {
    hide Remainder;
    var numShortBlocks := l.blocks - l.raw % l.blocks;
    var shortBlockLen := l.raw / l.blocks;
    blocks := [];
    var k := 0;
    for i := 0 to l.blocks
      invariant k == l.Offset(i)
      invariant |blocks| == i && forall j :: 0 <= j < i ==> blocks[j] == Block(l, data, rsDiv, j)
    {
      OffsetMonotone(l, i + 1, l.blocks);
      var dat := data[k..k + (shortBlockLen - l.ecc + if i < numShortBlocks then 0 else 1)];
      assert dat == BlockData(l, data, i);
      k := k + |dat|;
      var ecc := ComputeRemainder(dat, rsDiv);
      if i < numShortBlocks {
        dat := dat + [0];
      }
      dat := dat + ecc;
      blocks := blocks + [dat];
    }
  }

  /** The second half of addEccAndInterleave. */
  method InterleaveBlocks(l: Layout, blocks: seq<seq<bv8>>) returns (result: seq<bv8>)
    requires Shaped(l, blocks)
    ensures result == Interleaved(l, blocks, l.Rows())
  {
    var numShortBlocks := l.blocks - l.raw % l.blocks;
    var shortBlockLen := l.raw / l.blocks;
    result := [];
    for i := 0 to |blocks[0]|
      invariant result == Interleaved(l, blocks, i)
    {
      ghost var done, row := result, Row(l, blocks, i);
      ghost var first := if i == l.Pad() then numShortBlocks else 0;
      for j := 0 to |blocks|
        invariant result == done + row[..if j < first then 0 else j - first]
      {
        if i != shortBlockLen - l.ecc || j >= numShortBlocks {
          result := result + [blocks[j][i]];
          assert row[..j - first] + [row[j - first]] == row[..j + 1 - first];
        }
      }
      assert row[..|blocks| - first] == row;
    }
  }

  /** addEccAndInterleave. */
  method AddEccAndInterleave(l: Layout, data: seq<bv8>) returns (r: Result<seq<bv8>, Error>)
    requires l.Valid()
    ensures r.Ok? <==> |data| == l.DataSize()
    ensures r.Ok? ==>
              exists divisor :: |divisor| == l.ecc && [1] + divisor == Generator(l.ecc) &&
                                r.value == Codewords(l, data, divisor)
  {
    if |data| != l.raw - l.blocks * l.ecc {
      return Err(InvalidArgument);
    }
    Totals(l);
    hide Generator;
    var rsDiv := ComputeDivisor(l.ecc);
    var blocks := SplitIntoBlocks(l, data, rsDiv.value);
    var result := InterleaveBlocks(l, blocks);
    assert result == Codewords(l, data, rsDiv.value);
    r := Ok(result);
  }

  // ---- Reading the stream back ----

  lemma {:induction false} InterleavedAt(l: Layout, bs: seq<seq<bv8>>, rows: nat, i: nat, c: nat)
    requires Shaped(l, bs) && rows <= l.Rows() && i < rows && c < l.RowLen(i)
    ensures l.RowStart(i) + c < l.RowStart(rows)
    ensures Interleaved(l, bs, rows)[l.RowStart(i) + c] == bs[l.BlockAt(i, c)][i]
  {
    RowStartMonotone(l, i + 1, rows);
    if i < rows - 1 {
      InterleavedAt(l, bs, rows - 1, i, c);
    }
  }

  lemma PlaceBound(l: Layout, j: nat, i: nat)
    requires l.Valid() && l.Real(j, i)
    ensures l.Place(j, i) < l.raw
  {
    RowStartMonotone(l, i + 1, l.Rows());
    Totals(l);
  }

  /** The places of two different real bytes differ. */
  lemma PlaceInjective(l: Layout, j: nat, i: nat, j': nat, i': nat)
    requires l.Valid() && l.Real(j, i) && l.Real(j', i')
    requires l.Place(j, i) == l.Place(j', i')
    ensures j == j' && i == i'
  {
    if i < i' {
      RowStartMonotone(l, i + 1, i');
    } else if i' < i {
      RowStartMonotone(l, i' + 1, i);
    }
  }

  /** Bytes stand in the order of their index in the block, and bytes of one index in the order of the blocks. */
  lemma PlacesInOrder(l: Layout, j: nat, i: nat, j': nat, i': nat)
    requires l.Valid() && l.Real(j, i) && l.Real(j', i')
    ensures i < i' || (i == i' && j < j') ==> l.Place(j, i) < l.Place(j', i')
  {
    if i < i' {
      RowStartMonotone(l, i + 1, i');
    }
  }

  /** The short blocks come first, and the blocks follow each other in the data. */
  lemma BlocksInOrder(l: Layout, data: seq<bv8>, j: nat)
    requires l.Valid() && j < l.blocks && |data| == l.Offset(l.blocks)
    ensures |BlockData(l, data, j)| == l.raw / l.blocks - l.ecc + if j < l.blocks - l.raw % l.blocks then 0 else 1
    ensures forall i :: 0 <= i < |BlockData(l, data, j)| ==>
              l.Offset(j) + i < |data| && BlockData(l, data, j)[i] == data[l.Offset(j) + i]
    ensures l.Offset(0) == 0 && l.Offset(j + 1) == l.Offset(j) + |BlockData(l, data, j)|
  {
    OffsetMonotone(l, j + 1, l.blocks);
  }

  lemma {:induction false} FindRow(l: Layout, rows: nat, p: nat) returns (i: nat)
    requires l.Valid() && p < l.RowStart(rows)
    ensures i < rows && l.RowStart(i) <= p < l.RowStart(i + 1)
  {
    if p >= l.RowStart(rows - 1) {
      i := rows - 1;
    } else {
      i := FindRow(l, rows - 1, p);
    }
  }

  /** Every position of the stream is the place of a real byte: padding never appears, and with
      PlaceInjective every real byte appears exactly once. */
  lemma PlaceSurjective(l: Layout, p: nat) returns (j: nat, i: nat)
    requires l.Valid() && p < l.raw
    ensures l.Real(j, i) && l.Place(j, i) == p
  {
    Totals(l);
    i := FindRow(l, l.Rows(), p);
    j := l.BlockAt(i, p - l.RowStart(i));
  }

  lemma CodewordAtPlace(l: Layout, data: seq<bv8>, divisor: Poly, j: nat, i: nat)
    requires l.Valid() && |data| == l.DataSize() && |divisor| == l.ecc && l.Real(j, i)
    ensures l.Place(j, i) < l.raw && |data| == l.Offset(l.blocks)
    ensures Codewords(l, data, divisor)[l.Place(j, i)] == Block(l, data, divisor, j)[i]
  {
    PlaceBound(l, j, i);
    Totals(l);
    InterleavedAt(l, Blocks(l, data, divisor), l.Rows(), i, if i == l.Pad() then j - l.Short() else j);
  }

  /** A reader's view of block `j`: its data bytes, then its check bytes. */
  function ReadBlock(l: Layout, codewords: seq<bv8>, j: nat): (b: seq<bv8>)
    requires l.Valid() && |codewords| == l.raw && j < l.blocks
    ensures |b| == l.DataLen(j) + l.ecc
  {
    seq(l.DataLen(j) + l.ecc, i requires 0 <= i < l.DataLen(j) + l.ecc =>
      var row := if i < l.DataLen(j) then i else i + (l.Pad() + 1 - l.DataLen(j));
      PlaceBound(l, j, row);
      codewords[l.Place(j, row)])
  }

  function ReadData(l: Layout, codewords: seq<bv8>, j: nat): (d: seq<bv8>)
    requires l.Valid() && |codewords| == l.raw && j <= l.blocks
  {
    if j == 0 then [] else ReadData(l, codewords, j - 1) + ReadBlock(l, codewords, j - 1)[..l.DataLen(j - 1)]
  }

  /** De-interleaving recovers each block: its own data followed by the remainder of that data. */
  lemma ReadBlockInverts(l: Layout, data: seq<bv8>, divisor: Poly, j: nat)
    requires l.Valid() && |data| == l.DataSize() && |divisor| == l.ecc && j < l.blocks
    ensures |data| == l.Offset(l.blocks)
    ensures ReadBlock(l, Codewords(l, data, divisor), j) ==
            BlockData(l, data, j) + Remainder(BlockData(l, data, j), divisor)
  {
    hide Remainder, Codewords;
    Totals(l);
    var d := BlockData(l, data, j);
    var want := d + Remainder(d, divisor);
    var got := ReadBlock(l, Codewords(l, data, divisor), j);
    forall i | 0 <= i < |want| ensures got[i] == want[i] {
      var row := if i < l.DataLen(j) then i else i + (l.Pad() + 1 - l.DataLen(j));
      CodewordAtPlace(l, data, divisor, j, row);
    }
  }

  lemma {:induction false} ReadDataPrefix(l: Layout, data: seq<bv8>, divisor: Poly, j: nat)
    requires l.Valid() && |data| == l.DataSize() && |divisor| == l.ecc && j <= l.blocks
    ensures l.Offset(j) <= |data|
    ensures ReadData(l, Codewords(l, data, divisor), j) == data[..l.Offset(j)]
  {
    hide Remainder, Codewords, ReadBlock, Layout.Valid;
    Totals(l);
    OffsetMonotone(l, j, l.blocks);
    if j > 0 {
      ReadDataPrefix(l, data, divisor, j - 1);
      ReadBlockInverts(l, data, divisor, j - 1);
      assert data[..l.Offset(j)] == data[..l.Offset(j - 1)] + BlockData(l, data, j - 1);
    }
  }

  /** De-interleaving inverts interleaving on the whole data vector. */
  lemma ReadDataInverts(l: Layout, data: seq<bv8>, divisor: Poly)
    requires l.Valid() && |data| == l.DataSize() && |divisor| == l.ecc
    ensures ReadData(l, Codewords(l, data, divisor), l.blocks) == data
  {
    Totals(l);
    ReadDataPrefix(l, data, divisor, l.blocks);
  }

  /** Every de-interleaved block is a codeword of the Reed-Solomon code. */
  lemma ReadBlockIsCodeword(l: Layout, data: seq<bv8>, divisor: Poly, j: nat, k: nat)
    requires l.Valid() && |data| == l.DataSize() && j < l.blocks && k < l.ecc
    requires |divisor| == l.ecc && [1] + divisor == Generator(l.ecc)
    ensures Eval(ReadBlock(l, Codewords(l, data, divisor), j), Root(k)) == 0
  {
    ReadBlockInverts(l, data, divisor, j);
    CodewordRoots(BlockData(l, data, j), divisor, k);
  }
}
