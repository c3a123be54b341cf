/** A reader of finished symbols, and the round trip of the whole encoder through it. */
module QrReader {
  import opened Interleave
  import opened Format
  import opened FunctionCells
  import opened FreeModules
  import opened Patterns
  import opened Symbol
  import opened QrTables
  import opened Segments
  import opened Wrappers
  import Gf256
  import Distance
  import Penalty
  import ReedSolomon
  import Zigzag

  function ByteOf(b7: bool, b6: bool, b5: bool, b4: bool, b3: bool, b2: bool, b1: bool, b0: bool): bv8 {
    Gf256.Keep(b7, 0x80) | Gf256.Keep(b6, 0x40) | Gf256.Keep(b5, 0x20) | Gf256.Keep(b4, 0x10) |
    Gf256.Keep(b3, 0x08) | Gf256.Keep(b2, 0x04) | Gf256.Keep(b1, 0x02) | Gf256.Keep(b0, 0x01)
  }

  lemma ByteOfBits(b: bv8)
    ensures ByteOf(Gf256.Bit(b, 7), Gf256.Bit(b, 6), Gf256.Bit(b, 5), Gf256.Bit(b, 4),
                   Gf256.Bit(b, 3), Gf256.Bit(b, 2), Gf256.Bit(b, 1), Gf256.Bit(b, 0)) == b
  {
  }

  function BytesOf(bits: seq<bool>, n: nat): (s: seq<bv8>)
    requires |bits| >= 8 * n
    ensures |s| == n
  {
    seq(n, i requires 0 <= i < n =>
      ByteOf(bits[8 * i], bits[8 * i + 1], bits[8 * i + 2], bits[8 * i + 3],
             bits[8 * i + 4], bits[8 * i + 5], bits[8 * i + 6], bits[8 * i + 7]))
  }

  lemma BitOfByte(codewords: seq<bv8>, i: nat, k: nat)
    requires i < |codewords| && k < 8
    ensures Zigzag.CodewordBit(codewords, 8 * i + k) == Gf256.Bit(codewords[i], 7 - k)
  {
    hide Gf256.Bit;
    assert (8 * i + k) / 8 == i && (8 * i + k) % 8 == k;
  }

  /** Assembling bytes inverts taking their bits. */
  lemma BytesOfCodewords(codewords: seq<bv8>, bits: seq<bool>)
    requires |bits| >= 8 * |codewords|
    requires forall i :: 0 <= i < 8 * |codewords| ==> bits[i] == Zigzag.CodewordBit(codewords, i)
    ensures BytesOf(bits, |codewords|) == codewords
  {
    hide Gf256.Bit, ByteOf, Zigzag.CodewordBit;
    forall i | 0 <= i < |codewords| ensures BytesOf(bits, |codewords|)[i] == codewords[i] {
      ByteOfBits(codewords[i]);
      BitOfByte(codewords, i, 0);
      BitOfByte(codewords, i, 1);
      BitOfByte(codewords, i, 2);
      BitOfByte(codewords, i, 3);
      BitOfByte(codewords, i, 4);
      BitOfByte(codewords, i, 5);
      BitOfByte(codewords, i, 6);
      BitOfByte(codewords, i, 7);
    }
  }

  /** The sizes of the forty versions. */
  predicate IsSymbol(grid: Zigzag.Grid) {
    21 <= |grid| <= 177 && |grid| % 4 == 1 && Zigzag.Square(grid, |grid|)
  }

  function VersionOf(grid: Zigzag.Grid): (ver: nat)
    requires IsSymbol(grid)
    ensures ValidVersion(ver) && SizeOf(ver) == |grid|
  {
    (|grid| - 17) / 4
  }

  /** Version from the size, level and mask from the format cells; then unmask, scan, de-interleave,
      and split the data into segments. */
  function ReadSymbol(grid: Zigzag.Grid): Option<seq<Content>> {
    if !IsSymbol(grid) then None
    else
      var ver, n := VersionOf(grid), |grid|;
      var format := ReadFormatData(grid, n);
      ReadWith(grid, ver, LevelOf(format), MaskOf(format))
  }

  /** The codewords of a symbol in the order in which they were drawn; None if it is too small. */
  function Received(grid: Zigzag.Grid, ver: nat, ecl: Ecc, msk: nat): (r: Option<seq<bv8>>)
    requires ValidVersion(ver) && Zigzag.Square(grid, SizeOf(ver))
    ensures r.Some? ==> |r.value| == LayoutOf(ver, ecl).raw
  {
    var n, l, isFunction := SizeOf(ver), LayoutOf(ver, ecl), FunctionGrid(ver);
    var bits := Zigzag.ReadBits(n, isFunction, Masked(grid, isFunction, n, msk));
    if |bits| < 8 * l.raw then None else Some(BytesOf(bits, l.raw))
  }

  /** The data codewords among them, put together from the blocks. */
  function ReceivedData(grid: Zigzag.Grid, ver: nat, ecl: Ecc, msk: nat): Option<seq<bv8>>
    requires ValidVersion(ver) && Zigzag.Square(grid, SizeOf(ver))
  {
    var l, codewords := LayoutOf(ver, ecl), Received(grid, ver, ecl, msk);
    if codewords.None? then None else Some(ReadData(l, codewords.value, l.blocks))
  }

  function ReadWith(grid: Zigzag.Grid, ver: nat, ecl: Ecc, msk: nat): Option<seq<Content>>
    requires ValidVersion(ver) && Zigzag.Square(grid, SizeOf(ver))
  {
    var data := ReceivedData(grid, ver, ecl, msk);
    if data.None? then None else Read(BitsIn(data.value), ver)
  }

  /** Every block of the symbol, data and check bytes, vanishes at all roots of its generator. */
  ghost predicate ChecksVanish(grid: Zigzag.Grid, ver: nat, ecl: Ecc, msk: nat)
    requires ValidVersion(ver) && Zigzag.Square(grid, SizeOf(ver))
  {
    var l, codewords := LayoutOf(ver, ecl), Received(grid, ver, ecl, msk);
    codewords.Some? && forall j :: 0 <= j < l.blocks ==> Distance.Vanishes(ReadBlock(l, codewords.value, j), l.ecc)
  }

  /** The symbol with another mask: the present one undone, the other applied, and its format word stamped. */
  function Remasked(grid: Zigzag.Grid, ver: nat, ecl: Ecc, from: nat, to: nat): (g: Zigzag.Grid)
    requires ValidVersion(ver) && Zigzag.Square(grid, SizeOf(ver)) && to < 8
    ensures Zigzag.Square(g, SizeOf(ver))
  {
    var n, f := SizeOf(ver), FunctionGrid(ver);
    Stamped(Masked(Masked(grid, f, n, from), f, n, to), n, FormatWord(ecl, to), FORMAT_WRITES)
  }

  /** No other mask has a lower penalty, and every lower-numbered one has a higher penalty. */
  ghost predicate LeastPenalty(grid: Zigzag.Grid, ver: nat, ecl: Ecc, msk: nat)
    requires ValidVersion(ver) && Zigzag.Square(grid, SizeOf(ver))
  {
    forall other: nat :: other < 8 ==>
      var penalty := Penalty.Score(Remasked(grid, ver, ecl, msk, other), SizeOf(ver));
      if other < msk then Penalty.Score(grid, SizeOf(ver)) < penalty else Penalty.Score(grid, SizeOf(ver)) <= penalty
  }

  /** An encoding of the contents at a level's exact capacity, as EncodeSegments returns it. */
  ghost predicate Encodes(contents: seq<Content>, e: Encoded) {
    && ValidVersion(e.version)
    && (forall i :: 0 <= i < |contents| ==> Encodable(contents[i]))
    && HoldsStream(SegmentsOf(contents), e)
    && |e.codewords| == DataCodewords(e.version, e.ecl)
  }

  /** The function patterns of every version leave room for all codewords. */
  lemma RoomForCodewords(ver: nat, ecl: Ecc)
    requires ValidVersion(ver)
    ensures 8 * LayoutOf(ver, ecl).raw <= |Zigzag.FreeCells(SizeOf(ver), FunctionGrid(ver))|
  {
    FreeCount(ver);
    TableRelations(ver);
    hide RawDataModules, FunctionGrid;
  }

  lemma FormatCellsAreFunctions(ver: nat)
    requires ValidVersion(ver)
    ensures FormatReserved(FunctionGrid(ver), SizeOf(ver))
  {
    hide FormatCell;
    forall k | 0 <= k < FORMAT_WRITES ensures Zigzag.Inside(SizeOf(ver), FormatCell(SizeOf(ver), k)) {
      FormatCellInside(SizeOf(ver), k);
    }
  }

  /** What is received from a finished symbol are the codewords that were drawn. */
  lemma ReceivedCodewords(
    ver: nat, ecl: Ecc, codewords: seq<bv8>, blank: Zigzag.Grid, drawn: Zigzag.Grid, msk: nat)
    requires ValidVersion(ver) && msk < 8 && |codewords| == LayoutOf(ver, ecl).raw
    requires Zigzag.Square(blank, SizeOf(ver))
    requires Zigzag.DrawnUpTo(SizeOf(ver), FunctionGrid(ver), codewords, blank, drawn, Zigzag.Steps(SizeOf(ver)))
    ensures Zigzag.Square(drawn, SizeOf(ver))
    ensures Received(Candidate(drawn, FunctionGrid(ver), SizeOf(ver), ecl, msk), ver, ecl, msk) == Some(codewords)
  {
    hide Candidate, Masked, Zigzag.DrawnUpTo, Zigzag.FreeCells, LayoutOf, Zigzag.CodewordBit, BytesOf, FormatReserved,
         FunctionGrid;
    var n, isFunction := SizeOf(ver), FunctionGrid(ver);
    RoomForCodewords(ver, ecl);
    FormatCellsAreFunctions(ver);
    FinishedSymbolReadsBack(n, isFunction, codewords, blank, drawn, ecl, msk);
    var bits := Zigzag.ReadBits(n, isFunction, Masked(Candidate(drawn, isFunction, n, ecl, msk), isFunction, n, msk));
    BytesOfCodewords(codewords, bits);
  }

  /** The data codewords of a finished symbol are those that it was made from. */
  lemma DataReceived(e: Encoded, divisor: ReedSolomon.Poly, blank: Zigzag.Grid, drawn: Zigzag.Grid, msk: nat)
    requires ValidVersion(e.version) && |e.codewords| == DataCodewords(e.version, e.ecl) && msk < 8
    requires |divisor| == LayoutOf(e.version, e.ecl).ecc
    requires Zigzag.Square(blank, SizeOf(e.version))
    requires Zigzag.DrawnUpTo(SizeOf(e.version), FunctionGrid(e.version),
                              Codewords(LayoutOf(e.version, e.ecl), e.codewords, divisor),
                              blank, drawn, Zigzag.Steps(SizeOf(e.version)))
    ensures Zigzag.Square(drawn, SizeOf(e.version))
    ensures ReceivedData(Candidate(drawn, FunctionGrid(e.version), SizeOf(e.version), e.ecl, msk),
                         e.version, e.ecl, msk) == Some(e.codewords)
  {
    hide Candidate, Received, Zigzag.DrawnUpTo, Codewords, ReadData, LayoutOf, DataCodewords, FunctionGrid;
    var l := LayoutOf(e.version, e.ecl);
    ReceivedCodewords(e.version, e.ecl, Codewords(l, e.codewords, divisor), blank, drawn, msk);
    ReadDataInverts(l, e.codewords, divisor);
  }

  /** Reading with the right version, level and mask. */
  lemma ReadsBackWith(
    contents: seq<Content>, e: Encoded, divisor: ReedSolomon.Poly, blank: Zigzag.Grid, drawn: Zigzag.Grid, msk: nat)
    requires Encodes(contents, e) && msk < 8
    requires |divisor| == LayoutOf(e.version, e.ecl).ecc
    requires Zigzag.Square(blank, SizeOf(e.version))
    requires Zigzag.DrawnUpTo(SizeOf(e.version), FunctionGrid(e.version),
                              Codewords(LayoutOf(e.version, e.ecl), e.codewords, divisor),
                              blank, drawn, Zigzag.Steps(SizeOf(e.version)))
    ensures Zigzag.Square(drawn, SizeOf(e.version))
    ensures ReadWith(Candidate(drawn, FunctionGrid(e.version), SizeOf(e.version), e.ecl, msk), e.version, e.ecl, msk)
            == Some(contents)
  {
    hide Read, BitsIn, Candidate, ReceivedData, Zigzag.DrawnUpTo, Codewords, LayoutOf, HoldsStream,
         DataCodewords, SegmentsOf, Encodable, FunctionGrid;
    DataReceived(e, divisor, blank, drawn, msk);
    EncodedReadsBack(contents, e);
  }

  /** The check bytes of a finished symbol are those of its data. */
  lemma FinishedChecks(e: Encoded, divisor: ReedSolomon.Poly, blank: Zigzag.Grid, drawn: Zigzag.Grid, msk: nat)
    requires ValidVersion(e.version) && |e.codewords| == DataCodewords(e.version, e.ecl) && msk < 8
    requires var l := LayoutOf(e.version, e.ecl);
             |divisor| == l.ecc && [1] + divisor == ReedSolomon.Generator(l.ecc)
    requires Zigzag.Square(blank, SizeOf(e.version))
    requires Zigzag.DrawnUpTo(SizeOf(e.version), FunctionGrid(e.version),
                              Codewords(LayoutOf(e.version, e.ecl), e.codewords, divisor),
                              blank, drawn, Zigzag.Steps(SizeOf(e.version)))
    ensures Zigzag.Square(drawn, SizeOf(e.version))
    ensures ChecksVanish(Candidate(drawn, FunctionGrid(e.version), SizeOf(e.version), e.ecl, msk),
                         e.version, e.ecl, msk)
  {
    hide Candidate, Received, Zigzag.DrawnUpTo, Codewords, LayoutOf, DataCodewords, FunctionGrid, ReadBlock,
         ReedSolomon.Eval, ReedSolomon.Root, ReedSolomon.Generator;
    var l := LayoutOf(e.version, e.ecl);
    var codewords := Codewords(l, e.codewords, divisor);
    ReceivedCodewords(e.version, e.ecl, codewords, blank, drawn, msk);
    forall j, k | 0 <= j < l.blocks && 0 <= k < l.ecc
      ensures ReedSolomon.Eval(ReadBlock(l, codewords, j), ReedSolomon.Root(k)) == 0
    {
      ReadBlockIsCodeword(l, e.codewords, divisor, j, k);
    }
  }

  /** Changing the mask of a candidate gives the other candidate. */
  lemma RemaskedCandidate(drawn: Zigzag.Grid, ver: nat, ecl: Ecc, from: nat, to: nat)
    requires ValidVersion(ver) && Zigzag.Square(drawn, SizeOf(ver)) && from < 8 && to < 8
    ensures var n, f := SizeOf(ver), FunctionGrid(ver);
            Remasked(Candidate(drawn, f, n, ecl, from), ver, ecl, from, to) == Candidate(drawn, f, n, ecl, to)
  {
    hide FunctionGrid, Masked, Stamped, FormatWord, SameButFormat;
    var n, f := SizeOf(ver), FunctionGrid(ver);
    FormatCellsAreFunctions(ver);
    CandidateUnmasks(drawn, f, n, ecl, from);
    CandidateIgnoresFormat(Masked(Candidate(drawn, f, n, ecl, from), f, n, from), drawn, f, n, ecl, to);
  }

  lemma BestCandidate(drawn: Zigzag.Grid, ver: nat, ecl: Ecc, msk: nat)
    requires ValidVersion(ver) && Zigzag.Square(drawn, SizeOf(ver)) && msk < 8
    requires FirstBest(drawn, FunctionGrid(ver), SizeOf(ver), ecl, msk, 8)
    ensures LeastPenalty(Candidate(drawn, FunctionGrid(ver), SizeOf(ver), ecl, msk), ver, ecl, msk)
  {
    hide FunctionGrid, Candidate, Remasked, Penalty.Score;
    var n, f := SizeOf(ver), FunctionGrid(ver);
    forall other: nat | other < 8
      ensures Remasked(Candidate(drawn, f, n, ecl, msk), ver, ecl, msk, other) == Candidate(drawn, f, n, ecl, other)
    {
      RemaskedCandidate(drawn, ver, ecl, msk, other);
    }
    assert forall i: nat :: i < 8 ==>
      CandidateScore(drawn, f, n, ecl, i) == Penalty.Score(Candidate(drawn, f, n, ecl, i), n);
  }

  lemma CandidateIsSymbol(drawn: Zigzag.Grid, ver: nat, ecl: Ecc, msk: nat)
    requires ValidVersion(ver) && Zigzag.Square(drawn, SizeOf(ver)) && msk < 8
    ensures var grid := Candidate(drawn, FunctionGrid(ver), SizeOf(ver), ecl, msk);
            |grid| == SizeOf(ver) && IsSymbol(grid) && VersionOf(grid) == ver
  {
    hide FunctionGrid, Candidate;
  }

  /** From segments to a finished symbol and back: whatever mask was chosen, a reader of the grid alone
      recovers every segment's mode, length and text. */
  lemma SymbolReadsBack(
    contents: seq<Content>, e: Encoded, divisor: ReedSolomon.Poly, blank: Zigzag.Grid, drawn: Zigzag.Grid, msk: nat)
    requires Encodes(contents, e) && msk < 8
    requires |divisor| == LayoutOf(e.version, e.ecl).ecc
    requires Zigzag.Square(blank, SizeOf(e.version))
    requires Zigzag.DrawnUpTo(SizeOf(e.version), FunctionGrid(e.version),
                              Codewords(LayoutOf(e.version, e.ecl), e.codewords, divisor),
                              blank, drawn, Zigzag.Steps(SizeOf(e.version)))
    ensures Zigzag.Square(drawn, SizeOf(e.version))
    ensures ReadSymbol(Candidate(drawn, FunctionGrid(e.version), SizeOf(e.version), e.ecl, msk)) == Some(contents)
  {
    hide ReadWith, ReadFormatData, Masked, Stamped, LevelOf, MaskOf, FormatWord, FunctionGrid, Encodes,
         Zigzag.DrawnUpTo, Codewords,
         LayoutOf, Zigzag.Square;
    ReadsBackWith(contents, e, divisor, blank, drawn, msk);
    CandidateIsSymbol(drawn, e.version, e.ecl, msk);
    var n, isFunction := SizeOf(e.version), FunctionGrid(e.version);
    FormatReadsBack(Masked(drawn, isFunction, n, msk), n, e.ecl, msk);
  }

  // ---- Correction ----

  /** The blocks of every symbol are short enough for the distance of their code: a received block with
      at most half as many wrong bytes as it has check bytes is near to no codeword but the true one. */
  lemma BlockIsCorrectable(
    ver: nat, ecl: Ecc, data: seq<bv8>, divisor: ReedSolomon.Poly, j: nat, received: seq<bv8>, other: seq<bv8>)
    requires ValidVersion(ver)
    requires var l := LayoutOf(ver, ecl);
             |data| == l.DataSize() && |divisor| == l.ecc && [1] + divisor == ReedSolomon.Generator(l.ecc) &&
                 j < l.blocks
    requires var l := LayoutOf(ver, ecl); var sent := ReadBlock(l, Codewords(l, data, divisor), j);
             && |received| == |other| == |sent| && Distance.Vanishes(other, l.ecc)
             && 2 * |Distance.Diff(sent, received)| <= l.ecc && 2 * |Distance.Diff(other, received)| <= l.ecc
    ensures var l := LayoutOf(ver, ecl); other == ReadBlock(l, Codewords(l, data, divisor), j)
  {
    BlocksAreShort(ver, ecl);
    hide LayoutOf, ReedSolomon.Eval, ReedSolomon.Root, Codewords, ReedSolomon.Generator;
    var l := LayoutOf(ver, ecl);
    var sent := ReadBlock(l, Codewords(l, data, divisor), j);
    forall k | 0 <= k < l.ecc ensures ReedSolomon.Eval(sent, ReedSolomon.Root(k)) == 0 {
      ReadBlockIsCodeword(l, data, divisor, j, k);
    }
    Distance.CorrectionIsUnique(sent, other, received, l.ecc);
  }

  lemma BlocksAreShort(ver: nat, ecl: Ecc)
    requires ValidVersion(ver)
    ensures LayoutOf(ver, ecl).Rows() <= 154
  {
    TableRelations(ver);
    hide BlockCounts, EccPerBlock, RawDataModules;
    BlockLength(RawDataModules(ver) / 8, BlockCounts(ver).Get(ecl), 154);
  }

  // ---- The constructor ----

  datatype Error = DomainError | WrongLength

  lemma DrawnIsSquare(n: nat, f: Zigzag.Grid, data: seq<bv8>, blank: Zigzag.Grid, drawn: Zigzag.Grid)
    requires Zigzag.ValidSize(n) && Zigzag.Square(f, n) && Zigzag.Square(blank, n)
    requires Zigzag.DrawnUpTo(n, f, data, blank, drawn, Zigzag.Steps(n))
    ensures Zigzag.Square(drawn, n)
  {
  }

  /** Drawing data and masking leaves every function pattern as it was, with the final format word. */
  lemma PatternsStay(data: seq<bv8>, blank: Zigzag.Grid, drawn: Zigzag.Grid, ver: nat, ecl: Ecc, msk: nat)
    requires ValidVersion(ver) && msk < 8 && AllDrawn(blank, ver, FormatWord(ecl, 0))
    requires Zigzag.Square(blank, SizeOf(ver)) && 8 * |data| <= |Zigzag.FreeCells(SizeOf(ver), FunctionGrid(ver))|
    requires Zigzag.DrawnUpTo(SizeOf(ver), FunctionGrid(ver), data, blank, drawn, Zigzag.Steps(SizeOf(ver)))
    ensures Zigzag.Square(drawn, SizeOf(ver))
    ensures AllDrawn(Candidate(drawn, FunctionGrid(ver), SizeOf(ver), ecl, msk), ver, FormatWord(ecl, msk))
  {
    hide AllDrawn, Zigzag.DrawnUpTo, Zigzag.FreeCells, FormatWord, IsFunctionCell, Invert, Stamped;
    var n, f := SizeOf(ver), FunctionGrid(ver);
    Zigzag.ReadInvertsDraw(n, f, data, blank, drawn);
    DrawnIsSquare(n, f, data, blank, drawn);
    var m := Masked(drawn, f, n, msk);
    forall c: Zigzag.Cell | Zigzag.Inside(n, c) && IsFunctionCell(ver, c)
      ensures Zigzag.At(m, c) == Zigzag.At(blank, c)
    {
    }
    StampAgain(blank, m, ver, FormatWord(ecl, 0), FormatWord(ecl, msk));
  }

  /** What a finished symbol must be: all patterns, the mask that was asked for or else the best one, the
      data with their check bytes, and a text for every reader of the grid. */
  ghost predicate Finished(qr: QrCode, e: Encoded, msk: int)
    requires ValidVersion(e.version)
    reads qr
  {
    && qr.Valid() && qr.version == e.version && qr.errorCorrectionLevel == e.ecl
    && 0 <= qr.mask <= 7 && (msk >= 0 ==> qr.mask == msk)
    && (msk == -1 ==> LeastPenalty(qr.modules, e.version, e.ecl, qr.mask))
    && AllDrawn(qr.modules, e.version, FormatWord(e.ecl, qr.mask))
    && ReceivedData(qr.modules, e.version, e.ecl, qr.mask) == Some(e.codewords)
    && ChecksVanish(qr.modules, e.version, e.ecl, qr.mask)
    && forall contents :: Encodes(contents, e) ==> ReadSymbol(qr.modules) == Some(contents)
  }

  /** The constructor: version and mask are checked, then patterns, codewords and mask are drawn. */
  method BuildSymbol(e: Encoded, msk: int) returns (r: Result<QrCode, Error>)
    ensures r == Err(DomainError) <==> !ValidVersion(e.version) || msk < -1 || msk > 7
    ensures r.Ok? <==> ValidVersion(e.version) && -1 <= msk <= 7 && |e.codewords| == DataCodewords(e.version, e.ecl)
    ensures r.Ok? ==> fresh(r.value) && Finished(r.value, e, msk)
  {
    hide HoldsStream, Zigzag.FreeCells, Candidate, FormatReserved, Codewords, ReadSymbol, Zigzag.DrawnUpTo,
         Encodes, SegmentsOf, DataCodewords, FirstBest, AllDrawn, FunctionGrid, FormatWord, RawDataModules,
         ChecksVanish, LeastPenalty, ReceivedData;
    if !ValidVersion(e.version) || msk < -1 || msk > 7 {
      return Err(DomainError);
    }
    var qr := new QrCode(e.version, e.ecl);
    qr.DrawFunctionPatterns();
    ghost var blank := qr.modules;
    var l := LayoutOf(e.version, e.ecl);
    var all := AddEccAndInterleave(l, e.codewords);
    if all.Err? {
      return Err(WrongLength);
    }
    ghost var divisor :| |divisor| == l.ecc && [1] + divisor == ReedSolomon.Generator(l.ecc) &&
                         all.value == Codewords(l, e.codewords, divisor);
    RoomForCodewords(e.version, e.ecl);
    FormatCellsAreFunctions(e.version);
    var _, _ := qr.DrawCodewords(all.value);
    ghost var drawn := qr.modules;
    qr.ChooseMask(msk);
    PatternsStay(all.value, blank, drawn, e.version, e.ecl, qr.mask);
    DataReceived(e, divisor, blank, drawn, qr.mask);
    FinishedChecks(e, divisor, blank, drawn, qr.mask);
    if msk == -1 {
      BestCandidate(drawn, e.version, e.ecl, qr.mask);
    }
    forall contents | Encodes(contents, e) ensures ReadSymbol(qr.modules) == Some(contents) {
      SymbolReadsBack(contents, e, divisor, blank, drawn, qr.mask);
    }
    return Ok(qr);
  }

  /** encodeSegments as a whole: the least version, the boosted level, and a finished symbol that a reader
      turns back into the contents. */
  method EncodeToSymbol(contents: seq<Content>, ecl: Ecc, minVersion: int, maxVersion: int, mask: int, boostEcl: bool)
    returns (r: Option<QrCode>)
    requires forall i :: 0 <= i < |contents| ==> Encodable(contents[i])
    ensures r.None? <==>
            !(MIN_VERSION <= minVersion <= maxVersion <= MAX_VERSION) || mask < -1 || mask > 7 ||
            forall v :: minVersion <= v <= maxVersion ==> !Fits(SegmentsOf(contents), v, ecl)
    ensures r.Some? ==>
              var qr, segs := r.value, SegmentsOf(contents);
              && fresh(qr) && minVersion <= qr.version <= maxVersion && Fits(segs, qr.version, ecl)
              && (forall v :: minVersion <= v < qr.version ==> !Fits(segs, v, ecl))
              && BoostedLevel(|Stream(segs, qr.version)|, qr.version, ecl, boostEcl, qr.errorCorrectionLevel)
    ensures r.Some? ==>
              && (exists codewords ::
                    var e := Encoded(r.value.version, r.value.errorCorrectionLevel, codewords);
                    Encodes(contents, e) && Finished(r.value, e, mask))
              && ReadSymbol(r.value.modules) == Some(contents)
  {
    hide ReadSymbol, Encodable, HoldsStream, BoostedLevel, Fits, AllDrawn, DataCodewords, SegmentsOf, LeastPenalty,
         ChecksVanish, Stream, ReceivedData;
    var encoded := EncodeSegments(SegmentsOf(contents), ecl, minVersion, maxVersion, mask, boostEcl);
    if encoded.Err? {
      return None;
    }
    var e := encoded.value;
    assert Encodes(contents, e);
    var symbol := BuildSymbol(e, mask);
    var qr := symbol.value;
    assert e == Encoded(qr.version, qr.errorCorrectionLevel, e.codewords);
    return Some(qr);
  }
}
