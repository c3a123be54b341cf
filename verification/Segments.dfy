/** Segments of text, the data bit stream of a symbol, and the choice of version and level.

    The specification side is a reader: from the padded bit stream it recovers the mode, the length
    and the text of every segment. */
module Segments {
  import opened BitStream
  import opened Format
  import opened QrTables
  import opened Wrappers
  import Zigzag
  import Gf256

  const INT_MAX := 0x7FFF_FFFF

  datatype Error = UnencodableCharacter | DataTooLong | InvalidValue

  datatype Mode = NUMERIC | ALPHANUMERIC | BYTE {
    function ModeBits(): nat {
      match this
      case NUMERIC => 1
      case ALPHANUMERIC => 2
      case BYTE => 4
    }

    /** numCharCountBits. */
    function CountBits(ver: nat): nat {
      var k := (ver + 7) / 17;
      match this
      case NUMERIC => if k == 0 then 10 else if k == 1 then 12 else 14
      case ALPHANUMERIC => if k == 0 then 9 else if k == 1 then 11 else 13
      case BYTE => if k == 0 then 8 else 16
    }

    function Code(): (c: Coding)
      ensures c.Valid()
    {
      match this
      case NUMERIC => Coding(10, 3, 3)
      case ALPHANUMERIC => Coding(45, 2, 5)
      case BYTE => Coding(256, 1, 7)
    }
  }

  type Octet = n: nat | n < 256

  /** What a caller wants to store in one segment. */
  datatype Content = NumericText(text: string) | AlphanumericText(text: string) | Octets(data: seq<Octet>)

  datatype Segment = Segment(mode: Mode, numChars: nat, data: seq<bool>)

  const ALPHANUMERIC_CHARSET := "0123456789" + "ABCDEFGHIJKLMNOPQRSTUVWXYZ" + " $%*+-./:"

  predicate IsDigit(c: char) {
    '0' <= c <= '9'
  }

  /** strchr on the alphanumeric character set, from position `k`. */
  function CharsetIndex(c: char, k: nat): (i: Option<nat>)
    ensures i.Some? ==> i.value < |ALPHANUMERIC_CHARSET| && ALPHANUMERIC_CHARSET[i.value] == c
    decreases |ALPHANUMERIC_CHARSET| - k
  {
    if k >= |ALPHANUMERIC_CHARSET| then None
    else if ALPHANUMERIC_CHARSET[k] == c then Some(k)
    else CharsetIndex(c, k + 1)
  }

  lemma CharsetSize()
    ensures |ALPHANUMERIC_CHARSET| == 45
  {
  }

  predicate IsAlphanumericChar(c: char) {
    CharsetIndex(c, 0).Some?
  }

  function ModeOf(c: Content): Mode {
    match c
    case NumericText(_) => NUMERIC
    case AlphanumericText(_) => ALPHANUMERIC
    case Octets(_) => BYTE
  }

  predicate Encodable(c: Content) {
    match c
    case NumericText(s) => forall i :: 0 <= i < |s| ==> IsDigit(s[i])
    case AlphanumericText(s) => forall i :: 0 <= i < |s| ==> IsAlphanumericChar(s[i])
    case Octets(d) => |d| <= INT_MAX
  }

  function DigitSymbol(c: char): nat {
    if IsDigit(c) then c as int - '0' as int else 0
  }

  function CharsetSymbol(c: char): (n: nat)
    ensures n < 45
  {
    CharsetSize();
    if CharsetIndex(c, 0).Some? then CharsetIndex(c, 0).value else 0
  }

  lemma CharsetSymbolIs(c: char)
    ensures IsAlphanumericChar(c) <==> CharsetIndex(c, 0).Some?
    ensures IsAlphanumericChar(c) ==> CharsetSymbol(c) == CharsetIndex(c, 0).value
  {
  }

  function Symbols(c: Content): (s: seq<nat>)
    ensures Digits(ModeOf(c).Code().base, s)
  {
    match c
    case NumericText(t) => seq(|t|, i requires 0 <= i < |t| => DigitSymbol(t[i]))
    case AlphanumericText(t) => seq(|t|, i requires 0 <= i < |t| => CharsetSymbol(t[i]))
    case Octets(d) => seq(|d|, i requires 0 <= i < |d| => d[i])
  }

  /** The segment that holds a given content. */
  function SegmentOf(c: Content): Segment {
    Segment(ModeOf(c), |Symbols(c)|, Pack(ModeOf(c).Code(), Symbols(c)))
  }

  /** The reader's translation of symbol values back to content. */
  function ContentOf(mode: Mode, s: seq<nat>): Content
    requires Digits(mode.Code().base, s)
  {
    CharsetSize();
    match mode
    case NUMERIC => NumericText(seq(|s|, i requires 0 <= i < |s| => (s[i] + '0' as int) as char))
    case ALPHANUMERIC => AlphanumericText(seq(|s|, i requires 0 <= i < |s| => ALPHANUMERIC_CHARSET[s[i]]))
    case BYTE => Octets(seq(|s|, i requires 0 <= i < |s| => s[i] as Octet))
  }

  lemma ContentOfSymbols(c: Content)
    requires Encodable(c)
    ensures ContentOf(ModeOf(c), Symbols(c)) == c
  {
    match c
    case NumericText(t) =>
      assert ContentOf(NUMERIC, Symbols(c)).text == t;
    case AlphanumericText(t) =>
      forall i | 0 <= i < |t| ensures ContentOf(ALPHANUMERIC, Symbols(c)).text[i] == t[i] {
        assert IsAlphanumericChar(t[i]);
      }
      assert ContentOf(ALPHANUMERIC, Symbols(c)).text == t;
    case Octets(d) =>
      assert ContentOf(BYTE, Symbols(c)).data == d;
  }

  // ---- Making segments ----

  /** One character joins the accumulated group; a full group moves to the packed part. */
  lemma Accumulate(c: Coding, s: seq<nat>, k: nat, pending: nat)
    requires c.Valid() && Digits(c.base, s) && pending < c.group && pending <= k < |s| && (k - pending) % c.group == 0
    ensures NumberOf(c.base, s[k - pending..k + 1]) == NumberOf(c.base, s[k - pending..k]) * c.base + s[k]
    ensures pending + 1 == c.group ==>
              var number := NumberOf(c.base, s[k - pending..k + 1]);
              && number < Pow2(c.Width(c.group))
              && Pack(c, s[..k + 1]) == Pack(c, s[..k - pending]) + BitsOf(number, c.Width(c.group))
  {
    hide BitsOf, Pack, Pow2, Coding.Width;
    var g := s[k - pending..k + 1];
    assert g[..pending] == s[k - pending..k];
    if pending + 1 == c.group {
      FullGroup(c, s[..k - pending], g);
      assert s[..k + 1] == s[..k - pending] + g;
    }
  }

  lemma FullGroup(c: Coding, p: seq<nat>, g: seq<nat>)
    requires c.Valid() && Digits(c.base, g) && |g| == c.group && |p| % c.group == 0
    ensures NumberOf(c.base, g) < Pow2(c.Width(c.group))
    ensures Pack(c, p + g) == Pack(c, p) + BitsOf(NumberOf(c.base, g), c.Width(c.group))
  {
    hide BitsOf, NumberOf;
    GroupFits(c, g);
    PackAppend(c, p, g);
    assert Pack(c, []) == [];
    assert g[..c.group] == g && g[c.group..] == [];
  }

  /** The group left over at the end. */
  lemma Leftover(c: Coding, s: seq<nat>, pending: nat)
    requires c.Valid() && Digits(c.base, s) && pending < c.group && pending <= |s| && (|s| - pending) % c.group == 0
    ensures var number := NumberOf(c.base, s[|s| - pending..]);
            && number < Pow2(c.Width(pending)) && c.Width(pending) <= 31
            && Pack(c, s) == Pack(c, s[..|s| - pending]) + BitsOf(number, c.Width(pending))
  {
    hide BitsOf, NumberOf, Pow2;
    var g := s[|s| - pending..];
    GroupFits(c, g);
    PackAppend(c, s[..|s| - pending], g);
    assert s == s[..|s| - pending] + g;
  }

  lemma EmptyPack(c: Coding)
    requires c.Valid()
    ensures Pack(c, []) == [] && NumberOf(c.base, []) == 0
  {
  }

  method MakeNumeric(digits: string) returns (r: Result<Segment, Error>)
    ensures r.Ok? <==> Encodable(NumericText(digits))
    ensures r.Ok? ==> r.value == SegmentOf(NumericText(digits))
  {
    hide Pack, NumberOf, BitsOf, Pow2;
    ghost var c := NUMERIC.Code();
    ghost var s := Symbols(NumericText(digits));
    var bb := new BitBuffer();
    var accumData, accumCount, charCount := 0, 0, 0;
    EmptyPack(c);
    assert s[..0] == [];
    while charCount < |digits|
      invariant 0 <= charCount <= |digits| && fresh(bb)
      invariant forall i :: 0 <= i < charCount ==> IsDigit(digits[i])
      invariant accumCount < 3 && accumCount <= charCount && (charCount - accumCount) % 3 == 0
      invariant accumData == NumberOf(10, s[charCount - accumCount..charCount])
      invariant bb.bits == Pack(c, s[..charCount - accumCount])
    {
      var ch := digits[charCount];
      if ch < '0' || ch > '9' {
        return Err(UnencodableCharacter);
      }
      Accumulate(c, s, charCount, accumCount);
      accumData := accumData * 10 + (ch as int - '0' as int);
      accumCount := accumCount + 1;
      if accumCount == 3 {
        var _ := bb.AppendBits(accumData, 10);
        accumData := 0;
        accumCount := 0;
        assert s[charCount + 1..charCount + 1] == [];
      }
      charCount := charCount + 1;
    }
    Leftover(c, s, accumCount);
    assert charCount == |s| && s[|s| - accumCount..] == s[charCount - accumCount..charCount];
    if accumCount > 0 {
      var _ := bb.AppendBits(accumData, accumCount * 3 + 1);
    } else {
      assert s[..|s|] == s;
    }
    return Ok(Segment(NUMERIC, charCount, bb.bits));
  }

  method MakeAlphanumeric(text: string) returns (r: Result<Segment, Error>)
    ensures r.Ok? <==> Encodable(AlphanumericText(text))
    ensures r.Ok? ==> r.value == SegmentOf(AlphanumericText(text))
  {
    hide Pack, NumberOf, BitsOf, Pow2, CharsetIndex, CharsetSymbol, IsAlphanumericChar;
    ghost var c := ALPHANUMERIC.Code();
    ghost var s := Symbols(AlphanumericText(text));
    var bb := new BitBuffer();
    var accumData, accumCount, charCount := 0, 0, 0;
    EmptyPack(c);
    assert s[..0] == [];
    while charCount < |text|
      invariant 0 <= charCount <= |text| && fresh(bb)
      invariant forall i :: 0 <= i < charCount ==> IsAlphanumericChar(text[i])
      invariant accumCount < 2 && accumCount <= charCount && (charCount - accumCount) % 2 == 0
      invariant accumData == NumberOf(45, s[charCount - accumCount..charCount])
      invariant bb.bits == Pack(c, s[..charCount - accumCount])
    {
      var temp := CharsetIndex(text[charCount], 0);
      CharsetSymbolIs(text[charCount]);
      if temp.None? {
        return Err(UnencodableCharacter);
      }
      Accumulate(c, s, charCount, accumCount);
      accumData := accumData * 45 + temp.value;
      accumCount := accumCount + 1;
      if accumCount == 2 {
        var _ := bb.AppendBits(accumData, 11);
        accumData := 0;
        accumCount := 0;
        assert s[charCount + 1..charCount + 1] == [];
      }
      charCount := charCount + 1;
    }
    Leftover(c, s, accumCount);
    assert charCount == |s| && s[|s| - accumCount..] == s[charCount - accumCount..charCount];
    if accumCount > 0 {
      var _ := bb.AppendBits(accumData, 6);
    } else {
      assert s[..|s|] == s;
    }
    return Ok(Segment(ALPHANUMERIC, charCount, bb.bits));
  }

  method MakeBytes(data: seq<Octet>) returns (r: Result<Segment, Error>)
    ensures r.Ok? <==> Encodable(Octets(data))
    ensures r.Ok? ==> r.value == SegmentOf(Octets(data))
  {
    hide Pack, NumberOf, BitsOf, Pow2;
    if |data| > INT_MAX {
      return Err(DataTooLong);
    }
    ghost var c := BYTE.Code();
    ghost var s := Symbols(Octets(data));
    var bb := new BitBuffer();
    EmptyPack(c);
    assert s[..0] == [];
    for i := 0 to |data|
      invariant fresh(bb) && bb.bits == Pack(c, s[..i])
    {
      Accumulate(c, s, i, 0);
      assert s[i..i] == [];
      var _ := bb.AppendBits(data[i], 8);
    }
    assert s[..|s|] == s;
    return Ok(Segment(BYTE, |data|, bb.bits));
  }

  // ---- The bit stream ----

  function SegmentBits(seg: Segment, ver: nat): seq<bool> {
    BitsOf(seg.mode.ModeBits(), 4) + BitsOf(seg.numChars, seg.mode.CountBits(ver)) + seg.data
  }

  function Stream(segs: seq<Segment>, ver: nat): seq<bool> {
    if segs == [] then [] else SegmentBits(segs[0], ver) + Stream(segs[1..], ver)
  }

  lemma {:induction false} StreamPush(segs: seq<Segment>, s: Segment, ver: nat)
    ensures Stream(segs + [s], ver) == Stream(segs, ver) + SegmentBits(s, ver)
  {
    hide SegmentBits;
    if segs == [] {
      assert segs + [s] == [s] && [s][1..] == [];
    } else {
      StreamPush(segs[1..], s, ver);
      assert (segs + [s])[1..] == segs[1..] + [s];
    }
  }

  /** Every segment's length fits the field of its mode. */
  predicate CountsFit(segs: seq<Segment>, ver: nat) {
    forall i :: 0 <= i < |segs| ==> segs[i].numChars < Pow2(segs[i].mode.CountBits(ver))
  }

  /** getTotalBits; None stands for -1. */
  method GetTotalBits(segs: seq<Segment>, version: nat) returns (r: Option<nat>)
    ensures r == TotalBits(segs, version)
  {
    hide SegmentBits, Pow2;
    var result := 0;
    assert segs[..0] == [];
    for i := 0 to |segs|
      invariant CountsFit(segs[..i], version) && result == |Stream(segs[..i], version)| <= INT_MAX
    {
      var seg := segs[i];
      assert segs[..i + 1] == segs[..i] + [seg];
      StreamPush(segs[..i], seg, version);
      StreamPrefix(segs, i + 1, version);
      SegmentLength(seg, version);
      var ccbits := seg.mode.CountBits(version);
      if seg.numChars >= Pow2(ccbits) {
        return None;
      }
      if 4 + ccbits > INT_MAX - result {
        return None;
      }
      result := result + (4 + ccbits);
      if |seg.data| > INT_MAX - result {
        return None;
      }
      result := result + |seg.data|;
    }
    assert segs[..|segs|] == segs;
    r := Some(result);
  }

  lemma SegmentLength(seg: Segment, ver: nat)
    ensures |SegmentBits(seg, ver)| == 4 + seg.mode.CountBits(ver) + |seg.data|
  {
  }

  lemma {:induction false} StreamPrefix(segs: seq<Segment>, k: nat, ver: nat)
    requires k <= |segs|
    ensures |Stream(segs[..k], ver)| <= |Stream(segs, ver)|
    decreases |segs|
  {
    if k == |segs| {
      assert segs[..k] == segs;
    } else {
      var n := |segs| - 1;
      StreamPush(segs[..n], segs[n], ver);
      assert segs == segs[..n] + [segs[n]] && segs[..n][..k] == segs[..k];
      StreamPrefix(segs[..n], k, ver);
    }
  }

  function TotalBits(segs: seq<Segment>, ver: nat): Option<nat> {
    if CountsFit(segs, ver) && |Stream(segs, ver)| <= INT_MAX then Some(|Stream(segs, ver)|) else None
  }

  predicate Fits(segs: seq<Segment>, ver: nat, ecl: Ecc)
    requires MIN_VERSION <= ver <= MAX_VERSION
  {
    TotalBits(segs, ver).Some? && TotalBits(segs, ver).value <= 8 * DataCodewords(ver, ecl)
  }

  // ---- Padding ----

  /** `n` pad bytes, alternately 0xEC and 0x11, the first 0x11 when `odd`. */
  function PadBytes(n: nat, odd: bool): (b: seq<bool>)
    ensures |b| == 8 * n
  {
    if n == 0 then [] else BitsOf(if odd then 0x11 else 0xEC, 8) + PadBytes(n - 1, !odd)
  }

  function Terminator(used: nat, capacity: nat): (n: nat)
    requires used <= capacity
    ensures used + n <= capacity
  {
    if capacity - used < 4 then capacity - used else 4
  }

  function Padding(used: nat, capacity: nat): (b: seq<bool>)
    requires used <= capacity && capacity % 8 == 0
    ensures used + |b| == capacity
  {
    var t := used + Terminator(used, capacity);
    var u := t + (8 - t % 8) % 8;
    BitsOf(0, Terminator(used, capacity)) + BitsOf(0, u - t) + PadBytes((capacity - u) / 8, false)
  }

  // ---- The reader ----

  /** Where one segment of a stream lies and what its header says. */
  datatype Header = Header(mode: Mode, count: nat, start: nat, end: nat)

  /** The header at the front of a stream; None if it is malformed or the stream is too short. */
  function ReadHeader(bits: seq<bool>, ver: nat): (h: Option<Header>)
    requires |bits| >= 4
    ensures h.Some? ==>
              4 <= h.value.start <= h.value.end <= |bits| &&
              h.value.end - h.value.start == PackedLength(h.value.mode.Code(), h.value.count)
  {
    var mode := ReadMode(ValueOf(bits[..4]));
    if mode.None? then None
    else
      var start := 4 + mode.value.CountBits(ver);
      if |bits| < start then None
      else
        var count := ValueOf(bits[4..start]);
        var end := start + PackedLength(mode.value.Code(), count);
        if |bits| < end then None else Some(Header(mode.value, count, start, end))
  }

  function Prepend(c: Content, rest: Option<seq<Content>>): Option<seq<Content>> {
    if rest.None? then None else Some([c] + rest.value)
  }

  /** Splits a data bit stream back into segment contents; None for a malformed stream. */
  function Read(bits: seq<bool>, ver: nat): Option<seq<Content>>
    decreases |bits|
  {
    if |bits| < 4 || ValueOf(bits[..4]) == 0 then Some([])
    else
      var h := ReadHeader(bits, ver);
      if h.None? then None
      else
        var payload := bits[h.value.start..h.value.end];
        Prepend(ContentOf(h.value.mode, Unpack(h.value.mode.Code(), payload, h.value.count)),
            Read(bits[h.value.end..], ver))
  }

  function ReadMode(v: nat): Option<Mode> {
    if v == 1 then Some(NUMERIC) else if v == 2 then Some(ALPHANUMERIC) else if v == 4 then Some(BYTE) else None
  }

  function SegmentsOf(contents: seq<Content>): (segs: seq<Segment>)
    ensures |segs| == |contents|
  {
    seq(|contents|, i requires 0 <= i < |contents| => SegmentOf(contents[i]))
  }

  lemma CountWidth(mode: Mode, ver: nat)
    ensures mode.CountBits(ver) <= 31 && mode.ModeBits() < Pow2(4)
  {
    Powers();
  }

  /** The reader finds the header that the encoder wrote. */
  lemma HeaderOf(seg: Segment, ver: nat, tail: seq<bool>)
    requires seg.numChars < Pow2(seg.mode.CountBits(ver))
    requires |seg.data| == PackedLength(seg.mode.Code(), seg.numChars)
    ensures var bits, start := SegmentBits(seg, ver) + tail, 4 + seg.mode.CountBits(ver);
            && |bits| >= 4 && ValueOf(bits[..4]) == seg.mode.ModeBits()
            && ReadHeader(bits, ver) == Some(Header(seg.mode, seg.numChars, start, start + |seg.data|))
            && bits[start..start + |seg.data|] == seg.data
            && bits[start + |seg.data|..] == tail
  {
    hide BitsOf, ValueOf, Pow2, PackedLength;
    var cc := seg.mode.CountBits(ver);
    var bits := SegmentBits(seg, ver) + tail;
    var head, count := BitsOf(seg.mode.ModeBits(), 4), BitsOf(seg.numChars, cc);
    assert bits == head + count + seg.data + tail;
    assert bits[..4] == head;
    assert bits[4..4 + cc] == count;
    assert bits[4 + cc..4 + cc + |seg.data|] == seg.data;
    CountWidth(seg.mode, ver);
    ValueOfBits(seg.mode.ModeBits(), 4);
    ValueOfBits(seg.numChars, cc);
    assert ReadMode(seg.mode.ModeBits()) == Some(seg.mode);
  }

  lemma ReadOne(c: Content, ver: nat, tail: seq<bool>)
    requires Encodable(c) && SegmentOf(c).numChars < Pow2(ModeOf(c).CountBits(ver))
    ensures Read(SegmentBits(SegmentOf(c), ver) + tail, ver) == Prepend(c, Read(tail, ver))
  {
    hide Pack, Unpack, ValueOf, Pow2, Symbols, PackedLength, Encodable, ReadHeader, SegmentBits, ContentOf, Prepend;
    var seg, mode := SegmentOf(c), ModeOf(c);
    UnpackPack(mode.Code(), Symbols(c));
    ContentOfSymbols(c);
    HeaderOf(seg, ver, tail);
    assert mode.ModeBits() != 0;
  }

  /** A reader recovers every segment of a stream, whatever stops it afterwards. */
  lemma {:induction false} ReadStream(contents: seq<Content>, ver: nat, tail: seq<bool>)
    requires forall i :: 0 <= i < |contents| ==> Encodable(contents[i])
    requires CountsFit(SegmentsOf(contents), ver)
    requires Read(tail, ver) == Some([])
    ensures Read(Stream(SegmentsOf(contents), ver) + tail, ver) == Some(contents)
    decreases |contents|
  {
    hide Read, SegmentBits, SegmentOf, Pow2, Encodable;
    if contents == [] {
      assert Stream([], ver) + tail == tail;
    } else {
      var segs := SegmentsOf(contents);
      assert segs[1..] == SegmentsOf(contents[1..]);
      assert CountsFit(segs[1..], ver);
      ReadStream(contents[1..], ver, tail);
      var rest := Stream(segs[1..], ver) + tail;
      assert Stream(segs, ver) + tail == SegmentBits(segs[0], ver) + rest;
      assert SegmentOf(contents[0]).mode == ModeOf(contents[0]) by { SegmentMode(contents[0]); }
      assert segs[0] == SegmentOf(contents[0]);
      ReadOne(contents[0], ver, rest);
      assert [contents[0]] + contents[1..] == contents;
    }
  }

  lemma SegmentMode(c: Content)
    ensures SegmentOf(c).mode == ModeOf(c)
  {
  }

  lemma PaddingStopsReader(used: nat, capacity: nat, ver: nat)
    requires used <= capacity && capacity % 8 == 0
    ensures Read(Padding(used, capacity), ver) == Some([])
  {
    hide PadBytes;
    var b := Padding(used, capacity);
    if capacity - used >= 4 {
      assert b[..4] == BitsOf(0, 4);
      assert Pow2(4) > 0;
      ValueOfBits(0, 4);
    }
  }

  /** The padded stream has exactly the capacity's length and reads back to the contents. */
  lemma PaddedStreamReadsBack(contents: seq<Content>, ver: nat, capacity: nat)
    requires forall i :: 0 <= i < |contents| ==> Encodable(contents[i])
    requires CountsFit(SegmentsOf(contents), ver)
    requires |Stream(SegmentsOf(contents), ver)| <= capacity && capacity % 8 == 0
    ensures var bits := Stream(SegmentsOf(contents), ver) + Padding(|Stream(SegmentsOf(contents), ver)|, capacity);
            |bits| == capacity && Read(bits, ver) == Some(contents)
  {
    var used := |Stream(SegmentsOf(contents), ver)|;
    PaddingStopsReader(used, capacity, ver);
    ReadStream(contents, ver, Padding(used, capacity));
  }

  // ---- Bits into bytes ----

  /** `on` shifted to the place of bit `k` counted from the top. */
  function BitMask(k: nat, on: bool): bv8
    requires k < 8
  {
    (if on then 1 else 0) << (7 - k)
  }

  function SetBit(b: bv8, k: nat, on: bool): bv8
    requires k < 8
  {
    b | BitMask(k, on)
  }

  lemma OrBit(a: bv8, b: bv8, i: nat)
    requires i < 8
    ensures Gf256.Bit(a | b, i) == (Gf256.Bit(a, i) || Gf256.Bit(b, i))
  {
    if i == 0 {} else if i == 1 {} else if i == 2 {} else if i == 3 {}
    else if i == 4 {} else if i == 5 {} else if i == 6 {} else { assert i == 7; }
  }

  lemma MaskBit(k: nat, on: bool, j: nat)
    requires k < 8 && j < 8
    ensures Gf256.Bit(BitMask(k, on), 7 - j) == (on && j == k)
  {
    BitCases(j);
    BitCases(k);
  }

  lemma SetBitAt(b: bv8, k: nat, on: bool, j: nat)
    requires k < 8 && j < 8 && !Gf256.Bit(b, 7 - k)
    ensures Gf256.Bit(SetBit(b, k, on), 7 - j) == if j == k then on else Gf256.Bit(b, 7 - j)
  {
    hide Gf256.Bit, BitMask;
    MaskBit(k, on, j);
    OrBit(b, BitMask(k, on), 7 - j);
  }

  lemma BitCases(j: nat)
    requires j < 8
    ensures j == 0 || j == 1 || j == 2 || j == 3 || j == 4 || j == 5 || j == 6 || j == 7
  {
  }

  lemma ZeroByte(j: nat)
    requires j < 8
    ensures !Gf256.Bit(0, j)
  {
    BitCases(j);
  }

  /** The packing loop at the end of encodeSegments. */
  method PackBytes(bits: seq<bool>) returns (codewords: seq<bv8>)
    requires |bits| % 8 == 0
    ensures 8 * |codewords| == |bits|
    ensures forall i :: 0 <= i < |bits| ==> Zigzag.CodewordBit(codewords, i) == bits[i]
  {
    hide SetBit, Gf256.Bit;
    codewords := seq(|bits| / 8, _ => 0);
    forall i | 0 <= i < |bits| ensures !Zigzag.CodewordBit(codewords, i) {
      ZeroByte(7 - i % 8);
    }
    for i := 0 to |bits|
      invariant 8 * |codewords| == |bits|
      invariant forall j :: 0 <= j < |bits| ==> Zigzag.CodewordBit(codewords, j) == (j < i && bits[j])
    {
      var byte := codewords[i / 8];
      assert !Zigzag.CodewordBit(codewords, i);
      ghost var was := codewords;
      codewords := codewords[i / 8 := SetBit(byte, i % 8, bits[i])];
      forall j | 0 <= j < |bits| ensures Zigzag.CodewordBit(codewords, j) == (j < i + 1 && bits[j]) {
        if j / 8 == i / 8 {
          SetBitAt(byte, i % 8, bits[i], j % 8);
          assert j == 8 * (j / 8) + j % 8 && i == 8 * (i / 8) + i % 8;
        }
        assert Zigzag.CodewordBit(was, j) == (j < i && bits[j]);
      }
    }
  }

  // ---- Choosing version and level ----

  datatype Encoded = Encoded(version: nat, ecl: Ecc, codewords: seq<bv8>)

  /** The level that the boost loop ends with: the highest at which the data still fits, never
      below the requested one. */
  ghost predicate BoostedLevel(used: nat, ver: nat, ecl: Ecc, boost: bool, chosen: Ecc)
    requires MIN_VERSION <= ver <= MAX_VERSION
  {
    && used <= 8 * DataCodewords(ver, chosen)
    && (!boost ==> chosen == ecl)
    && Rank(ecl) <= Rank(chosen)
    && (boost ==> forall e: Ecc :: used <= 8 * DataCodewords(ver, e) ==> Rank(e) <= Rank(chosen))
  }

  /** The version search of encodeSegments. */
  method FindVersion(segs: seq<Segment>, ecl: Ecc, minVersion: nat, maxVersion: nat)
    returns (r: Result<(nat, nat), Error>)
    requires MIN_VERSION <= minVersion <= maxVersion <= MAX_VERSION
    ensures r.Err? <==> forall v :: minVersion <= v <= maxVersion ==> !Fits(segs, v, ecl)
    ensures r.Ok? ==>
              var (version, used) := r.value;
              && minVersion <= version <= maxVersion && Fits(segs, version, ecl)
              && TotalBits(segs, version) == Some(used)
              && forall v :: minVersion <= v < version ==> !Fits(segs, v, ecl)
  {
    hide TotalBits, DataCodewords;
    var version := minVersion;
    while true
      invariant minVersion <= version <= maxVersion
      invariant forall v :: minVersion <= v < version ==> !Fits(segs, v, ecl)
      decreases maxVersion - version
    {
      var dataCapacityBits := DataCodewords(version, ecl) * 8;
      var dataUsedBits := GetTotalBits(segs, version);
      if dataUsedBits.Some? && dataUsedBits.value <= dataCapacityBits {
        assert Fits(segs, version, ecl);
        return Ok((version, dataUsedBits.value));
      }
      if version >= maxVersion {
        return Err(DataTooLong);
      }
      version := version + 1;
    }
  }

  /** The boost loop of encodeSegments. */
  method BoostLevel(used: nat, ver: nat, ecl: Ecc, boostEcl: bool) returns (chosen: Ecc)
    requires MIN_VERSION <= ver <= MAX_VERSION && used <= 8 * DataCodewords(ver, ecl)
    ensures BoostedLevel(used, ver, ecl, boostEcl, chosen)
  {
    hide DataCodewords;
    chosen := ecl;
    var levels := [Medium, Quartile, High];
    for i := 0 to |levels|
      invariant !boostEcl ==> chosen == ecl
      invariant used <= 8 * DataCodewords(ver, chosen)
      invariant boostEcl ==> chosen == ecl || Rank(chosen) <= i
      invariant boostEcl ==> forall k :: 0 <= k < i && used <= 8 * DataCodewords(ver, levels[k]) ==>
                Rank(levels[k]) <= Rank(chosen)
      invariant boostEcl && Rank(ecl) <= i ==> Rank(ecl) <= Rank(chosen)
    {
      var newEcl := levels[i];
      CapacityFalls(ver, if Rank(newEcl) <= Rank(ecl) then newEcl else ecl, ecl);
      if boostEcl && used <= DataCodewords(ver, newEcl) * 8 {
        chosen := newEcl;
      }
    }
    assert levels[0] == Medium && levels[1] == Quartile && levels[2] == High;
  }

  /** The concatenation loop of encodeSegments. */
  method AppendSegments(bb: BitBuffer, segs: seq<Segment>, version: nat)
    requires bb.bits == [] && CountsFit(segs, version)
    modifies bb
    ensures bb.bits == Stream(segs, version)
  {
    hide BitsOf, Pow2;
    assert segs[..0] == [];
    for i := 0 to |segs|
      invariant bb.bits == Stream(segs[..i], version)
    {
      var seg := segs[i];
      CountWidth(seg.mode, version);
      ghost var start := bb.bits;
      var _ := bb.AppendBits(seg.mode.ModeBits(), 4);
      var _ := bb.AppendBits(seg.numChars, seg.mode.CountBits(version));
      bb.bits := bb.bits + seg.data;
      assert bb.bits == start + SegmentBits(seg, version);
      assert segs[..i + 1] == segs[..i] + [seg];
      StreamPush(segs[..i], seg, version);
    }
    assert segs[..|segs|] == segs;
  }

  /** Concatenation, terminator and padding. */
  method BuildStream(segs: seq<Segment>, version: nat, dataCapacityBits: nat) returns (bits: seq<bool>)
    requires CountsFit(segs, version)
    requires dataCapacityBits % 8 == 0 && |Stream(segs, version)| <= dataCapacityBits
    ensures bits == Stream(segs, version) + Padding(|Stream(segs, version)|, dataCapacityBits)
  {
    hide BitsOf, PadBytes, Pow2, CountsFit, Stream;
    var bb := new BitBuffer();
    AppendSegments(bb, segs, version);
    ghost var start := bb.bits;
    PaddingFollows(start, dataCapacityBits);
    var terminator := if dataCapacityBits - |bb.bits| < 4 then dataCapacityBits - |bb.bits| else 4;
    hide Padding, Terminator;
    var _ := bb.AppendBits(0, terminator);
    var _ := bb.AppendBits(0, (8 - |bb.bits| % 8) % 8);
    PadToCapacity(bb, dataCapacityBits);
    bits := bb.bits;
  }

  lemma PaddingFollows(start: seq<bool>, capacity: nat)
    requires |start| <= capacity && capacity % 8 == 0
    ensures var p := start + BitsOf(0, Terminator(|start|, capacity));
            var q := p + BitsOf(0, (8 - |p| % 8) % 8);
            |q| <= capacity && |q| % 8 == 0 &&
                start + Padding(|start|, capacity) == q + PadBytes((capacity - |q|) / 8, false)
  {
    hide BitsOf, PadBytes;
  }

  /** The loop of alternating pad bytes. */
  method PadToCapacity(bb: BitBuffer, dataCapacityBits: nat)
    requires |bb.bits| <= dataCapacityBits && |bb.bits| % 8 == 0 == dataCapacityBits % 8
    modifies bb
    ensures bb.bits == old(bb.bits) + PadBytes((dataCapacityBits - |old(bb.bits)|) / 8, false)
  {
    hide BitsOf, PadBytes, Pow2;
    var padByte := 0xEC;
    ghost var odd := false;
    ghost var left: nat := (dataCapacityBits - |bb.bits|) / 8;
    while |bb.bits| < dataCapacityBits
      invariant |bb.bits| + 8 * left == dataCapacityBits
      invariant padByte == if odd then 0x11 else 0xEC
      invariant bb.bits + PadBytes(left, odd) == old(bb.bits) + PadBytes((dataCapacityBits - |old(bb.bits)|) / 8, false)
      decreases left
    {
      PadUnfold(left, odd);
      Powers();
      var _ := bb.AppendBits(padByte, 8);
      padByte := if padByte == 0xEC then 0x11 else 0xEC;
      odd := !odd;
      left := left - 1;
    }
    PadNone(odd);
  }

  lemma PadUnfold(n: nat, odd: bool)
    requires n > 0
    ensures PadBytes(n, odd) == BitsOf(if odd then 0x11 else 0xEC, 8) + PadBytes(n - 1, !odd)
  {
  }

  lemma PadNone(odd: bool)
    ensures PadBytes(0, odd) == []
  {
  }

  /** The bits of a codeword sequence. */
  function BitsIn(codewords: seq<bv8>): (b: seq<bool>)
    ensures |b| == 8 * |codewords|
  {
    seq(8 * |codewords|, i requires 0 <= i < 8 * |codewords| => Zigzag.CodewordBit(codewords, i))
  }

  /** The codewords are the segments' stream padded to their exact size. */
  ghost predicate HoldsStream(segs: seq<Segment>, e: Encoded) {
    var stream, capacity := Stream(segs, e.version), 8 * |e.codewords|;
    CountsFit(segs, e.version) && |stream| <= capacity && BitsIn(e.codewords) == stream + Padding(|stream|, capacity)
  }

  /** encodeSegments, up to the construction of the symbol. */
  method EncodeSegments(segs: seq<Segment>, ecl: Ecc, minVersion: int, maxVersion: int, mask: int, boostEcl: bool)
    returns (r: Result<Encoded, Error>)
    ensures r == Err(InvalidValue) <==>
            !(MIN_VERSION <= minVersion <= maxVersion <= MAX_VERSION) || mask < -1 || mask > 7
    ensures r == Err(DataTooLong) ==> forall v :: minVersion <= v <= maxVersion ==> !Fits(segs, v, ecl)
    ensures r.Err? ==> r.error != UnencodableCharacter
    ensures r.Ok? ==>
              var e := r.value;
              && minVersion <= e.version <= maxVersion && Fits(segs, e.version, ecl)
              && (forall v :: minVersion <= v < e.version ==> !Fits(segs, v, ecl))
              && BoostedLevel(|Stream(segs, e.version)|, e.version, ecl, boostEcl, e.ecl)
              && |e.codewords| == DataCodewords(e.version, e.ecl) && HoldsStream(segs, e)
  {
    hide DataCodewords, Zigzag.CodewordBit, Padding, Stream, CountsFit;
    if !(MIN_VERSION <= minVersion <= maxVersion <= MAX_VERSION) || mask < -1 || mask > 7 {
      return Err(InvalidValue);
    }
    var found := FindVersion(segs, ecl, minVersion, maxVersion);
    if found.Err? {
      return Err(DataTooLong);
    }
    var (version, dataUsedBits) := found.value;
    var level := BoostLevel(dataUsedBits, version, ecl, boostEcl);
    CapacityFalls(version, level, level);
    var bits := BuildStream(segs, version, DataCodewords(version, level) * 8);
    var dataCodewords := PackBytes(bits);
    assert BitsIn(dataCodewords) == bits;
    return Ok(Encoded(version, level, dataCodewords));
  }

  /** A reader of the data codewords recovers every segment of every list that was encoded. */
  lemma EncodedReadsBack(contents: seq<Content>, e: Encoded)
    requires forall i :: 0 <= i < |contents| ==> Encodable(contents[i])
    requires HoldsStream(SegmentsOf(contents), e)
    ensures Read(BitsIn(e.codewords), e.version) == Some(contents)
  {
    hide Read, Stream, Padding, BitsIn, Encodable, SegmentsOf, CountsFit;
    PaddedStreamReadsBack(contents, e.version, 8 * |e.codewords|);
  }
}
