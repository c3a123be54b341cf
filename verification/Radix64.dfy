/** The radix-64 text form of salts and hashes: BF_encode and BF_decode.

    Three bytes become four characters; a final group of one or two bytes becomes two or three
    characters whose last one carries bits that decoding drops. */
module Radix64 {
  import opened Wrappers

  datatype Error = BadCharacter

  type Text = seq<bv8>

  /** BF_itoa64: "./", the capital letters, the small letters, the digits. */
  function Itoa64(v: bv8): bv8
    requires v < 64
  {
    if v < 2 then v + 0x2E else if v < 28 then v + 0x3F else if v < 54 then v + 0x45 else v - 6
  }

  /** BF_atoi64 behind BF_safe_atoi64; None stands for the error return. */
  function Atoi64(c: bv8): (v: Option<bv8>)
    ensures v.Some? ==> v.value < 64
  {
    if 0x2E <= c <= 0x2F then Some(c - 0x2E)
    else if 0x41 <= c <= 0x5A then Some(c - 0x3F)
    else if 0x61 <= c <= 0x7A then Some(c - 0x45)
    else if 0x30 <= c <= 0x39 then Some(c + 6)
    else None
  }

  lemma AtoiItoa(v: bv8)
    requires v < 64
    ensures Atoi64(Itoa64(v)) == Some(v)
  {
  }

  lemma ItoaAtoi(c: bv8)
    requires Atoi64(c).Some?
    ensures Itoa64(Atoi64(c).value) == c
  {
  }

  /** The alphabet in order: ".", "/", the capital letters, the small letters, the digits. */
  lemma AlphabetInOrder(v: bv8)
    ensures Itoa64(0) == '.' as bv8 && Itoa64(1) == '/' as bv8
    ensures v < 26 ==> Itoa64(2 + v) == 'A' as bv8 + v && Itoa64(28 + v) == 'a' as bv8 + v
    ensures v < 10 ==> Itoa64(54 + v) == '0' as bv8 + v
  {
  }

  /** Exactly the characters of the alphabet have a value. */
  lemma ValuesOfAlphabet(c: bv8)
    ensures Atoi64(c).Some? <==> exists v: bv8 :: v < 64 && Itoa64(v) == c
  {
    if Atoi64(c).Some? {
      ItoaAtoi(c);
    }
    if v: bv8 :| v < 64 && Itoa64(v) == c {
      AtoiItoa(v);
    }
  }

  // ---- One group ----

  function First(b: bv8): bv8 { b >> 2 }
  function Second(b1: bv8, b2: bv8): bv8 { ((b1 & 0x03) << 4) | (b2 >> 4) }
  function Third(b2: bv8, b3: bv8): bv8 { ((b2 & 0x0F) << 2) | (b3 >> 6) }
  function Fourth(b3: bv8): bv8 { b3 & 0x3F }

  function Byte1(c1: bv8, c2: bv8): bv8 { (c1 << 2) | ((c2 & 0x30) >> 4) }
  function Byte2(c2: bv8, c3: bv8): bv8 { ((c2 & 0x0F) << 4) | ((c3 & 0x3C) >> 2) }
  function Byte3(c3: bv8, c4: bv8): bv8 { ((c3 & 0x03) << 6) | c4 }

  lemma SixBits(b1: bv8, b2: bv8, b3: bv8)
    ensures First(b1) < 64 && Second(b1, b2) < 64 && Third(b2, b3) < 64 && Fourth(b3) < 64
  {
  }

  /** The four values of a group are the digits in base 64 of its three bytes, the highest first; a shorter
      group is filled up with zero bits. */
  lemma GroupIsBase64(b1: bv8, b2: bv8, b3: bv8)
    ensures First(b1) as bv32 * 0x4_0000 + Second(b1, b2) as bv32 * 0x1000 + Third(b2, b3) as bv32 * 0x40 +
              Fourth(b3) as bv32 ==
            b1 as bv32 * 0x1_0000 + b2 as bv32 * 0x100 + b3 as bv32
    ensures First(b1) as bv32 * 0x40 + Second(b1, 0) as bv32 == b1 as bv32 * 0x10
    ensures First(b1) as bv32 * 0x1000 + Second(b1, b2) as bv32 * 0x40 + Third(b2, 0) as bv32
            == (b1 as bv32 * 0x100 + b2 as bv32) * 4
  {
  }

  /** The byte formulas undo the character formulas. */
  lemma GroupInverse(b1: bv8, b2: bv8, b3: bv8)
    ensures Byte1(First(b1), Second(b1, b2)) == b1
    ensures Byte2(Second(b1, b2), Third(b2, b3)) == b2
    ensures Byte3(Third(b2, b3), Fourth(b3)) == b3
  {
  }

  /** The character formulas undo the byte formulas on whole groups, and clear the bits that a
      shortened group drops. */
  lemma GroupCanonical(c1: bv8, c2: bv8, c3: bv8, c4: bv8)
    requires c1 < 64 && c2 < 64 && c3 < 64 && c4 < 64
    ensures First(Byte1(c1, c2)) == c1
    ensures Second(Byte1(c1, c2), Byte2(c2, c3)) == c2 && Second(Byte1(c1, c2), 0) == c2 & 0x30
    ensures Third(Byte2(c2, c3), Byte3(c3, c4)) == c3 && Third(Byte2(c2, c3), 0) == c3 & 0x3C
    ensures Fourth(Byte3(c3, c4)) == c4
  {
  }

  // ---- Whole strings ----

  /** Characters that `n` bytes take. */
  function Chars(n: nat): nat {
    n / 3 * 4 + if n % 3 == 0 then 0 else n % 3 + 1
  }

  function Char(v: bv8): bv8 {
    if v < 64 then Itoa64(v) else 0
  }

  function Encode(s: seq<bv8>): Text {
    if |s| == 0 then []
    else if |s| == 1 then [Char(First(s[0])), Char(Second(s[0], 0))]
    else if |s| == 2 then [Char(First(s[0])), Char(Second(s[0], s[1])), Char(Third(s[1], 0))]
    else [Char(First(s[0])), Char(Second(s[0], s[1])), Char(Third(s[1], s[2])), Char(Fourth(s[2]))] + Encode(s[3..])
  }

  /** Every character of `t` is one of the sixty-four. */
  predicate Valid(t: Text) {
    forall i :: 0 <= i < |t| ==> Atoi64(t[i]).Some?
  }

  function Value(c: bv8): (v: bv8)
    ensures v < 64
  {
    var v := Atoi64(c);
    if v.Some? then v.value else 0
  }

  /** The `n` bytes that a text of Chars(n) characters stands for. */
  function Decode(t: Text, n: nat): (s: seq<bv8>)
    requires |t| >= Chars(n)
    ensures |s| == n
    decreases n
  {
    if n == 0 then []
    else if n == 1 then [Byte1(Value(t[0]), Value(t[1]))]
    else if n == 2 then [Byte1(Value(t[0]), Value(t[1])), Byte2(Value(t[1]), Value(t[2]))]
    else [Byte1(Value(t[0]), Value(t[1])), Byte2(Value(t[1]), Value(t[2])), Byte3(Value(t[2]), Value(t[3]))]
         + Decode(t[4..], n - 3)
  }

  lemma {:induction false} EncodeLength(s: seq<bv8>)
    ensures |Encode(s)| == Chars(|s|)
    decreases |s|
  {
    if |s| >= 3 {
      EncodeLength(s[3..]);
    }
  }

  lemma CharValue(v: bv8)
    requires v < 64
    ensures Value(Char(v)) == v && Atoi64(Char(v)).Some?
  {
    AtoiItoa(v);
  }

  lemma ValueChar(c: bv8)
    requires Atoi64(c).Some?
    ensures Char(Value(c)) == c
  {
    ItoaAtoi(c);
  }

  /** Decoding inverts encoding at every size, and everything encoded is valid text. */
  lemma {:induction false} DecodeEncode(s: seq<bv8>)
    ensures |Encode(s)| == Chars(|s|) && Valid(Encode(s))
    ensures Decode(Encode(s), |s|) == s
    decreases |s|
  {
    EncodeLength(s);
    hide First, Second, Third, Fourth, Byte1, Byte2, Byte3, Char, Value, Atoi64;
    if |s| > 0 {
      var b2, b3 := if |s| > 1 then s[1] else 0, if |s| > 2 then s[2] else 0;
      GroupInverse(s[0], b2, b3);
      SixBits(s[0], b2, b3);
      CharValue(First(s[0]));
      CharValue(Second(s[0], b2));
      CharValue(Third(b2, b3));
      CharValue(Fourth(b3));
      if |s| >= 3 {
        DecodeEncode(s[3..]);
        assert Encode(s)[4..] == Encode(s[3..]);
      }
    }
  }

  /** The text with the bits that decoding drops cleared from its last character. */
  function Canonical(t: Text, n: nat): Text
    requires |t| == Chars(n)
  {
    if n % 3 == 0 then t
    else t[|t| - 1 := Char(Value(t[|t| - 1]) & (if n % 3 == 1 then 0x30 else 0x3C))]
  }

  lemma ValidTail(t: Text, k: nat)
    requires Valid(t) && k <= |t|
    ensures Valid(t[k..])
  {
  }

  lemma EncodeShort(t: Text, n: nat)
    requires |t| == Chars(n) && Valid(t) && 0 < n < 3
    ensures Encode(Decode(t, n)) == Canonical(t, n)
  {
    hide First, Second, Third, Fourth, Byte1, Byte2, Byte3, Char, Value, Atoi64;
    var c3 := if n == 2 then t[2] else t[0];
    GroupCanonical(Value(t[0]), Value(t[1]), Value(c3), 0);
    ValueChar(t[0]);
    ValueChar(t[1]);
    assert Encode(Decode(t, n)) == Canonical(t, n);
  }

  /** The four characters of a whole group. */
  lemma EncodeGroup(c1: bv8, c2: bv8, c3: bv8, c4: bv8, rest: seq<bv8>)
    requires Valid([c1, c2, c3, c4])
    ensures var v1, v2, v3, v4 := Value(c1), Value(c2), Value(c3), Value(c4);
            Encode([Byte1(v1, v2), Byte2(v2, v3), Byte3(v3, v4)] + rest) == [c1, c2, c3, c4] + Encode(rest)
  {
    hide First, Second, Third, Fourth, Byte1, Byte2, Byte3, Char, Value, Atoi64;
    var t := [c1, c2, c3, c4];
    var v1, v2, v3, v4 := Value(c1), Value(c2), Value(c3), Value(c4);
    GroupCanonical(v1, v2, v3, v4);
    ValueChar(t[0]);
    ValueChar(t[1]);
    ValueChar(t[2]);
    ValueChar(t[3]);
    var s := [Byte1(v1, v2), Byte2(v2, v3), Byte3(v3, v4)] + rest;
    assert s[3..] == rest;
  }

  lemma CanonicalSplits(t: Text, n: nat)
    requires |t| == Chars(n) && n >= 3
    ensures Canonical(t, n) == t[..4] + Canonical(t[4..], n - 3)
  {
    hide Char, Value;
    assert t == t[..4] + t[4..];
  }

  /** Re-encoding a decoded text gives its canonical form. */
  lemma {:induction false} EncodeDecode(t: Text, n: nat)
    requires |t| == Chars(n) && Valid(t)
    ensures Encode(Decode(t, n)) == Canonical(t, n)
    decreases n
  {
    hide Byte1, Byte2, Byte3, Char, Value, Atoi64, Encode, Canonical;
    if n == 0 {
      assert t == [];
      assert Encode([]) == Canonical([], 0) by { EncodeNothing(); }
    } else if n < 3 {
      EncodeShort(t, n);
    } else {
      ValidTail(t, 4);
      EncodeDecode(t[4..], n - 3);
      EncodeGroup(t[0], t[1], t[2], t[3], Decode(t[4..], n - 3));
      CanonicalSplits(t, n);
      assert t[..4] == [t[0], t[1], t[2], t[3]];
    }
  }

  lemma EncodeNothing()
    ensures Encode([]) == Canonical([], 0)
  {
  }

  /** The dropped bits cannot be seen by the decoder. */
  lemma CanonicalDecodesAlike(t: Text, n: nat)
    requires |t| == Chars(n) && Valid(t)
    ensures |Canonical(t, n)| == |t| && Valid(Canonical(t, n))
    ensures Decode(Canonical(t, n), n) == Decode(t, n)
    ensures Canonical(Canonical(t, n), n) == Canonical(t, n)
  {
    EncodeDecode(t, n);
    DecodeEncode(Decode(t, n));
    EncodeDecode(Canonical(t, n), n);
  }

  // ---- The pointer-walking loops ----

  lemma CharsAt(n: nat, g: nat)
    requires 3 * g < n
    ensures 4 * g + 1 < Chars(n)
    ensures n > 3 * g + 1 ==> 4 * g + 2 < Chars(n)
    ensures n > 3 * g + 2 ==> 4 * g + 3 < Chars(n)
    ensures n > 3 * g + 3 ==> 4 * g + 4 < Chars(n)
    ensures n == 3 * g + 1 ==> Chars(n) == 4 * g + 2
    ensures n == 3 * g + 2 ==> Chars(n) == 4 * g + 3
    ensures n == 3 * g + 3 ==> Chars(n) == 4 * g + 4
  {
  }

  lemma CharsStep(n: nat)
    requires n >= 3
    ensures Chars(n) == Chars(n - 3) + 4
  {
  }

  /** The characters at index k are those of the group that starts at byte `i`. */
  predicate GroupAt(s: seq<bv8>, i: nat, e: Text, k: nat)
    requires i < |s|
  {
    && k + 1 < |e| && e[k] == Itoa64(First(s[i]))
    && (|s| == i + 1 ==> e[k + 1] == Itoa64(Second(s[i], 0)))
    && (|s| > i + 1 ==> k + 2 < |e| && e[k + 1] == Itoa64(Second(s[i], s[i + 1])))
    && (|s| == i + 2 ==> e[k + 2] == Itoa64(Third(s[i + 1], 0)))
    && (|s| > i + 2 ==>
          k + 3 < |e| && e[k + 2] == Itoa64(Third(s[i + 1], s[i + 2])) && e[k + 3] == Itoa64(Fourth(s[i + 2])))
  }

  lemma GroupLater(s: seq<bv8>, i: nat, e: Text, k: nat)
    requires i + 3 < |s| && |e| >= 4 && GroupAt(s[3..], i, e[4..], k)
    ensures GroupAt(s, i + 3, e, k + 4)
  {
    hide First, Second, Third, Fourth, Itoa64;
  }

  lemma FirstGroup(s: seq<bv8>)
    requires s != []
    ensures GroupAt(s, 0, Encode(s), 0)
  {
    hide First, Second, Third, Fourth, Itoa64;
    SixBits(s[0], if |s| > 1 then s[1] else 0, if |s| > 2 then s[2] else 0);
    if |s| == 2 {
      SixBits(s[0], s[1], 0);
    }
  }

  lemma {:induction false} EncodeAt(s: seq<bv8>, g: nat)
    requires 3 * g < |s|
    ensures GroupAt(s, 3 * g, Encode(s), 4 * g)
    decreases g
  {
    hide First, Second, Third, Fourth, Itoa64, GroupAt;
    if g == 0 {
      FirstGroup(s);
    } else {
      EncodeAt(s[3..], g - 1);
      assert |Encode(s)| >= 4 && Encode(s)[4..] == Encode(s[3..]);
      GroupLater(s, 3 * (g - 1), Encode(s), 4 * (g - 1));
    }
  }

  /** The length of the text once the last group is known. */
  lemma EncodeEnds(s: seq<bv8>, g: nat)
    requires 3 * g < |s| <= 3 * g + 3
    ensures |Encode(s)| == g + |s| + 1
  {
    EncodeLength(s);
  }

  /** The buffer with the first `n` characters of `e` stored from index `at` on. */
  function Overwritten(buf: seq<bv8>, at: nat, e: Text, n: nat): (r: seq<bv8>)
    requires n <= |e| && at + n <= |buf|
    ensures |r| == |buf|
  {
    buf[..at] + e[..n] + buf[at + n..]
  }

  /** `*dptr++ = c`. */
  method Store(dst: array<bv8>, dptr: nat, c: bv8, ghost buf: seq<bv8>, ghost at: nat, ghost e: Text)
    returns (next: nat)
    requires |buf| == dst.Length && at <= dptr && dptr - at < |e| && at + |e| <= |buf| && c == e[dptr - at]
    requires dst[..] == Overwritten(buf, at, e, dptr - at)
    modifies dst
    ensures next == dptr + 1 && dst[..] == Overwritten(buf, at, e, next - at)
  {
    dst[dptr] := c;
    next := dptr + 1;
    assert dst[..] == old(dst[..])[dptr := c];
  }

  /** BF_encode, writing from index `at` of the output buffer. */
  method BfEncode(dst: array<bv8>, at: nat, src: seq<bv8>)
    requires |src| >= 1 && at + Chars(|src|) <= dst.Length
    modifies dst
    ensures |Encode(src)| == Chars(|src|)
    ensures dst[..] == Overwritten(old(dst[..]), at, Encode(src), Chars(|src|))
  {
    hide First, Second, Third, Fourth, Itoa64, Encode, Char, Chars, Overwritten;
    EncodeLength(src);
    ghost var e, buf := Encode(src), dst[..];
    var sptr, dptr := 0, at;
    ghost var g := 0;
    assert dst[..] == Overwritten(buf, at, e, 0) by { OverwrittenNothing(buf, at, e); }
    while true
      invariant sptr == 3 * g < |src| && dptr == at + 4 * g <= at + |e|
      invariant dst[..] == Overwritten(buf, at, e, 4 * g)
      decreases |src| - sptr
    {
      EncodeAt(src, g);
      if |src| <= 3 * g + 3 {
        EncodeEnds(src, g);
      }
      SixBits(src[sptr], if sptr + 1 < |src| then src[sptr + 1] else 0, if sptr + 2 < |src| then src[sptr + 2] else 0);
      if sptr + 2 == |src| {
        SixBits(src[sptr], src[sptr + 1], 0);
      }
      var c1 := src[sptr];
      sptr := sptr + 1;
      dptr := Store(dst, dptr, Itoa64(First(c1)), buf, at, e);
      if sptr >= |src| {
        dptr := Store(dst, dptr, Itoa64(Second(c1, 0)), buf, at, e);
        break;
      }
      var c2 := src[sptr];
      sptr := sptr + 1;
      dptr := Store(dst, dptr, Itoa64(Second(c1, c2)), buf, at, e);
      if sptr >= |src| {
        dptr := Store(dst, dptr, Itoa64(Third(c2, 0)), buf, at, e);
        break;
      }
      c1 := c2;
      c2 := src[sptr];
      sptr := sptr + 1;
      dptr := Store(dst, dptr, Itoa64(Third(c1, c2)), buf, at, e);
      dptr := Store(dst, dptr, Itoa64(Fourth(c2)), buf, at, e);
      if !(sptr < |src|) {
        break;
      }
      g := g + 1;
    }
  }

  lemma OverwrittenNothing(buf: seq<bv8>, at: nat, e: Text)
    requires at <= |buf|
    ensures Overwritten(buf, at, e, 0) == buf
  {
  }

  /** A C string read at index `i`: past the last character stands the terminating NUL. */
  function CharAt(t: Text, i: nat): bv8 {
    if i < |t| then t[i] else 0
  }

  /** The text starts with the valid characters of `n` bytes. */
  predicate Decodable(t: Text, n: nat) {
    |t| >= Chars(n) && Valid(t[..Chars(n)])
  }

  lemma NotDecodable(t: Text, n: nat, i: nat)
    requires i < Chars(n) && Atoi64(CharAt(t, i)).None?
    ensures !Decodable(t, n)
  {
    if |t| >= Chars(n) {
      assert t[..Chars(n)][i] == t[i];
    }
  }


  /** The bytes that group `g` of a text contributes. */
  lemma {:induction false} DecodeAt(t: Text, n: nat, g: nat)
    requires |t| >= Chars(n) && 3 * g < n
    ensures 4 * g + 1 < |t|
    ensures Decode(t, n)[3 * g] == Byte1(Value(t[4 * g]), Value(t[4 * g + 1]))
    ensures n > 3 * g + 1 ==>
              4 * g + 2 < |t| && Decode(t, n)[3 * g + 1] == Byte2(Value(t[4 * g + 1]), Value(t[4 * g + 2]))
    ensures n > 3 * g + 2 ==>
              4 * g + 3 < |t| && Decode(t, n)[3 * g + 2] == Byte3(Value(t[4 * g + 2]), Value(t[4 * g + 3]))
    decreases g
  {
    hide Byte1, Byte2, Byte3, Value, Chars;
    CharsAt(n, g);
    if g > 0 {
      CharsStep(n);
      DecodeAt(t[4..], n - 3, g - 1);
      assert Decode(t, n)[3..] == Decode(t[4..], n - 3);
    } else {
      CharsAt(n, 0);
    }
  }

  /** A text whose first Chars(n) positions all hold valid characters is decodable. */
  lemma DecodableIf(t: Text, n: nat)
    requires forall i :: 0 <= i < Chars(n) ==> Atoi64(CharAt(t, i)).Some?
    ensures Decodable(t, n)
  {
    assert Atoi64(CharAt(t, |t|)).None?;
    forall i | 0 <= i < Chars(n) ensures Atoi64(t[i]).Some? {
      assert Atoi64(CharAt(t, i)).Some?;
    }
  }

  /** BF_decode of `size` bytes from the front of a string. */
  method BfDecode(t: Text, size: nat) returns (r: Result<seq<bv8>, Error>)
    requires size >= 1
    ensures r.Ok? <==> Decodable(t, size)
    ensures r.Ok? ==> |t| >= Chars(size) && r.value == Decode(t, size)
  {
    hide Byte1, Byte2, Byte3, Atoi64, Decodable, Decode;
    var dst: seq<bv8> := [];
    var sptr := 0;
    while true
      invariant sptr % 4 == 0 && |dst| == sptr / 4 * 3 < size
      invariant sptr < Chars(size)
      invariant forall i :: 0 <= i < sptr ==> Atoi64(CharAt(t, i)).Some?
      invariant |t| >= Chars(size) ==> dst == Decode(t, size)[..|dst|]
      decreases size - |dst|
    {
      var g := sptr / 4;
      assert sptr == 4 * g && |dst| == 3 * g;
      CharsAt(size, g);
      if |t| >= Chars(size) {
        DecodeAt(t, size, g);
      }
      var c1 := Atoi64(CharAt(t, sptr));
      if c1.None? {
        NotDecodable(t, size, sptr);
        return Err(BadCharacter);
      }
      var c2 := Atoi64(CharAt(t, sptr + 1));
      if c2.None? {
        NotDecodable(t, size, sptr + 1);
        return Err(BadCharacter);
      }
      dst := dst + [Byte1(c1.value, c2.value)];
      if |dst| >= size {
        break;
      }
      var c3 := Atoi64(CharAt(t, sptr + 2));
      if c3.None? {
        NotDecodable(t, size, sptr + 2);
        return Err(BadCharacter);
      }
      dst := dst + [Byte2(c2.value, c3.value)];
      if |dst| >= size {
        break;
      }
      var c4 := Atoi64(CharAt(t, sptr + 3));
      if c4.None? {
        NotDecodable(t, size, sptr + 3);
        return Err(BadCharacter);
      }
      dst := dst + [Byte3(c3.value, c4.value)];
      sptr := sptr + 4;
      if !(|dst| < size) {
        break;
      }
    }
    DecodableIf(t, size);
    return Ok(dst);
  }
}
