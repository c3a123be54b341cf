/** BF_set_key: the key words, the emulated sign extension bug, and the branch-free safety measure. */
module KeyExpansion {
  import opened BitStream
  import opened Words

  const WORDS := 18

  /** A C string holds no NUL before its end. */
  predicate IsCString(key: seq<bv8>) {
    forall i :: 0 <= i < |key| ==> key[i] != 0
  }

  /** Byte `t` of the key repeated for ever, terminating NUL included. */
  function CyclicByte(key: seq<bv8>, t: nat): bv8 {
    (key + [0])[t % (|key| + 1)]
  }

  function SignExtended(c: bv8): Word {
    if c >= 0x80 then 0xFFFF_FF00 | c as bv32 else c as bv32
  }

  function Shift(w: Word, low: Word): Word {
    (w << 8) | low
  }

  /** The first `n` bytes of block `i`, as the correct code accumulates them. */
  function Correct(key: seq<bv8>, i: nat, n: nat): Word {
    if n == 0 then 0 else Shift(Correct(key, i, n - 1), CyclicByte(key, 4 * i + n - 1) as bv32)
  }

  /** The same with every byte sign-extended first. */
  function Buggy(key: seq<bv8>, i: nat, n: nat): Word {
    if n == 0 then 0 else Shift(Buggy(key, i, n - 1), SignExtended(CyclicByte(key, 4 * i + n - 1)))
  }

  function KeyWord(key: seq<bv8>, i: nat, bug: bool): Word {
    if bug then Buggy(key, i, 4) else Correct(key, i, 4)
  }

  /** The two expansions agree on the first `n` words. */
  predicate Agree(key: seq<bv8>, n: nat) {
    forall i :: 0 <= i < n ==> KeyWord(key, i, false) == KeyWord(key, i, true)
  }

  /** Whether byte `j` of block `i` triggers a sign extension with something to overwrite. */
  predicate Overwrites(key: seq<bv8>, i: nat, j: nat) {
    1 <= j < 4 && CyclicByte(key, 4 * i + j) >= 0x80
  }

  ghost predicate SignSeen(key: seq<bv8>, i: nat, j: nat) {
    exists a, b :: 0 <= a && 0 <= b && (a < i || (a == i && b < j)) && Overwrites(key, a, b)
  }

  /** The collision that the safety measure exists for. */
  ghost predicate Collides(key: seq<bv8>) {
    Agree(key, WORDS) && SignSeen(key, WORDS, 0)
  }

  // ---- The pointer ----

  function Cursor(key: seq<bv8>, t: nat): (p: nat)
    ensures p <= |key|
  {
    if t == 0 then 0 else var p := Cursor(key, t - 1); if p == |key| then 0 else p + 1
  }

  lemma {:induction false} CursorIsModulo(key: seq<bv8>, t: nat)
    ensures Cursor(key, t) == t % (|key| + 1)
  {
    if t > 0 {
      CursorIsModulo(key, t - 1);
      ModStep(t - 1, |key| + 1);
    }
  }

  lemma ModStep(t: nat, m: nat)
    requires m > 0
    ensures (t + 1) % m == if t % m == m - 1 then 0 else t % m + 1
  {
    var q, r := t / m, t % m;
    assert t == q * m + r;
    if r == m - 1 {
      assert t + 1 == (q + 1) * m;
      DivStep(q + 1, m, 0);
    } else {
      DivStep(q, m, r + 1);
    }
  }

  // ---- The masks ----

  function SignBit(w: Word): Word {
    w & 0x80
  }

  function DiffMask(diff: Word): Word {
    var d := (diff | (diff >> 16)) & 0xFFFF;
    d + 0xFFFF
  }

  function SafetyWord(sign: Word, diff: Word, safety: Word): Word {
    (sign << 9) & (!DiffMask(diff) & safety)
  }

  function SafetyRequest(flags: bv8): Word {
    ((flags as bv32) & 2) << 15
  }

  /** The branch-free masks compute a conditional. */
  lemma MasksAreConditional(sign: Word, diff: Word, flags: bv8)
    requires sign == 0 || sign == 0x80
    ensures SafetyWord(sign, diff, SafetyRequest(flags)) ==
            if sign == 0x80 && diff == 0 && flags & 2 != 0 then 0x10000 else 0
  {
  }

  lemma SignOfShifted(w: Word, c: bv8)
    ensures SignBit(Shift(w, SignExtended(c))) == if c >= 0x80 then 0x80 else 0
  {
  }

  lemma DiffAccumulates(diff: Word, a: Word, b: Word)
    ensures (diff | Xor(a, b)) == 0 <==> diff == 0 && a == b
  {
  }

  lemma OrSign(s: Word, t: Word)
    requires (s == 0 || s == 0x80) && (t == 0 || t == 0x80)
    ensures s | t == if s == 0x80 || t == 0x80 then 0x80 else 0
  {
  }

  // ---- The loop ----

  /** BF_set_key, from the standard initial subkeys `initState`. */
  method BfSetKey(key: seq<bv8>, initState: seq<Word>, expanded: array<Word>, initial: array<Word>, flags: bv8)
    requires IsCString(key) && |initState| == WORDS
    requires expanded.Length == WORDS && initial.Length == WORDS && expanded != initial
    modifies expanded, initial
    ensures forall i :: 0 <= i < WORDS ==> expanded[i] == KeyWord(key, i, flags & 1 != 0)
    ensures forall i :: 0 < i < WORDS ==> initial[i] == Xor(initState[i], expanded[i])
    ensures initial[0] == Xor(Xor(initState[0], expanded[0]), if Collides(key) && flags & 2 != 0 then 0x10000 else 0)
  {
    hide Xor, Shift, SignExtended, SignBit, DiffMask, SafetyWord, SafetyRequest, CyclicByte, Cursor, Correct,
         Buggy, Agree, SignSeen, Collides;
    var ptr := 0;
    var bug := flags & 1 != 0;
    var safety := SafetyRequest(flags);
    var sign: Word, diff: Word := 0, 0;
    NothingRead(key);
    for i := 0 to WORDS
      invariant ptr == Cursor(key, 4 * i)
      invariant sign == if SignSeen(key, i, 0) then 0x80 else 0
      invariant diff == 0 <==> Agree(key, i)
      invariant forall k :: 0 <= k < i ==> expanded[k] == KeyWord(key, k, bug)
      invariant forall k :: 0 <= k < i ==> initial[k] == Xor(initState[k], expanded[k])
    {
      var tmp0: Word, tmp1: Word := 0, 0;
      NoBytes(key, i);
      for j := 0 to 4
        invariant ptr == Cursor(key, 4 * i + j)
        invariant tmp0 == Correct(key, i, j) && tmp1 == Buggy(key, i, j)
        invariant sign == if SignSeen(key, i, j) then 0x80 else 0
        modifies {}
      {
        KeyStep(key, 4 * i + j);
        var c := if ptr < |key| then key[ptr] else 0;
        SignOfShifted(tmp1, c);
        tmp0 := Shift(tmp0, c as bv32);
        tmp1 := Shift(tmp1, SignExtended(c));
        Unfold(key, i, j + 1);
        SignStep(key, i, j);
        if j != 0 {
          OrSign(sign, SignBit(tmp1));
          sign := sign | SignBit(tmp1);
        }
        if c == 0 {
          ptr := 0;
        } else {
          ptr := ptr + 1;
        }
      }
      SignRow(key, i);
      AgreeStep(key, i);
      DiffAccumulates(diff, tmp0, tmp1);
      diff := diff | Xor(tmp0, tmp1);
      expanded[i] := if bug then tmp1 else tmp0;
      initial[i] := Xor(initState[i], expanded[i]);
    }
    assert Collides(key) <==> sign == 0x80 && diff == 0 by { CollidesIs(key); }
    MasksAreConditional(sign, diff, flags);
    sign := SafetyWord(sign, diff, safety);
    initial[0] := Xor(initial[0], sign);
  }

  lemma NothingRead(key: seq<bv8>)
    ensures Cursor(key, 0) == 0 && Agree(key, 0) && !SignSeen(key, 0, 0)
  {
  }

  lemma AgreeStep(key: seq<bv8>, i: nat)
    ensures Agree(key, i + 1) <==> Agree(key, i) && Correct(key, i, 4) == Buggy(key, i, 4)
  {
    hide Correct, Buggy;
    assert KeyWord(key, i, false) == Correct(key, i, 4) && KeyWord(key, i, true) == Buggy(key, i, 4);
  }

  lemma CollidesIs(key: seq<bv8>)
    ensures Collides(key) <==> Agree(key, WORDS) && SignSeen(key, WORDS, 0)
  {
  }

  /** The byte under the pointer is the cyclic key's byte, and the pointer moves on cyclically. */
  lemma KeyStep(key: seq<bv8>, t: nat)
    requires IsCString(key)
    ensures var p := Cursor(key, t);
            var c := if p < |key| then key[p] else 0;
            c == CyclicByte(key, t) && Cursor(key, t + 1) == if c == 0 then 0 else p + 1
  {
    CursorIsModulo(key, t);
  }

  lemma SignStep(key: seq<bv8>, i: nat, j: nat)
    requires j < 4
    ensures SignSeen(key, i, j + 1) <==> SignSeen(key, i, j) || Overwrites(key, i, j)
  {
    hide Overwrites;
    if SignSeen(key, i, j + 1) && !Overwrites(key, i, j) {
      var a, b :| 0 <= a && 0 <= b && (a < i || (a == i && b < j + 1)) && Overwrites(key, a, b);
      assert a < i || (a == i && b < j);
    }
  }

  lemma SignRow(key: seq<bv8>, i: nat)
    ensures SignSeen(key, i + 1, 0) <==> SignSeen(key, i, 4)
  {
    if SignSeen(key, i + 1, 0) {
      var a, b :| 0 <= a && 0 <= b && (a < i + 1 || (a == i + 1 && b < 0)) && Overwrites(key, a, b);
      assert a < i || (a == i && b < 4);
    }
  }

  // ---- When the expansions agree ----

  function Word4(b0: bv8, b1: bv8, b2: bv8, b3: bv8): Word {
    Shift(Shift(Shift(Shift(0, b0 as bv32), b1 as bv32), b2 as bv32), b3 as bv32)
  }

  function Signed4(b0: bv8, b1: bv8, b2: bv8, b3: bv8): Word {
    Shift(Shift(Shift(Shift(0, SignExtended(b0)), SignExtended(b1)), SignExtended(b2)), SignExtended(b3))
  }

  /** The correct word is the number whose bytes, highest first, are those of the block. */
  lemma WordValue(b0: bv8, b1: bv8, b2: bv8, b3: bv8)
    ensures Word4(b0, b1, b2, b3)
            == b0 as bv32 * 0x100_0000 + b1 as bv32 * 0x1_0000 + b2 as bv32 * 0x100 + b3 as bv32
  {
  }

  lemma LastByteHigh(b0: bv8, b1: bv8, b2: bv8, b3: bv8)
    requires b3 >= 0x80
    ensures Signed4(b0, b1, b2, b3) == 0xFFFF_FF00 | b3 as bv32
  {
  }

  lemma ThirdByteHigh(b0: bv8, b1: bv8, b2: bv8, b3: bv8)
    requires b3 < 0x80 && b2 >= 0x80
    ensures Signed4(b0, b1, b2, b3) == 0xFFFF_0000 | (b2 as bv32 << 8) | b3 as bv32
  {
  }

  lemma SecondByteHigh(b0: bv8, b1: bv8, b2: bv8, b3: bv8)
    requires b3 < 0x80 && b2 < 0x80 && b1 >= 0x80
    ensures Signed4(b0, b1, b2, b3) == 0xFF00_0000 | (b1 as bv32 << 16) | (b2 as bv32 << 8) | b3 as bv32
  {
  }

  /** The emulated bug fills everything above the last high byte of a block, its first apart, with ones. */
  lemma SignedValue(b0: bv8, b1: bv8, b2: bv8, b3: bv8)
    ensures Signed4(b0, b1, b2, b3) ==
            if b3 >= 0x80 then 0xFFFF_FF00 | b3 as bv32
            else if b2 >= 0x80 then 0xFFFF_0000 | (b2 as bv32 << 8) | b3 as bv32
            else if b1 >= 0x80 then 0xFF00_0000 | (b1 as bv32 << 16) | (b2 as bv32 << 8) | b3 as bv32
            else Word4(b0, b1, b2, b3)
  {
    if b3 >= 0x80 {
      LastByteHigh(b0, b1, b2, b3);
    } else if b2 >= 0x80 {
      ThirdByteHigh(b0, b1, b2, b3);
    } else if b1 >= 0x80 {
      SecondByteHigh(b0, b1, b2, b3);
    } else {
      AgreeSigned1(b0, b1, b2, b3);
    }
    hide Signed4, Word4;
  }

  lemma AgreeSigned4(b0: bv8, b1: bv8, b2: bv8, b3: bv8)
    requires b3 >= 0x80
    ensures Word4(b0, b1, b2, b3) == Signed4(b0, b1, b2, b3) <==> b0 == 0xFF && b1 == 0xFF && b2 == 0xFF
  {
  }

  lemma AgreeSigned3(b0: bv8, b1: bv8, b2: bv8, b3: bv8)
    requires b3 < 0x80 && b2 >= 0x80
    ensures Word4(b0, b1, b2, b3) == Signed4(b0, b1, b2, b3) <==> b0 == 0xFF && b1 == 0xFF
  {
  }

  lemma AgreeSigned2(b0: bv8, b1: bv8, b2: bv8, b3: bv8)
    requires b3 < 0x80 && b2 < 0x80 && b1 >= 0x80
    ensures Word4(b0, b1, b2, b3) == Signed4(b0, b1, b2, b3) <==> b0 == 0xFF
  {
  }

  lemma AgreeSigned1(b0: bv8, b1: bv8, b2: bv8, b3: bv8)
    requires b3 < 0x80 && b2 < 0x80 && b1 < 0x80
    ensures Word4(b0, b1, b2, b3) == Signed4(b0, b1, b2, b3)
  {
  }

  /** The expansions of a block agree exactly if every sign extension overwrites ones. */
  lemma AgreeOnBytes(b0: bv8, b1: bv8, b2: bv8, b3: bv8)
    ensures Word4(b0, b1, b2, b3) == Signed4(b0, b1, b2, b3) <==>
            (b1 >= 0x80 ==> b0 == 0xFF) &&
            (b2 >= 0x80 ==> b0 == 0xFF && b1 == 0xFF) &&
            (b3 >= 0x80 ==> b0 == 0xFF && b1 == 0xFF && b2 == 0xFF)
  {
    hide Word4, Signed4;
    if b3 >= 0x80 {
      AgreeSigned4(b0, b1, b2, b3);
    } else if b2 >= 0x80 {
      AgreeSigned3(b0, b1, b2, b3);
    } else if b1 >= 0x80 {
      AgreeSigned2(b0, b1, b2, b3);
    } else {
      AgreeSigned1(b0, b1, b2, b3);
    }
  }

  lemma {:induction false} Unfold(key: seq<bv8>, i: nat, n: nat)
    requires n > 0
    ensures Correct(key, i, n) == Shift(Correct(key, i, n - 1), CyclicByte(key, 4 * i + n - 1) as bv32)
    ensures Buggy(key, i, n) == Shift(Buggy(key, i, n - 1), SignExtended(CyclicByte(key, 4 * i + n - 1)))
  {
    hide Shift, SignExtended, CyclicByte;
  }

  lemma KeyWordBytes(key: seq<bv8>, i: nat)
    ensures var b0, b1, b2, b3 := CyclicByte(key, 4 * i), CyclicByte(key, 4 * i + 1), CyclicByte(key, 4 * i + 2),
            CyclicByte(key, 4 * i + 3);
            KeyWord(key, i, false) == Word4(b0, b1, b2, b3) && KeyWord(key, i, true) == Signed4(b0, b1, b2, b3)
  {
    hide Shift, SignExtended, CyclicByte, Correct, Buggy;
    Unfold(key, i, 4);
    Unfold(key, i, 3);
    Unfold(key, i, 2);
    Unfold(key, i, 1);
    assert Correct(key, i, 0) == 0 && Buggy(key, i, 0) == 0 by { NoBytes(key, i); }
  }

  lemma NoBytes(key: seq<bv8>, i: nat)
    ensures Correct(key, i, 0) == 0 && Buggy(key, i, 0) == 0
  {
  }

  function BlockByte(key: seq<bv8>, i: nat, j: nat): bv8 {
    CyclicByte(key, 4 * i + j)
  }

  /** Every byte of block `i` whose sign extension overwrites something overwrites ones only. */
  predicate Benign(key: seq<bv8>, i: nat) {
    forall j, k :: 0 <= k < j < 4 && BlockByte(key, i, j) >= 0x80 ==> BlockByte(key, i, k) == 0xFF
  }

  /** The collision in terms of the password's bytes: some sign extension overwrites, and all that
      do overwrite nothing but ones. */
  lemma CollisionExactly(key: seq<bv8>)
    ensures Collides(key) <==> SignSeen(key, WORDS, 0) && forall i :: 0 <= i < WORDS ==> Benign(key, i)
  {
    forall i | 0 <= i < WORDS ensures KeyWord(key, i, false) == KeyWord(key, i, true) <==> Benign(key, i) {
      WordBenign(key, i);
    }
  }

  lemma WordBenign(key: seq<bv8>, i: nat)
    ensures KeyWord(key, i, false) == KeyWord(key, i, true) <==> Benign(key, i)
  {
    hide KeyWord, Word4, Signed4, CyclicByte;
    KeyWordBytes(key, i);
    var b0, b1, b2, b3 := CyclicByte(key, 4 * i), CyclicByte(key, 4 * i + 1), CyclicByte(key, 4 * i + 2),
        CyclicByte(key, 4 * i + 3);
    AgreeOnBytes(b0, b1, b2, b3);
    BenignBytes(key, i);
  }

  lemma BenignBytes(key: seq<bv8>, i: nat)
    ensures var b0, b1, b2, b3 := CyclicByte(key, 4 * i), CyclicByte(key, 4 * i + 1), CyclicByte(key, 4 * i + 2),
            CyclicByte(key, 4 * i + 3);
            Benign(key, i) <==>
            (b1 >= 0x80 ==> b0 == 0xFF) &&
            (b2 >= 0x80 ==> b0 == 0xFF && b1 == 0xFF) &&
            (b3 >= 0x80 ==> b0 == 0xFF && b1 == 0xFF && b2 == 0xFF)
  {
    hide CyclicByte;
    assert BlockByte(key, i, 0) == CyclicByte(key, 4 * i) && BlockByte(key, i, 1) == CyclicByte(key, 4 * i + 1);
    assert BlockByte(key, i, 2) == CyclicByte(key, 4 * i + 2) && BlockByte(key, i, 3) == CyclicByte(key, 4 * i + 3);
  }

  /** Only passwords holding the byte 0xFF are affected by the safety measure. */
  lemma CollisionNeedsFF(key: seq<bv8>)
    requires Collides(key)
    ensures 0xFF in key
  {
    CollisionExactly(key);
    var a, b :| 0 <= a && 0 <= b && (a < WORDS || (a == WORDS && b < 0)) && Overwrites(key, a, b);
    assert Benign(key, a);
    assert BlockByte(key, a, b) >= 0x80 && BlockByte(key, a, 0) == 0xFF;
    var p := (4 * a) % (|key| + 1);
    assert p < |key| && key[p] == 0xFF;
  }

  // ---- The key part of the self-test ----

  /** The key that the self-test expands: 0xFF 0xA3 "34" 0xFF 0xFF 0xFF 0xA3 "345". */
  function SelfTestKey(): (key: seq<bv8>)
    ensures |key| == 11 && IsCString(key)
  {
    [0xFF, 0xA3, 0x33, 0x34, 0xFF, 0xFF, 0xFF, 0xA3, 0x33, 0x34, 0x35]
  }

  lemma SelfTestBlocks(i: nat)
    ensures var key := SelfTestKey();
            var b0, b1, b2, b3 := CyclicByte(key, 4 * i), CyclicByte(key, 4 * i + 1), CyclicByte(key, 4 * i + 2),
                CyclicByte(key, 4 * i + 3);
            && (i % 3 == 0 ==> b0 == 0xFF && b1 == 0xA3 && b2 == 0x33 && b3 == 0x34)
            && (i % 3 == 1 ==> b0 == 0xFF && b1 == 0xFF && b2 == 0xFF && b3 == 0xA3)
            && (i % 3 == 2 ==> b0 == 0x33 && b1 == 0x34 && b2 == 0x35 && b3 == 0x00)
  {
    var key := SelfTestKey();
    BlockIndex(i, 0);
    BlockIndex(i, 1);
    BlockIndex(i, 2);
    BlockIndex(i, 3);
  }

  lemma BlockIndex(i: nat, j: nat)
    requires j < 4
    ensures (4 * i + j) % 12 == 4 * (i % 3) + j
  {
    assert 4 * i + j == 12 * (i / 3) + (4 * (i % 3) + j);
  }

  /** What the self-test compares is what BfSetKey computes: the key collides, so with and without the safety
      flag the expansions agree but for bit 16 of the first word, and the last word is as expected. */
  lemma SelfTestPasses()
    ensures Collides(SelfTestKey())
    ensures KeyWord(SelfTestKey(), 17, false) == 0x33343500
    ensures Xor(0x243F6A88, KeyWord(SelfTestKey(), 0, false)) == 0xDB9C59BC
  {
    var key := SelfTestKey();
    hide SelfTestKey, Collides, KeyWord;
    forall i | 0 <= i < WORDS ensures Benign(key, i) {
      SelfTestBlocks(i);
      BenignBytes(key, i);
    }
    SelfTestBlocks(0);
    assert Overwrites(key, 0, 1);
    CollisionExactly(key);
    SelfTestBlocks(17);
    KeyWordBytes(key, 17);
    KeyWordBytes(key, 0);
  }
}
