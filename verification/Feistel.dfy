/** BF_ENCRYPT: sixteen rounds over a pair of words, for arbitrary subkeys and S-boxes. */
module Feistel {
  import opened Words

  const ROUNDS := 16

  datatype Boxes = Boxes(s0: seq<Word>, s1: seq<Word>, s2: seq<Word>, s3: seq<Word>) {
    predicate Valid() {
      |s0| == |s1| == |s2| == |s3| == 0x100
    }
  }

  datatype Pair = Pair(l: Word, r: Word)

  /** A word as an index into an S-box. */
  function AsIndex(b: Word): (i: nat)
    requires b < 0x100
    ensures i < 0x100
  {
    b as nat
  }

  function Index(x: Word, shift: nat): (i: nat)
    requires shift == 0 || shift == 8 || shift == 16 || shift == 24
    ensures i < 0x100
  {
    LowByte(ShiftRight(x, shift));
    AsIndex(And(ShiftRight(x, shift), 0xFF))
  }

  lemma LowByte(x: Word)
    ensures And(x, 0xFF) < 0x100
  {
  }

  /** The round function: two additions and an exclusive or of four S-box entries. */
  function F(s: Boxes, x: Word): Word
    requires s.Valid()
  {
    Combine(s.s0[Index(x, 24)], s.s1[Index(x, 16)], s.s2[Index(x, 8)], s.s3[Index(x, 0)])
  }

  function Combine(a: Word, b: Word, c: Word, d: Word): Word {
    Plus(Xor(Plus(a, b), c), d)
  }

  /** The word changed by a round: BF_ROUND's R. */
  function Round(s: Boxes, subkey: Word, l: Word, r: Word): Word
    requires s.Valid()
  {
    Xor(Xor(r, subkey), F(s, l))
  }

  /** The state before round `n`, as (input of the round function, word to be changed). */
  function State(s: Boxes, p: seq<Word>, start: Pair, n: nat): Pair
    requires s.Valid() && |p| == ROUNDS + 2 && n <= ROUNDS
  {
    if n == 0 then Pair(Xor(start.l, p[0]), start.r)
    else
      var before := State(s, p, start, n - 1);
      Pair(Round(s, p[n], before.l, before.r), before.l)
  }

  function Encrypt(s: Boxes, p: seq<Word>, start: Pair): Pair
    requires s.Valid() && |p| == ROUNDS + 2
  {
    var last := State(s, p, start, ROUNDS);
    Pair(Xor(last.r, p[ROUNDS + 1]), last.l)
  }

  function Reversed(p: seq<Word>): (q: seq<Word>)
    ensures |q| == |p|
  {
    seq(|p|, i requires 0 <= i < |p| => p[|p| - 1 - i])
  }

  /** BF_ROUND(L, R, N): the new value of R. */
  method BfRound(s: Boxes, p: seq<Word>, l: Word, r: Word, n: nat) returns (r': Word)
    requires s.Valid() && |p| == ROUNDS + 2 && n < ROUNDS
    ensures r' == Round(s, p[n + 1], l, r)
  {
    ShiftedBytes(l);
    hide AsIndex, And, Plus, Xor, ShiftRight;
    assert F(s, l) == Plus(Xor(Plus(s.s0[Index(l, 24)], s.s1[Index(l, 16)]), s.s2[Index(l, 8)]), s.s3[Index(l, 0)]);
    var tmp1 := And(l, 0xFF);
    var tmp2 := ShiftRight(l, 8);
    tmp2 := And(tmp2, 0xFF);
    var tmp3 := ShiftRight(l, 16);
    tmp3 := And(tmp3, 0xFF);
    var tmp4 := ShiftRight(l, 24);
    tmp1 := s.s3[AsIndex(tmp1)];
    tmp2 := s.s2[AsIndex(tmp2)];
    tmp3 := s.s1[AsIndex(tmp3)];
    AddsAlike(tmp3, s.s0[AsIndex(tmp4)]);
    tmp3 := Plus(tmp3, s.s0[AsIndex(tmp4)]);
    tmp3 := Xor(tmp3, tmp2);
    r' := Xor(r, p[n + 1]);
    tmp3 := Plus(tmp3, tmp1);
    r' := Xor(r', tmp3);
  }

  lemma AddsAlike(a: Word, b: Word)
    ensures Plus(a, b) == Plus(b, a)
  {
  }

  /** BF_ENCRYPT: the rounds alternate between the two words, then the words are exchanged. */
  method BfEncrypt(s: Boxes, p: seq<Word>, l: Word, r: Word) returns (outL: Word, outR: Word)
    requires s.Valid() && |p| == ROUNDS + 2
    ensures Pair(outL, outR) == Encrypt(s, p, Pair(l, r))
  {
    hide F, Round, Xor;
    ghost var start := Pair(l, r);
    var L, R := l, r;
    L := Xor(L, p[0]);
    for n := 0 to ROUNDS
      invariant State(s, p, start, n) == if n % 2 == 0 then Pair(L, R) else Pair(R, L)
    {
      if n % 2 == 0 {
        R := BfRound(s, p, L, R, n);
      } else {
        L := BfRound(s, p, R, L, n);
      }
    }
    var tmp4 := R;
    outR := L;
    outL := Xor(tmp4, p[ROUNDS + 1]);
  }

  lemma ShiftedBytes(l: Word)
    ensures And(l, 0xFF) == And(ShiftRight(l, 0), 0xFF) < 0x100
    ensures And(ShiftRight(l, 8), 0xFF) < 0x100 && And(ShiftRight(l, 16), 0xFF) < 0x100
    ensures And(ShiftRight(l, 24), 0xFF) == ShiftRight(l, 24) < 0x100
  {
  }

  lemma XorCancels(a: Word, b: Word, c: Word)
    ensures Xor(Xor(a, b), b) == a
    ensures Xor(Xor(Xor(Xor(a, b), c), b), c) == a
  {
  }

  /** Running the rounds backward visits the same pairs, exchanged. */
  lemma {:induction false} StatesMirror(s: Boxes, p: seq<Word>, start: Pair, n: nat)
    requires s.Valid() && |p| == ROUNDS + 2 && n <= ROUNDS
    ensures var fwd := State(s, p, start, ROUNDS - n);
            State(s, Reversed(p), Encrypt(s, p, start), n) == Pair(fwd.r, fwd.l)
  {
    hide Xor, F;
    var q, out := Reversed(p), Encrypt(s, p, start);
    if n == 0 {
      var last := State(s, p, start, ROUNDS);
      XorCancels(last.r, p[ROUNDS + 1], 0);
    } else {
      StatesMirror(s, p, start, n - 1);
      var k := ROUNDS - n;
      var before := State(s, p, start, k);
      var after := State(s, p, start, k + 1);
      assert after == Pair(Round(s, p[k + 1], before.l, before.r), before.l);
      assert q[n] == p[k + 1];
      XorCancels(before.r, p[k + 1], F(s, before.l));
    }
  }

  /** Encrypting with the subkeys reversed decrypts. */
  lemma DecryptInvertsEncrypt(s: Boxes, p: seq<Word>, start: Pair)
    requires s.Valid() && |p| == ROUNDS + 2
    ensures Encrypt(s, Reversed(p), Encrypt(s, p, start)) == start
  {
    hide Xor, F;
    StatesMirror(s, p, start, ROUNDS);
    XorCancels(start.l, p[0], 0);
  }

  lemma ReversedTwice(p: seq<Word>)
    ensures Reversed(Reversed(p)) == p
  {
  }

  /** For any subkeys and S-boxes the cipher is a permutation of the pairs of words: distinct pairs
      have distinct images, and every pair is an image. */
  lemma EncryptIsPermutation(s: Boxes, p: seq<Word>, a: Pair, b: Pair)
    requires s.Valid() && |p| == ROUNDS + 2
    ensures Encrypt(s, p, a) == Encrypt(s, p, b) <==> a == b
    ensures Encrypt(s, p, Encrypt(s, Reversed(p), a)) == a
  {
    hide Encrypt, Reversed;
    DecryptInvertsEncrypt(s, p, a);
    DecryptInvertsEncrypt(s, p, b);
    ReversedTwice(p);
    DecryptInvertsEncrypt(s, Reversed(p), a);
  }

  // ---- What the round function is, byte by byte ----

  /** The word with the value b3 * 2^24 + b2 * 2^16 + b1 * 2^8 + b0. */
  function WordOf(b3: bv8, b2: bv8, b1: bv8, b0: bv8): Word {
    b3 as Word * 0x100_0000 + b2 as Word * 0x1_0000 + b1 as Word * 0x100 + b0 as Word
  }

  lemma WordBytes(b3: bv8, b2: bv8, b1: bv8, b0: bv8)
    ensures var x := WordOf(b3, b2, b1, b0);
            && And(ShiftRight(x, 24), 0xFF) == b3 as Word && And(ShiftRight(x, 16), 0xFF) == b2 as Word
            && And(ShiftRight(x, 8), 0xFF) == b1 as Word && And(ShiftRight(x, 0), 0xFF) == b0 as Word
  {
  }

  lemma ByteIndex(b: bv8)
    ensures b as Word < 0x100 && AsIndex(b as Word) == b as nat
  {
  }

  lemma ByteIndices(b3: bv8, b2: bv8, b1: bv8, b0: bv8)
    ensures var x := WordOf(b3, b2, b1, b0);
            && Index(x, 24) == b3 as nat && Index(x, 16) == b2 as nat
            && Index(x, 8) == b1 as nat && Index(x, 0) == b0 as nat
  {
    hide WordOf, AsIndex, And, ShiftRight;
    WordBytes(b3, b2, b1, b0);
    ByteIndex(b3);
    ByteIndex(b2);
    ByteIndex(b1);
    ByteIndex(b0);
  }

  /** Every word is made of its bytes. */
  lemma EveryWord(x: Word) returns (b3: bv8, b2: bv8, b1: bv8, b0: bv8)
    ensures x == WordOf(b3, b2, b1, b0)
  {
    hide AsIndex;
    SmallBytes(x);
    b3, b2, b1, b0 := (x >> 24) as bv8, ((x >> 16) & 0xFF) as bv8, ((x >> 8) & 0xFF) as bv8, (x & 0xFF) as bv8;
  }

  lemma SmallBytes(x: Word)
    ensures x >> 24 < 0x100 && (x >> 16) & 0xFF < 0x100 && (x >> 8) & 0xFF < 0x100 && x & 0xFF < 0x100
  {
  }

  /** The round function reads the bytes of its word, the highest in the first box: for any boxes it
      adds the first two entries, takes the exclusive or with the third, and adds the fourth. */
  lemma RoundFunction(s: Boxes, b3: bv8, b2: bv8, b1: bv8, b0: bv8)
    requires s.Valid()
    ensures F(s, WordOf(b3, b2, b1, b0))
            == Plus(Xor(Plus(s.s0[b3 as nat], s.s1[b2 as nat]), s.s2[b1 as nat]), s.s3[b0 as nat])
  {
    hide WordOf, Index, Plus, Xor;
    ByteIndices(b3, b2, b1, b0);
  }

  predicate Zero(box: seq<Word>) {
    forall i :: 0 <= i < |box| ==> box[i] == 0
  }

  lemma ZeroAt(box: seq<Word>, i: nat)
    requires i < |box| && Zero(box)
    ensures box[i] == 0
  {
  }

  lemma CombineZeros(a: Word, b: Word, c: Word, d: Word)
    ensures b == c == d == 0 ==> Combine(a, b, c, d) == a
    ensures a == c == d == 0 ==> Combine(a, b, c, d) == b
    ensures a == b == d == 0 ==> Combine(a, b, c, d) == c
    ensures a == b == c == 0 ==> Combine(a, b, c, d) == d
  {
  }

  /** With the other boxes zero, a round changes its word by the subkey and by one box's entry for one
      byte of the other word. */
  lemma RoundOfOneBox(s: Boxes, k: Word, r: Word, b3: bv8, b2: bv8, b1: bv8, b0: bv8)
    requires s.Valid()
    ensures var changed := Round(s, k, WordOf(b3, b2, b1, b0), r);
            && (Zero(s.s1) && Zero(s.s2) && Zero(s.s3) ==> changed == Xor(Xor(r, k), s.s0[b3 as nat]))
            && (Zero(s.s0) && Zero(s.s2) && Zero(s.s3) ==> changed == Xor(Xor(r, k), s.s1[b2 as nat]))
            && (Zero(s.s0) && Zero(s.s1) && Zero(s.s3) ==> changed == Xor(Xor(r, k), s.s2[b1 as nat]))
            && (Zero(s.s0) && Zero(s.s1) && Zero(s.s2) ==> changed == Xor(Xor(r, k), s.s3[b0 as nat]))
  {
    hide WordOf, Index, Combine, Xor, Zero;
    ByteIndices(b3, b2, b1, b0);
    CombineZeros(s.s0[b3 as nat], s.s1[b2 as nat], s.s2[b1 as nat], s.s3[b0 as nat]);
    if Zero(s.s0) {
      ZeroAt(s.s0, b3 as nat);
    }
    if Zero(s.s1) {
      ZeroAt(s.s1, b2 as nat);
    }
    if Zero(s.s2) {
      ZeroAt(s.s2, b1 as nat);
    }
    if Zero(s.s3) {
      ZeroAt(s.s3, b0 as nat);
    }
  }

  // ---- Where the subkeys go ----

  /** A word turned left by one bit. */
  function Turned(x: Word): Word {
    (x << 1) | (x >> 31)
  }

  function TurnedEntry(b: bv8, byte: nat): Word {
    if byte == 3 then Turned(WordOf(b, 0, 0, 0))
    else if byte == 2 then Turned(WordOf(0, b, 0, 0))
    else if byte == 1 then Turned(WordOf(0, 0, b, 0))
    else Turned(WordOf(0, 0, 0, b))
  }

  /** Boxes under which the round function turns its word: each byte goes back to its place, one bit up. */
  ghost predicate Turning(s: Boxes) {
    && s.Valid()
    && forall b: bv8 ::
         && s.s0[b as nat] == TurnedEntry(b, 3) && s.s1[b as nat] == TurnedEntry(b, 2)
         && s.s2[b as nat] == TurnedEntry(b, 1) && s.s3[b as nat] == TurnedEntry(b, 0)
  }

  function BoxOf(byte: nat): (box: seq<Word>)
    ensures |box| == 0x100
  {
    seq(0x100, i requires 0 <= i < 0x100 => TurnedEntry(i as bv8, byte))
  }

  lemma TurningBoxesExist() returns (s: Boxes)
    ensures Turning(s)
  {
    hide TurnedEntry;
    s := Boxes(BoxOf(3), BoxOf(2), BoxOf(1), BoxOf(0));
    forall b: bv8
      ensures s.s0[b as nat] == TurnedEntry(b, 3) && s.s1[b as nat] == TurnedEntry(b, 2) &&
              s.s2[b as nat] == TurnedEntry(b, 1) && s.s3[b as nat] == TurnedEntry(b, 0)
    {
      assert (b as nat) as bv8 == b;
    }
  }

  lemma TurnedBytes(b3: bv8, b2: bv8, b1: bv8, b0: bv8)
    ensures Plus(Xor(Plus(TurnedEntry(b3, 3), TurnedEntry(b2, 2)), TurnedEntry(b1, 1)), TurnedEntry(b0, 0))
            == Turned(WordOf(b3, b2, b1, b0))
  {
  }

  lemma TurningF(s: Boxes, x: Word)
    requires Turning(s)
    ensures F(s, x) == Turned(x)
  {
    hide WordOf, Index, Turned, TurnedEntry, Plus, Xor;
    var b3, b2, b1, b0 := EveryWord(x);
    ByteIndices(b3, b2, b1, b0);
    TurnedBytes(b3, b2, b1, b0);
  }

  function TestKeys(): (p: seq<Word>)
    ensures |p| == ROUNDS + 2
  {
    [0x1, 0x2, 0x4, 0x8, 0x10, 0x20, 0x40, 0x80, 0x100, 0x200, 0x400, 0x800, 0x1000, 0x2000, 0x4000, 0x8000,
     0x1_0000, 0x2_0000]
  }

  /** One round with the test key and turning boxes. */
  lemma TurningState(s: Boxes, start: Pair, n: nat, before: Pair, after: Pair)
    requires Turning(s) && 1 <= n <= ROUNDS && State(s, TestKeys(), start, n - 1) == before
    requires after == Pair(Xor(Xor(before.r, TestKeys()[n]), Turned(before.l)), before.l)
    ensures State(s, TestKeys(), start, n) == after
  {
    hide F, Xor, Turned, TestKeys;
    TurningF(s, before.l);
  }

  /** The first half of the rounds under the test key. */
  lemma FirstRounds(s: Boxes)
    requires Turning(s)
    ensures State(s, TestKeys(), Pair(0x0123_4567, 0x89AB_CDEF), 8) == Pair(0xAD65_DB07, 0xE846_DB57)
  {
    hide State;
    var start := Pair(0x0123_4567, 0x89AB_CDEF);
    TurningStart(s);
    TurningState(s, start, 1, Pair(0x0123_4566, 0x89AB_CDEF), Pair(0x8BED_4721, 0x0123_4566));
    TurningState(s, start, 2, Pair(0x8BED_4721, 0x0123_4566), Pair(0x16F9_CB21, 0x8BED_4721));
    TurningState(s, start, 3, Pair(0x16F9_CB21, 0x8BED_4721), Pair(0xA61E_D16B, 0x16F9_CB21));
    TurningState(s, start, 4, Pair(0xA61E_D16B, 0x16F9_CB21), Pair(0x5AC4_69E6, 0xA61E_D16B));
    TurningState(s, start, 5, Pair(0x5AC4_69E6, 0xA61E_D16B), Pair(0x1396_0287, 0x5AC4_69E6));
    TurningState(s, start, 6, Pair(0x1396_0287, 0x5AC4_69E6), Pair(0x7DE8_6CA8, 0x1396_0287));
    TurningState(s, start, 7, Pair(0x7DE8_6CA8, 0x1396_0287), Pair(0xE846_DB57, 0x7DE8_6CA8));
    TurningState(s, start, 8, Pair(0xE846_DB57, 0x7DE8_6CA8), Pair(0xAD65_DB07, 0xE846_DB57));
  }

  lemma TurningStart(s: Boxes)
    requires s.Valid()
    ensures State(s, TestKeys(), Pair(0x0123_4567, 0x89AB_CDEF), 0) == Pair(0x0123_4566, 0x89AB_CDEF)
  {
  }

  /** Every subkey has its own place: with boxes that turn their word, and subkeys of one bit each, the
      result is the one that the rounds written out give. */
  lemma SubkeyPlaces(s: Boxes)
    requires Turning(s)
    ensures Encrypt(s, TestKeys(), Pair(0x0123_4567, 0x89AB_CDEF)) == Pair(0xCF72_9A05, 0x64F8_42CF)
  {
    hide State;
    var start := Pair(0x0123_4567, 0x89AB_CDEF);
    FirstRounds(s);
    TurningState(s, start, 9, Pair(0xAD65_DB07, 0xE846_DB57), Pair(0xB28D_6F58, 0xAD65_DB07));
    TurningState(s, start, 10, Pair(0xB28D_6F58, 0xAD65_DB07), Pair(0xC87F_01B6, 0xB28D_6F58));
    TurningState(s, start, 11, Pair(0xC87F_01B6, 0xB28D_6F58), Pair(0x2273_6435, 0xC87F_01B6));
    TurningState(s, start, 12, Pair(0x2273_6435, 0xC87F_01B6), Pair(0x8C99_D9DC, 0x2273_6435));
    TurningState(s, start, 13, Pair(0x8C99_D9DC, 0x2273_6435), Pair(0x3B40_F78C, 0x8C99_D9DC));
    TurningState(s, start, 14, Pair(0x3B40_F78C, 0x8C99_D9DC), Pair(0xFA18_76C4, 0x3B40_F78C));
    TurningState(s, start, 15, Pair(0xFA18_76C4, 0x3B40_F78C), Pair(0xCF70_9A05, 0xFA18_76C4));
    TurningState(s, start, 16, Pair(0xCF70_9A05, 0xFA18_76C4), Pair(0x64F8_42CF, 0xCF70_9A05));
  }
}
