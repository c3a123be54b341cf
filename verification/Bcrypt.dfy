/** Salt generation, hashing and checking around the Blowfish kernel.

    The expensive loop is a parameter: any function of the password, the salt bytes, the cost and
    the subtype's flags. What is proved is what the text handling around it guarantees. */
module Bcrypt {
  import opened Radix64
  import opened Wrappers

  datatype Errno = ERANGE | EINVAL

  /** Byte `i` of the raw hash of a password under a salt, a cost and flags. */
  type Kernel = (Text, seq<bv8>, nat, bv8, nat) -> bv8

  const SALT_BYTES := 16
  const HASH_BYTES := 23
  const SETTING_CHARS := 29
  const HASH_CHARS := 60
  const BCRYPT_HASHSIZE := 64

  /** flags_by_subtype: "2a", "2b", "2x" and "2y"; 0 for every other letter. */
  function Flags(subtype: bv8): bv8 {
    if subtype == 0x61 then 2 else if subtype == 0x62 || subtype == 0x79 then 4 else if subtype == 0x78 then 1 else 0
  }

  /** The checks on the first seven characters of a setting, short-circuiting at its end. */
  predicate GoodHeader(s: Text) {
    && CharAt(s, 0) == 0x24
    && CharAt(s, 1) == 0x32
    && 0x61 <= CharAt(s, 2) <= 0x7A
    && Flags(CharAt(s, 2)) != 0
    && CharAt(s, 3) == 0x24
    && 0x30 <= CharAt(s, 4) <= 0x33
    && 0x30 <= CharAt(s, 5) <= 0x39
    && !(CharAt(s, 4) == 0x33 && CharAt(s, 5) > 0x31)
    && CharAt(s, 6) == 0x24
  }

  function Cost(s: Text): nat
    requires GoodHeader(s)
  {
    (CharAt(s, 4) - 0x30) as nat * 10 + (CharAt(s, 5) - 0x30) as nat
  }

  /** A setting that hashing accepts: header, cost of at least 4 (count >= 16), and a readable salt. */
  predicate Accepts(s: Text) {
    GoodHeader(s) && Cost(s) >= 4 && |s| >= 7 && Decodable(s[7..], SALT_BYTES)
  }

  lemma SaltChars()
    ensures Chars(SALT_BYTES) == 22 && Chars(HASH_BYTES) == 31
  {
  }

  function SaltOf(s: Text): seq<bv8>
    requires Accepts(s)
  {
    Decode(s[7..], SALT_BYTES)
  }

  function Digest(k: Kernel, key: Text, s: Text): (d: seq<bv8>)
    requires Accepts(s)
    ensures |d| == HASH_BYTES
  {
    seq(HASH_BYTES, i requires 0 <= i < HASH_BYTES => k(key, SaltOf(s), Cost(s), Flags(s[2]), i))
  }

  /** The hash string: the setting with its salt in canonical form, then the encoded digest. */
  function HashOf(k: Kernel, key: Text, s: Text): (h: Text)
    requires Accepts(s)
    ensures |h| == HASH_CHARS
  {
    SaltChars();
    EncodeLength(Digest(k, key, s));
    s[..7] + Canonical(s[7..SETTING_CHARS], SALT_BYTES) + Encode(Digest(k, key, s))
  }

  /** The accepted headers are "$2", a known letter, "$", a cost of two digits up to 31, and "$". */
  lemma HeaderForm(s: Text)
    ensures GoodHeader(s) <==>
            |s| >= 7 && Flags(s[2]) != 0 && s[..2] == [0x24, 0x32] && s[3] == 0x24 && s[6] == 0x24 &&
            0x30 <= s[4] <= 0x39 && 0x30 <= s[5] <= 0x39 && (s[4] - 0x30) as nat * 10 + (s[5] - 0x30) as nat <= 31
    ensures GoodHeader(s) ==> Cost(s) == (s[4] - 0x30) as nat * 10 + (s[5] - 0x30) as nat
  {
  }

  /** The flags of the subtypes: 'a' asks for the safety measure, 'x' for the emulated bug, 'b' and 'y' for
      neither; no other letter is accepted. */
  lemma FlagTable(c: bv8)
    ensures Flags('a' as bv8) == 2 && Flags('b' as bv8) == 4 && Flags('x' as bv8) == 1 && Flags('y' as bv8) == 4
    ensures Flags(c) != 0 <==> c == 'a' as bv8 || c == 'b' as bv8 || c == 'x' as bv8 || c == 'y' as bv8
  {
  }

  /** The last 31 characters of a hash decode to the kernel's bytes for the password, the salt, the cost and
      the flags of the setting. */
  lemma HashDecodes(k: Kernel, key: Text, s: Text)
    requires Accepts(s)
    ensures |HashOf(k, key, s)[SETTING_CHARS..]| == Chars(HASH_BYTES) && Valid(HashOf(k, key, s)[SETTING_CHARS..])
    ensures |s| > 2
    ensures forall i :: 0 <= i < HASH_BYTES ==>
              Decode(HashOf(k, key, s)[SETTING_CHARS..], HASH_BYTES)[i] == k(key, SaltOf(s), Cost(s), Flags(s[2]), i)
  {
    SaltChars();
    DecodeEncode(Digest(k, key, s));
    hide Decode, Encode, Canonical, Valid, Decodable;
    assert HashOf(k, key, s)[SETTING_CHARS..] == Encode(Digest(k, key, s));
  }

  // ---- Hashing with a hash as the setting ----

  lemma HeaderPrefix(s: Text, t: Text)
    requires |s| >= 7 && |t| >= 7 && s[..7] == t[..7]
    ensures GoodHeader(s) <==> GoodHeader(t)
    ensures GoodHeader(s) ==> Cost(s) == Cost(t) && s[2] == t[2]
  {
    hide Flags;
    forall i | 0 <= i < 7 ensures CharAt(s, i) == CharAt(t, i) {
      assert s[i] == s[..7][i] && t[i] == t[..7][i];
    }
  }

  lemma DecodablePrefix(t: Text, n: nat)
    requires |t| >= Chars(n)
    ensures Decodable(t[..Chars(n)], n) <==> Decodable(t, n)
    ensures Decode(t[..Chars(n)], n) == Decode(t, n)
  {
    hide Valid, Decode;
    DecodePrefix(t, n);
    assert t[..Chars(n)][..Chars(n)] == t[..Chars(n)];
  }

  lemma SettingPrefix(s: Text, t: Text)
    requires |s| >= SETTING_CHARS && |t| >= SETTING_CHARS && s[..SETTING_CHARS] == t[..SETTING_CHARS]
    ensures Accepts(s) <==> Accepts(t)
    ensures Accepts(s) ==> SaltOf(s) == SaltOf(t) && Cost(s) == Cost(t) && s[2] == t[2]
  {
    hide GoodHeader, Cost, Decodable, Decode, Chars;
    SaltChars();
    assert s[..7] == s[..SETTING_CHARS][..7] && t[..7] == t[..SETTING_CHARS][..7];
    assert s[7..][..22] == s[..SETTING_CHARS][7..] && t[7..][..22] == t[..SETTING_CHARS][7..];
    HeaderPrefix(s, t);
    DecodablePrefix(s[7..], SALT_BYTES);
    DecodablePrefix(t[7..], SALT_BYTES);
  }

  lemma {:induction false} DecodePrefix(t: Text, n: nat)
    requires |t| >= Chars(n)
    ensures Decode(t[..Chars(n)], n) == Decode(t, n)
    decreases n
  {
    hide Byte1, Byte2, Byte3, Value;
    if n >= 3 {
      CharsStep(n);
      DecodePrefix(t[4..], n - 3);
      assert t[..Chars(n)][4..] == t[4..][..Chars(n - 3)];
    }
  }

  /** The canonical setting is accepted and means the same. */
  lemma CanonicalSetting(s: Text)
    requires Accepts(s)
    ensures |s| >= SETTING_CHARS && |s[7..SETTING_CHARS]| == Chars(SALT_BYTES)
    ensures var c := s[..7] + Canonical(s[7..SETTING_CHARS], SALT_BYTES);
            && |c| == SETTING_CHARS && Accepts(c)
            && SaltOf(c) == SaltOf(s) && Cost(c) == Cost(s) && c[2] == s[2]
            && Canonical(c[7..], SALT_BYTES) == c[7..]
  {
    SaltChars();
    hide Canonical, Decode, Chars, Atoi64;
    assert Chars(SALT_BYTES) == 22;
    var salt := s[7..SETTING_CHARS];
    assert s[7..][..22] == salt;
    CanonicalDecodesAlike(salt, SALT_BYTES);
    DecodePrefix(s[7..], SALT_BYTES);
    var c := s[..7] + Canonical(salt, SALT_BYTES);
    assert c[7..] == Canonical(salt, SALT_BYTES);
    assert c[7..][..22] == c[7..];
    assert forall i :: 0 <= i < 7 ==> CharAt(c, i) == CharAt(s, i);
  }

  /** Hashing again with the hash as the setting reproduces the hash. */
  lemma HashIsFixpoint(k: Kernel, key: Text, s: Text)
    requires Accepts(s)
    ensures Accepts(HashOf(k, key, s))
    ensures HashOf(k, key, HashOf(k, key, s)) == HashOf(k, key, s)
  {
    SameSetting(k, key, key, s);
  }

  // ---- Buffers and C strings ----

  /** The string that a NUL-terminated buffer holds. */
  function CString(buf: seq<bv8>): Text {
    if buf == [] || buf[0] == 0 then [] else [buf[0]] + CString(buf[1..])
  }

  predicate NoNul(t: Text) {
    forall i :: 0 <= i < |t| ==> t[i] != 0
  }

  lemma {:induction false} CStringOf(t: Text, rest: seq<bv8>)
    requires NoNul(t)
    ensures CString(t + [0] + rest) == t
  {
    if t == [] {
      assert t + [0] + rest == [0] + rest;
    } else {
      assert (t + [0] + rest)[1..] == t[1..] + [0] + rest;
      CStringOf(t[1..], rest);
    }
  }

  lemma ValidHasNoNul(t: Text)
    requires Valid(t)
    ensures NoNul(t)
  {
    assert Atoi64(0).None?;
  }

  lemma HeaderHasNoNul(s: Text)
    requires GoodHeader(s) && |s| >= 7
    ensures NoNul(s[..7])
  {
    forall i | 0 <= i < 7 ensures s[i] != 0 {
      assert CharAt(s, i) == s[i];
      assert i == 0 || i == 1 || i == 2 || i == 3 || i == 4 || i == 5 || i == 6;
    }
  }

  lemma HashHasNoNul(k: Kernel, key: Text, s: Text)
    requires Accepts(s)
    ensures NoNul(HashOf(k, key, s))
  {
    SaltChars();
    hide Canonical, Encode, Decode, Digest, GoodHeader, Chars;
    var salt := s[7..SETTING_CHARS];
    assert Valid(salt) by { assert s[7..][..22] == salt; }
    CanonicalDecodesAlike(salt, SALT_BYTES);
    DecodeEncode(Digest(k, key, s));
    hide Valid;
    ValidHasNoNul(Canonical(salt, SALT_BYTES));
    ValidHasNoNul(Encode(Digest(k, key, s)));
    HeaderHasNoNul(s);
    JoinNoNul(s[..7], Canonical(salt, SALT_BYTES), Encode(Digest(k, key, s)));
  }

  lemma JoinNoNul(a: Text, b: Text, c: Text)
    requires NoNul(a) && NoNul(b) && NoNul(c)
    ensures NoNul(a + b + c)
  {
  }

  // ---- BF_crypt and its wrappers ----

  /** BF_crypt after the checks of size and setting: fills the output buffer. */
  method BfCryptOutput(k: Kernel, key: Text, setting: Text, output: array<bv8>)
    requires Accepts(setting) && output.Length > HASH_CHARS
    modifies output
    ensures output[..HASH_CHARS] == HashOf(k, key, setting) && output[HASH_CHARS] == 0
  {
    hide Canonical, Encode, Decode, Digest, GoodHeader, Chars, Char, Value, Valid, Atoi64;
    SaltChars();
    ghost var salt := setting[7..SETTING_CHARS];
    var digest := Digest(k, key, setting);
    assert |setting| >= SETTING_CHARS;
    forall i | 0 <= i < SETTING_CHARS - 1 {
      output[i] := setting[i];
    }
    output[SETTING_CHARS - 1] := Char(Value(setting[SETTING_CHARS - 1]) & 0x30);
    assert output[..SETTING_CHARS] == setting[..7] + Canonical(salt, SALT_BYTES) by {
      CanonicalSalt(salt);
    }
    ghost var before := output[..];
    BfEncode(output, SETTING_CHARS, digest);
    assert output[..HASH_CHARS] == before[..SETTING_CHARS] + Encode(digest) by {
      assert output[..] == before[..SETTING_CHARS] + Encode(digest)[..31] + before[HASH_CHARS..];
    }
    output[HASH_CHARS] := 0;
  }

  /** The last salt character is rewritten with its low four bits cleared. */
  lemma CanonicalSalt(salt: Text)
    requires |salt| == 22
    ensures Chars(SALT_BYTES) == 22
    ensures Canonical(salt, SALT_BYTES) == salt[..21] + [Char(Value(salt[21]) & 0x30)]
  {
    hide Char, Value;
  }

  /** BF_crypt with min = 16. */
  method BfCrypt(k: Kernel, key: Text, setting: Text, output: array<bv8>) returns (r: Option<Errno>)
    modifies output
    ensures output.Length < HASH_CHARS + 1 ==> r == Some(ERANGE)
    ensures output.Length >= HASH_CHARS + 1 ==> r == if Accepts(setting) then None else Some(EINVAL)
    ensures r.Some? ==> output[..] == old(output[..])
    ensures r.None? ==> output[..HASH_CHARS] == HashOf(k, key, setting) && output[HASH_CHARS] == 0
  {
    hide Decode, Decodable, HashOf;
    if output.Length < 7 + 22 + 31 + 1 {
      return Some(ERANGE);
    }
    if CharAt(setting, 0) != 0x24 || CharAt(setting, 1) != 0x32 ||
       CharAt(setting, 2) < 0x61 || CharAt(setting, 2) > 0x7A ||
       Flags(CharAt(setting, 2)) == 0 || CharAt(setting, 3) != 0x24 || CharAt(setting, 4) < 0x30 ||
       CharAt(setting, 4) > 0x33 || CharAt(setting, 5) < 0x30 || CharAt(setting, 5) > 0x39 ||
       (CharAt(setting, 4) == 0x33 && CharAt(setting, 5) > 0x31) || CharAt(setting, 6) != 0x24 {
      return Some(EINVAL);
    }
    HeaderLength(setting);
    var count := (CharAt(setting, 4) - 0x30) as nat * 10 + (CharAt(setting, 5) - 0x30) as nat;
    if count < 4 {
      return Some(EINVAL);
    }
    var salt := BfDecode(setting[7..], SALT_BYTES);
    if salt.Err? {
      return Some(EINVAL);
    }
    BfCryptOutput(k, key, setting, output);
    return None;
  }

  lemma HeaderLength(s: Text)
    requires GoodHeader(s)
    ensures |s| >= 7
  {
  }

  /** _crypt_output_magic: an invalid string, different from the setting, for failed hashing. */
  method OutputMagic(setting: Text, output: array<bv8>)
    requires output.Length >= 3
    modifies output
    ensures CString(output[..]) ==
            (if CharAt(setting, 0) == 0x2A && CharAt(setting, 1) == 0x30 then [0x2A, 0x31] else [0x2A, 0x30])
    ensures CString(output[..]) != setting
  {
    output[0] := 0x2A;
    output[1] := 0x30;
    output[2] := 0;
    if CharAt(setting, 0) == 0x2A && CharAt(setting, 1) == 0x30 {
      output[1] := 0x31;
    }
    assert output[..] == [0x2A, output[1]] + [0] + output[3..];
    CStringOf([0x2A, output[1]], output[3..]);
  }

  /** bcrypt_hashpw into a buffer of BCRYPT_HASHSIZE bytes; `sane` is the verdict of the self-test that
      crypt_rn makes after hashing. */
  method HashPw(k: Kernel, sane: bool, passwd: Text, salt: Text, hash: array<bv8>) returns (ret: int)
    requires hash.Length == BCRYPT_HASHSIZE
    modifies hash
    ensures ret == if Accepts(salt) && sane then 0 else 1
    ensures ret == 0 ==> CString(hash[..]) == HashOf(k, passwd, salt)
    ensures ret == 0 ==>
              var h := CString(hash[..]);
              |h| == HASH_CHARS && |h[SETTING_CHARS..]| == Chars(HASH_BYTES) && Valid(h[SETTING_CHARS..]) &&
              forall i :: 0 <= i < HASH_BYTES ==>
                Decode(h[SETTING_CHARS..], HASH_BYTES)[i] == k(passwd, SaltOf(salt), Cost(salt), Flags(salt[2]), i)
    ensures ret != 0 ==> CString(hash[..]) != salt && |CString(hash[..])| == 2
  {
    hide Accepts, HashOf;
    OutputMagic(salt, hash);
    var aux := BfCrypt(k, passwd, salt, hash);
    if !sane {
      OutputMagic(salt, hash);
      return 1;
    }
    if aux.Some? {
      return 1;
    }
    HashHasNoNul(k, passwd, salt);
    HashDecodes(k, passwd, salt);
    assert hash[..] == hash[..HASH_CHARS] + [hash[HASH_CHARS]] + hash[HASH_CHARS + 1..];
    CStringOf(hash[..HASH_CHARS], hash[HASH_CHARS + 1..]);
    return 0;
  }

  // ---- Comparing and checking ----

  lemma OrZero(a: bv8, b: bv8, c: bv8)
    ensures a | (b ^ c) == 0 <==> a == 0 && b == c
  {
  }

  /** timing_safe_strcmp: zero exactly for equal strings. */
  method TimingSafeStrcmp(str1: Text, str2: Text) returns (ret: int)
    ensures ret == 0 <==> str1 == str2
  {
    if |str1| != |str2| {
      return 1;
    }
    var acc: bv8 := 0;
    for i := 0 to |str1|
      invariant acc == 0 <==> str1[..i] == str2[..i]
    {
      OrZero(acc, str1[i], str2[i]);
      acc := acc | (str1[i] ^ str2[i]);
      assert str1[..i + 1] == str1[..i] + [str1[i]] && str2[..i + 1] == str2[..i] + [str2[i]];
    }
    assert str1[..|str1|] == str1 && str2[..|str1|] == str2;
    return acc as int;
  }

  /** What bcrypt_checkpw decides: the hash is the hash of the password under itself. */
  predicate Matches(k: Kernel, passwd: Text, hash: Text) {
    Accepts(hash) && HashOf(k, passwd, hash) == hash
  }

  /** bcrypt_checkpw. */
  method CheckPw(k: Kernel, sane: bool, passwd: Text, hash: Text) returns (ret: int)
    ensures ret == 0 <==> sane && Matches(k, passwd, hash)
    ensures !Accepts(hash) || !sane ==> ret == -1
  {
    hide Accepts, HashOf, CString;
    var outhash := new bv8[BCRYPT_HASHSIZE](_ => 0);
    ret := HashPw(k, sane, passwd, hash, outhash);
    if ret != 0 {
      return -1;
    }
    ret := TimingSafeStrcmp(hash, CStringOfBuffer(outhash[..]));
  }

  function CStringOfBuffer(buf: seq<bv8>): Text {
    CString(buf)
  }

  /** A password checks against every hash made from it, under any accepted setting. */
  lemma OwnHashMatches(k: Kernel, passwd: Text, setting: Text)
    requires Accepts(setting)
    ensures Matches(k, passwd, HashOf(k, passwd, setting))
  {
    HashIsFixpoint(k, passwd, setting);
  }

  /** A password checks against the hash of another exactly if the kernel gives both the same bytes. */
  lemma MatchesExactlyAlike(k: Kernel, p: Text, q: Text, s: Text)
    requires Accepts(s)
    ensures |s| > 2
    ensures Matches(k, q, HashOf(k, p, s)) <==>
            forall i :: 0 <= i < HASH_BYTES ==>
              k(q, SaltOf(s), Cost(s), Flags(s[2]), i) == k(p, SaltOf(s), Cost(s), Flags(s[2]), i)
  {
    hide Canonical, Encode, SaltOf, Cost, Flags, Decode, Valid, Decodable, HashOf;
    var h := HashOf(k, p, s);
    HashIsFixpoint(k, p, s);
    SameSetting(k, p, q, s);
    HashDecodes(k, p, s);
    HashDecodes(k, q, s);
    if forall i :: 0 <= i < HASH_BYTES ==>
         k(q, SaltOf(s), Cost(s), Flags(s[2]), i) == k(p, SaltOf(s), Cost(s), Flags(s[2]), i) {
      SameDigest(k, p, q, s);
    }
  }

  lemma SameDigest(k: Kernel, p: Text, q: Text, s: Text)
    requires Accepts(s) && |s| > 2
    requires forall i :: 0 <= i < HASH_BYTES ==>
               k(q, SaltOf(s), Cost(s), Flags(s[2]), i) == k(p, SaltOf(s), Cost(s), Flags(s[2]), i)
    ensures HashOf(k, q, s) == HashOf(k, p, s)
  {
    hide Accepts, SaltOf, Cost, Flags, Encode, Canonical;
    assert Digest(k, q, s) == Digest(k, p, s);
  }

  /** Hashing with a hash as the setting is hashing with the setting it was made with. */
  lemma SameSetting(k: Kernel, p: Text, q: Text, s: Text)
    requires Accepts(s)
    ensures Accepts(HashOf(k, p, s)) && HashOf(k, q, HashOf(k, p, s)) == HashOf(k, q, s)
  {
    SaltChars();
    hide Accepts, Canonical, Decode, Encode, SaltOf, Cost, Flags;
    CanonicalSetting(s);
    var h := HashOf(k, p, s);
    var c := s[..7] + Canonical(s[7..SETTING_CHARS], SALT_BYTES);
    assert h[..SETTING_CHARS] == c == c[..SETTING_CHARS];
    SettingPrefix(c, h);
    assert h[..7] == c[..7] && h[7..SETTING_CHARS] == c[7..];
    assert Digest(k, q, h) == Digest(k, q, s);
  }

  /** A hash string matches a password exactly if it is the hash of that password under some
      accepted setting. */
  lemma MatchesExactlyHashes(k: Kernel, passwd: Text, hash: Text)
    ensures Matches(k, passwd, hash) <==> exists s :: Accepts(s) && hash == HashOf(k, passwd, s)
  {
    hide Accepts, HashOf;
    if exists s :: Accepts(s) && hash == HashOf(k, passwd, s) {
      var s :| Accepts(s) && hash == HashOf(k, passwd, s);
      OwnHashMatches(k, passwd, s);
    }
  }

  // ---- Generating a setting ----

  function Digit(n: nat): bv8
    requires n < 10
  {
    0x30 + n as bv8
  }

  /** The setting string for a subtype letter, a cost and sixteen bytes. */
  function Setting(subtype: bv8, cost: nat, input: seq<bv8>): Text
    requires 4 <= cost <= 31 && |input| == SALT_BYTES
  {
    [0x24, 0x32, subtype, 0x24, Digit(cost / 10), Digit(cost % 10), 0x24] + Encode(input)
  }

  predicate GensaltSubtype(c: bv8) {
    c == 0x61 || c == 0x62 || c == 0x79
  }

  /** A generated setting is accepted, carries its cost, and decodes to the bytes it was made of. */
  lemma SettingAccepted(subtype: bv8, cost: nat, input: seq<bv8>)
    requires GensaltSubtype(subtype) && 4 <= cost <= 31 && |input| == SALT_BYTES
    ensures var s := Setting(subtype, cost, input);
            |s| == SETTING_CHARS && s[2] == subtype && NoNul(s) && Accepts(s) && SaltOf(s) == input && Cost(s) == cost
  {
    SaltChars();
    DecodeEncode(input);
    var s := Setting(subtype, cost, input);
    hide Encode, Decode, Chars, Valid;
    assert s[7..] == Encode(input) && Encode(input)[..22] == Encode(input);
    CostDigits(cost);
    hide Digit;
    GoodSetting(s, subtype, cost);
    assert Decodable(s[7..], SALT_BYTES);
    HeaderHasNoNul(s);
    ValidHasNoNul(Encode(input));
    JoinNoNul(s[..7], Encode(input), []);
    assert s == s[..7] + Encode(input) + [];
  }

  lemma GoodSetting(s: Text, subtype: bv8, cost: nat)
    requires GensaltSubtype(subtype) && 4 <= cost <= 31 && |s| >= 7
    requires s[..7] == [0x24, 0x32, subtype, 0x24, Digit(cost / 10), Digit(cost % 10), 0x24]
    ensures GoodHeader(s) && Cost(s) == cost
  {
    CostDigits(cost);
    hide Digit;
    forall i | 0 <= i < 7 ensures CharAt(s, i) == s[..7][i] {
    }
  }

  lemma CostDigits(cost: nat)
    requires 4 <= cost <= 31
    ensures var tens, ones := Digit(cost / 10), Digit(cost % 10);
            && 0x30 <= tens <= 0x33 && 0x30 <= ones <= 0x39 && !(tens == 0x33 && ones > 0x31)
            && (tens - 0x30) as nat * 10 + (ones - 0x30) as nat == cost
  {
    DigitValue(cost / 10);
    DigitValue(cost % 10);
  }

  lemma DigitValue(n: nat)
    requires n < 10
    ensures 0x30 <= Digit(n) <= 0x39 && (Digit(n) - 0x30) as nat == n
    ensures n <= 3 ==> Digit(n) <= 0x33
    ensures Digit(n) == 0x33 <==> n == 3
    ensures Digit(n) > 0x31 <==> n > 1
  {
    if n == 0 {} else if n == 1 {} else if n == 2 {} else if n == 3 {} else if n == 4 {}
    else if n == 5 {} else if n == 6 {} else if n == 7 {} else if n == 8 {} else { assert n == 9; }
  }

  /** _crypt_gensalt_blowfish_rn. */
  method GensaltBlowfish(prefix: Text, count: nat, input: seq<bv8>, output: array<bv8>) returns (r: Option<Errno>)
    modifies output
    ensures r.None? <==>
            |input| >= SALT_BYTES && output.Length >= SETTING_CHARS + 1 && (count == 0 || 4 <= count <= 31) &&
            CharAt(prefix, 0) == 0x24 && CharAt(prefix, 1) == 0x32 && GensaltSubtype(CharAt(prefix, 2))
    ensures r.Some? ==> (output.Length > 0 ==> CString(output[..]) == [])
    ensures r.Some? ==> (r == Some(ERANGE) <==> output.Length < SETTING_CHARS + 1)
    ensures r.None? ==>
              var cost := if count == 0 then 5 else count;
              output[..SETTING_CHARS] == Setting(CharAt(prefix, 2), cost, input[..SALT_BYTES]) &&
              output[SETTING_CHARS] == 0
  {
    hide Digit, Encode, Chars, GensaltSubtype;
    if |input| < 16 || output.Length < 7 + 22 + 1 || (count != 0 && (count < 4 || count > 31)) ||
       CharAt(prefix, 0) != 0x24 || CharAt(prefix, 1) != 0x32 || !GensaltSubtype(CharAt(prefix, 2)) {
      if output.Length > 0 {
        output[0] := 0;
      }
      return Some(if output.Length < 7 + 22 + 1 then ERANGE else EINVAL);
    }
    var cost := if count == 0 then 5 else count;
    output[0], output[1], output[2], output[3] := 0x24, 0x32, CharAt(prefix, 2), 0x24;
    output[4] := Digit(cost / 10);
    output[5] := Digit(cost % 10);
    output[6] := 0x24;
    SaltChars();
    ghost var before := output[..];
    BfEncode(output, 7, input[..16]);
    assert output[..SETTING_CHARS] == before[..7] + Encode(input[..16]) by {
      assert output[..] == before[..7] + Encode(input[..16])[..22] + before[29..];
    }
    output[7 + 22] := 0;
    return None;
  }

  /** What the random device does: whether it opens, what try_read gets from it, whether it closes. */
  datatype Device = Device(opens: bool, bytes: Option<seq<bv8>>, closes: bool) {
    predicate Valid() {
      bytes.Some? ==> |bytes.value| == SALT_BYTES
    }
  }

  /** bcrypt_gensalt: the return code tells which use of the device failed; out-of-range factors become 12. */
  method Gensalt(factor: int, urandom: Device, salt: array<bv8>) returns (ret: int)
    requires urandom.Valid() && salt.Length == BCRYPT_HASHSIZE
    modifies salt
    ensures ret == 1 <==> !urandom.opens
    ensures ret == 2 <==> urandom.opens && urandom.bytes.None? && urandom.closes
    ensures ret == 4 <==> urandom.opens && urandom.bytes.None? && !urandom.closes
    ensures ret == 3 <==> urandom.opens && urandom.bytes.Some? && !urandom.closes
    ensures ret == 0 <==> urandom.opens && urandom.bytes.Some? && urandom.closes
    ensures ret == 0 ==>
              var s := CString(salt[..]);
              Accepts(s) && SaltOf(s) == urandom.bytes.value && Cost(s) == if 4 <= factor <= 31 then factor else 12
    ensures ret != 0 ==> salt[..] == old(salt[..])
  {
    hide Accepts, SaltOf, Cost, Setting, CString;
    if !urandom.opens {
      return 1;
    }
    if urandom.bytes.None? {
      return if urandom.closes then 2 else 4;
    }
    if !urandom.closes {
      return 3;
    }
    var input := urandom.bytes.value;
    var workf := if factor < 4 || factor > 31 then 12 else factor;
    var aux := GensaltBlowfish([0x24, 0x32, 0x61, 0x24], workf, input, salt);
    assert input[..SALT_BYTES] == input;
    SettingAccepted(0x61, workf, input);
    assert salt[..] == salt[..SETTING_CHARS] + [0] + salt[SETTING_CHARS + 1..];
    CStringOf(salt[..SETTING_CHARS], salt[SETTING_CHARS + 1..]);
    return if aux.Some? then 5 else 0;
  }
}
