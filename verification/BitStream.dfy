/** Bit strings, binary numbers in them, and the grouped digit coding shared by the segment modes. */
module BitStream {

  datatype Error = ValueOutOfRange

  function Pow2(n: nat): (p: nat)
    ensures p > 0
  {
    if n == 0 then 1 else 2 * Pow2(n - 1)
  }

  /** The lowest `len` bits of `val`, highest first. */
  function BitsOf(val: nat, len: nat): (b: seq<bool>)
    ensures |b| == len
    decreases len, val
  {
    if len == 0 then [] else BitsOf(val / 2, len - 1) + [val % 2 == 1]
  }

  function ValueOf(bits: seq<bool>): (v: nat)
    ensures v < Pow2(|bits|)
    decreases |bits|
  {
    if bits == [] then 0 else 2 * ValueOf(bits[..|bits| - 1]) + if bits[|bits| - 1] then 1 else 0
  }

  lemma {:induction false} ValueOfBits(val: nat, len: nat)
    requires val < Pow2(len)
    ensures ValueOf(BitsOf(val, len)) == val
    decreases len
  {
    if len > 0 {
      ValueOfBits(val / 2, len - 1);
      assert BitsOf(val, len)[..len - 1] == BitsOf(val / 2, len - 1);
    }
  }

  /** (val >> i) & 1. */
  function ShiftedBit(val: nat, i: nat): bool {
    (val / Pow2(i)) % 2 == 1
  }

  lemma HalveTwice(val: nat, p: nat)
    requires p > 0
    ensures val / (2 * p) == (val / 2) / p
  {
    var q := (val / 2) / p;
    var r := (val / 2) % p;
    assert val / 2 == q * p + r;
    assert val == q * (2 * p) + (2 * r + val % 2);
    DivStep(q, 2 * p, 2 * r + val % 2);
  }

  lemma MulAtLeast(k: nat, b: nat)
    requires k >= 1
    ensures k * b >= b
  {
  }

  /** Quotient and remainder are unique. */
  lemma DivStep(v: nat, b: nat, d: nat)
    requires d < b
    ensures (v * b + d) / b == v && (v * b + d) % b == d
  {
    var n := v * b + d;
    var q, r := n / b, n % b;
    assert n == q * b + r;
    assert (q - v) * b == q * b - v * b;
    assert (v - q) * b == v * b - q * b;
    if q >= v + 1 {
      MulAtLeast(q - v, b);
    }
    if v >= q + 1 {
      MulAtLeast(v - q, b);
    }
  }

  lemma {:induction false} BitsOfShifts(val: nat, len: nat, k: nat)
    requires k < len
    ensures BitsOf(val, len)[k] == ShiftedBit(val, len - 1 - k)
    decreases len
  {
    if k < len - 1 {
      BitsOfShifts(val / 2, len - 1, k);
      HalveTwice(val, Pow2(len - 2 - k));
    } else {
      assert Pow2(0) == 1;
    }
  }

  class BitBuffer {
    var bits: seq<bool>

    constructor ()
      ensures bits == []
    {
      bits := [];
    }

    /** appendBits: an error leaves the buffer alone. */
    method AppendBits(val: nat, len: int) returns (ok: bool)
      modifies this
      ensures ok <==> 0 <= len <= 31 && val < Pow2(len)
      ensures bits == old(bits) + if ok then BitsOf(val, len) else []
    {
      hide Pow2, BitsOf, ShiftedBit;
      if len < 0 || len > 31 {
        return false;
      }
      if val / Pow2(len) != 0 {
        ValueTooWide(val, Pow2(len));
        return false;
      }
      ValueTooWide(val, Pow2(len));
      var i := len - 1;
      while i >= 0
        invariant -1 <= i < len
        invariant bits == old(bits) + BitsOf(val, len)[..len - 1 - i]
      {
        BitsOfShifts(val, len, len - 1 - i);
        bits := bits + [ShiftedBit(val, i)];
        i := i - 1;
      }
      assert BitsOf(val, len)[..len] == BitsOf(val, len);
      return true;
    }
  }

  lemma ValueTooWide(val: nat, p: nat)
    requires p > 0
    ensures val / p == 0 <==> val < p
  {
    assert val == (val / p) * p + val % p;
    if val / p > 0 {
      assert (val / p) * p >= p;
    }
  }

  // ---- Grouped digits ----

  /** `group` digits of a base share one binary number; a number of n digits takes unit * n + 1 bits. */
  datatype Coding = Coding(base: nat, group: nat, unit: nat) {
    predicate Valid() {
      this == Coding(10, 3, 3) || this == Coding(45, 2, 5) || this == Coding(256, 1, 7)
    }

    function Width(n: nat): nat {
      if n == 0 then 0 else unit * n + 1
    }
  }

  predicate Digits(base: nat, s: seq<nat>) {
    forall i :: 0 <= i < |s| ==> s[i] < base
  }

  function NumberOf(base: nat, s: seq<nat>): nat {
    if s == [] then 0 else NumberOf(base, s[..|s| - 1]) * base + s[|s| - 1]
  }

  function DigitsOf(base: nat, v: nat, n: nat): (s: seq<nat>)
    requires base > 0
    ensures |s| == n && Digits(base, s)
    decreases n, v
  {
    if n == 0 then [] else DigitsOf(base, v / base, n - 1) + [v % base]
  }

  lemma {:induction false} DigitsOfNumber(base: nat, s: seq<nat>)
    requires base > 0 && Digits(base, s)
    ensures DigitsOf(base, NumberOf(base, s), |s|) == s
    decreases |s|
  {
    if s != [] {
      var n := |s| - 1;
      DigitsOfNumber(base, s[..n]);
      DivStep(NumberOf(base, s[..n]), base, s[n]);
    }
  }

  lemma GroupFits(c: Coding, s: seq<nat>)
    requires c.Valid() && Digits(c.base, s) && |s| <= c.group
    ensures NumberOf(c.base, s) < Pow2(c.Width(|s|))
    ensures c.Width(|s|) <= 31
  {
    Powers();
    if |s| > 0 {
      var a := s[..|s| - 1];
      assert NumberOf(c.base, s) == NumberOf(c.base, a) * c.base + s[|s| - 1];
      if |a| > 0 {
        var b := a[..|a| - 1];
        assert NumberOf(c.base, a) == NumberOf(c.base, b) * c.base + a[|a| - 1];
        if |b| > 0 {
          assert b[..|b| - 1] == [];
          assert NumberOf(c.base, b) == 0 * c.base + b[|b| - 1];
        }
      }
    }
  }

  lemma Powers()
    ensures Pow2(0) == 1 && Pow2(4) == 16 && Pow2(6) == 64 && Pow2(7) == 128 && Pow2(8) == 256
    ensures Pow2(10) == 1024 && Pow2(11) == 2048
  {
    assert Pow2(4) == 16;
    assert Pow2(6) == 4 * Pow2(4);
    assert Pow2(8) == 4 * Pow2(6);
    assert Pow2(10) == 4 * Pow2(8);
  }

  /** The bits of a digit string, group by group. */
  function Pack(c: Coding, s: seq<nat>): seq<bool>
    requires c.Valid()
    decreases |s|
  {
    if |s| < c.group then BitsOf(NumberOf(c.base, s), c.Width(|s|))
    else BitsOf(NumberOf(c.base, s[..c.group]), c.Width(c.group)) + Pack(c, s[c.group..])
  }

  function PackedLength(c: Coding, n: nat): nat
    requires c.Valid()
  {
    if n < c.group then c.Width(n) else c.Width(c.group) + PackedLength(c, n - c.group)
  }

  function Unpack(c: Coding, bits: seq<bool>, n: nat): (s: seq<nat>)
    requires c.Valid() && |bits| == PackedLength(c, n)
    ensures |s| == n && Digits(c.base, s)
    decreases n
  {
    if n < c.group then DigitsOf(c.base, ValueOf(bits), n)
    else
      var w := c.Width(c.group);
      DigitsOf(c.base, ValueOf(bits[..w]), c.group) + Unpack(c, bits[w..], n - c.group)
  }

  lemma {:induction false} PackLength(c: Coding, s: seq<nat>)
    requires c.Valid()
    ensures |Pack(c, s)| == PackedLength(c, |s|)
    decreases |s|
  {
    if |s| >= c.group {
      PackLength(c, s[c.group..]);
    }
  }

  /** Unpacking recovers the digits of any digit string. */
  lemma {:induction false} UnpackPack(c: Coding, s: seq<nat>)
    requires c.Valid() && Digits(c.base, s)
    ensures |Pack(c, s)| == PackedLength(c, |s|)
    ensures Unpack(c, Pack(c, s), |s|) == s
    decreases |s|
  {
    hide BitsOf, ValueOf, NumberOf, DigitsOf;
    PackLength(c, s);
    var g := if |s| < c.group then s else s[..c.group];
    GroupFits(c, g);
    ValueOfBits(NumberOf(c.base, g), c.Width(|g|));
    DigitsOfNumber(c.base, g);
    if |s| >= c.group {
      UnpackPack(c, s[c.group..]);
      var first, w := BitsOf(NumberOf(c.base, g), c.Width(c.group)), c.Width(c.group);
      assert Pack(c, s) == first + Pack(c, s[c.group..]);
      assert Pack(c, s)[..w] == first && Pack(c, s)[w..] == Pack(c, s[c.group..]);
      assert s == g + s[c.group..];
    }
  }

  /** Whole groups can be packed on their own. */
  lemma {:induction false} PackAppend(c: Coding, p: seq<nat>, s: seq<nat>)
    requires c.Valid() && |p| % c.group == 0
    ensures Pack(c, p + s) == Pack(c, p) + Pack(c, s)
    decreases |p|
  {
    hide BitsOf, NumberOf;
    if p == [] {
      assert p + s == s;
      assert Pack(c, []) == BitsOf(NumberOf(c.base, []), 0) == [];
    } else {
      assert |p| >= c.group && |p[c.group..]| % c.group == 0;
      assert (p + s)[..c.group] == p[..c.group] && (p + s)[c.group..] == p[c.group..] + s;
      PackAppend(c, p[c.group..], s);
    }
  }
}
