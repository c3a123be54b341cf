/** Arithmetic in GF(2^8) modulo x^8 + x^4 + x^3 + x^2 + 1 (0x11D).

    `Multiply` is the encoder's Russian-peasant loop. Its specification `Mul` evaluates the bits
    of the second factor by Horner's rule; the ring laws below are what makes it a product. They
    come from the linearity of `Xtime` alone, and no multiplication table is ever enumerated. */
module Gf256 {

  function Add(a: bv8, b: bv8): bv8 {
    a ^ b
  }

  /** Multiplication by the element t = 2. */
  function Xtime(a: bv8): bv8 {
    (a << 1) ^ ((a >> 7) * 0x1D)
  }

  function Keep(bit: bool, a: bv8): bv8 {
    if bit then a else 0
  }

  function Bit(y: bv8, i: nat): bool
    requires i < 8
  {
    (y >> i) & 1 != 0
  }

  /** The bits of `y`, highest first. */
  function Bits(y: bv8): seq<bool> {
    seq(8, k requires 0 <= k < 8 => Bit(y, 7 - k))
  }

  /** The sum of x * t^i over the set bits i of a binary number given highest bit first. */
  function Horner(x: bv8, bits: seq<bool>): bv8
    decreases |bits|
  {
    if bits == [] then 0
    else Add(Xtime(Horner(x, bits[..|bits| - 1])), Keep(bits[|bits| - 1], x))
  }

  function Mul(x: bv8, y: bv8): bv8 {
    Horner(x, Bits(y))
  }

  function XorBits(p: seq<bool>, q: seq<bool>): seq<bool>
    requires |p| == |q|
  {
    seq(|p|, k requires 0 <= k < |p| => p[k] != q[k])
  }

  // ---- Addition is XOR ----

  lemma AddGroup(a: bv8, b: bv8, c: bv8)
    ensures Add(Add(a, b), c) == Add(a, Add(b, c))
    ensures Add(a, b) == Add(b, a)
    ensures Add(a, 0) == a && Add(0, a) == a && Add(a, a) == 0
  {
  }

  lemma AddCancel(a: bv8, b: bv8)
    ensures Add(Add(a, b), b) == a && Add(a, Add(a, b)) == b
    ensures Add(a, b) == 0 <==> a == b
  {
  }

  lemma AddSwap(a: bv8, b: bv8, c: bv8, d: bv8)
    ensures Add(Add(a, b), Add(c, d)) == Add(Add(a, c), Add(b, d))
  {
    hide Add;
    AddGroup(a, b, Add(c, d));
    AddGroup(b, c, d);
    AddGroup(c, b, d);
    AddGroup(a, c, Add(b, d));
  }

  lemma XtimeLinear(a: bv8, b: bv8)
    ensures Xtime(Add(a, b)) == Add(Xtime(a), Xtime(b))
  {
  }

  lemma XtimeKeep(bit: bool, a: bv8)
    ensures Xtime(Keep(bit, a)) == Keep(bit, Xtime(a))
  {
  }

  lemma KeepLinear(bit: bool, a: bv8, b: bv8)
    ensures Keep(bit, Add(a, b)) == Add(Keep(bit, a), Keep(bit, b))
  {
  }

  lemma BitLinear(a: bv8, b: bv8, i: nat)
    requires i < 8
    ensures Bit(Add(a, b), i) == (Bit(a, i) != Bit(b, i))
  {
    if i == 0 {} else if i == 1 {} else if i == 2 {} else if i == 3 {}
    else if i == 4 {} else if i == 5 {} else if i == 6 {} else { assert i == 7; }
  }

  // ---- Linearity of the product in each factor ----

  lemma {:induction false} HornerLeft(a: bv8, b: bv8, bits: seq<bool>)
    ensures Horner(Add(a, b), bits) == Add(Horner(a, bits), Horner(b, bits))
    decreases |bits|
  {
    if bits == [] {
    } else {
      hide Add, Xtime, Keep;
      var p, bit := bits[..|bits| - 1], bits[|bits| - 1];
      HornerLeft(a, b, p);
      XtimeLinear(Horner(a, p), Horner(b, p));
      KeepLinear(bit, a, b);
      AddSwap(Xtime(Horner(a, p)), Xtime(Horner(b, p)), Keep(bit, a), Keep(bit, b));
    }
  }

  lemma KeepXor(p: bool, q: bool, x: bv8)
    ensures Keep(p != q, x) == Add(Keep(p, x), Keep(q, x))
  {
  }

  lemma {:induction false} HornerRight(x: bv8, p: seq<bool>, q: seq<bool>)
    requires |p| == |q|
    ensures Horner(x, XorBits(p, q)) == Add(Horner(x, p), Horner(x, q))
    decreases |p|
  {
    if p == [] {
    } else {
      hide Add, Xtime, Keep;
      var n := |p| - 1;
      assert XorBits(p, q)[..n] == XorBits(p[..n], q[..n]);
      HornerRight(x, p[..n], q[..n]);
      XtimeLinear(Horner(x, p[..n]), Horner(x, q[..n]));
      KeepXor(p[n], q[n], x);
      AddSwap(Xtime(Horner(x, p[..n])), Xtime(Horner(x, q[..n])), Keep(p[n], x), Keep(q[n], x));
    }
  }

  lemma {:induction false} HornerXtime(x: bv8, bits: seq<bool>)
    ensures Horner(Xtime(x), bits) == Xtime(Horner(x, bits))
    decreases |bits|
  {
    if bits == [] {
    } else {
      hide Add, Xtime, Keep;
      var p, bit := bits[..|bits| - 1], bits[|bits| - 1];
      HornerXtime(x, p);
      XtimeLinear(Xtime(Horner(x, p)), Keep(bit, x));
      XtimeKeep(bit, x);
    }
  }

  lemma {:induction false} HornerZero(bits: seq<bool>)
    ensures Horner(0, bits) == 0
    decreases |bits|
  {
    if bits != [] {
      HornerZero(bits[..|bits| - 1]);
    }
  }

  lemma Distributive(a: bv8, b: bv8, c: bv8)
    ensures Mul(Add(a, b), c) == Add(Mul(a, c), Mul(b, c))
    ensures Mul(c, Add(a, b)) == Add(Mul(c, a), Mul(c, b))
  {
    hide Add, Bit, Horner;
    HornerLeft(a, b, Bits(c));
    forall k | 0 <= k < 8 ensures Bits(Add(a, b))[k] == (Bits(a)[k] != Bits(b)[k]) {
      BitLinear(a, b, 7 - k);
    }
    assert Bits(Add(a, b)) == XorBits(Bits(a), Bits(b));
    HornerRight(c, Bits(a), Bits(b));
  }

  // ---- Commutativity and associativity ----

  lemma MulKeep(bit: bool, a: bv8, z: bv8)
    ensures Mul(Keep(bit, a), z) == Keep(bit, Mul(a, z))
  {
    hide Bits, Horner;
    HornerZero(Bits(z));
  }

  lemma {:induction false} Exchange(a: bv8, bits: seq<bool>, z: bv8)
    ensures Mul(Horner(a, bits), z) == Horner(Mul(a, z), bits)
    decreases |bits|
  {
    if bits == [] {
      HornerZero(Bits(z));
    } else {
      hide Add, Xtime, Keep, Bits;
      var p, bit := bits[..|bits| - 1], bits[|bits| - 1];
      Exchange(a, p, z);
      Distributive(Xtime(Horner(a, p)), Keep(bit, a), z);
      HornerXtime(Horner(a, p), Bits(z));
      MulKeep(bit, a, z);
    }
  }

  /** The highest `k` bits of `y` as a number. */
  function Top(y: bv8, k: nat): bv8
    requires k <= 8
  {
    y >> (8 - k)
  }

  lemma TopStep(y: bv8, k: nat)
    requires k < 8
    ensures Add(Xtime(Top(y, k)), Keep(Bit(y, 7 - k), 1)) == Top(y, k + 1)
  {
    if k == 0 {} else if k == 1 {} else if k == 2 {} else if k == 3 {}
    else if k == 4 {} else if k == 5 {} else if k == 6 {} else { assert k == 7; }
  }

  lemma TopEnds(y: bv8)
    ensures Top(y, 0) == 0 && Top(y, 8) == y
  {
  }

  lemma {:induction false} HornerOne(y: bv8, k: nat)
    requires k <= 8
    ensures Horner(1, Bits(y)[..k]) == Top(y, k)
  {
    hide Add, Xtime, Keep, Bit, Top;
    if k == 0 {
      TopEnds(y);
    } else {
      HornerOne(y, k - 1);
      assert Bits(y)[..k][..k - 1] == Bits(y)[..k - 1];
      TopStep(y, k - 1);
    }
  }

  lemma MulOne(y: bv8)
    ensures Mul(1, y) == y
  {
    hide Horner;
    HornerOne(y, 8);
    TopEnds(y);
    assert Bits(y)[..8] == Bits(y);
  }

  lemma Commutative(y: bv8, z: bv8)
    ensures Mul(y, z) == Mul(z, y)
  {
    hide Horner, Bits;
    MulOne(y);
    MulOne(z);
    Exchange(1, Bits(y), z);
  }

  lemma Associative(a: bv8, b: bv8, c: bv8)
    ensures Mul(Mul(a, b), c) == Mul(a, Mul(b, c))
  {
    hide Horner, Bits;
    Commutative(a, b);
    Exchange(b, Bits(a), c);
    Commutative(Mul(b, c), a);
  }

  /** 1 is neutral on both sides. */
  lemma MulOneBothSides(y: bv8)
    ensures Mul(1, y) == y && Mul(y, 1) == y
  {
    MulOne(y);
    Commutative(y, 1);
  }

  lemma MulTwo(a: bv8)
    ensures Mul(a, 2) == Xtime(a)
  {
    hide Horner, Bits;
    Commutative(a, 2);
    HornerXtime(1, Bits(a));
    MulOne(a);
  }

  // ---- The loop ----

  function ShiftReduce(z: bv32): bv32 {
    (z << 1) ^ ((z >> 7) * 0x11D)
  }

  function Select(y: bv8, i: nat, x: bv8): bv32
    requires i < 8
  {
    ((y >> i) & 1) as bv32 * (x as bv32)
  }

  /** One turn of the loop stays within eight bits although the accumulator is a wide integer. */
  lemma ShiftReduceIsXtime(z: bv8)
    ensures ShiftReduce(z as bv32) == Xtime(z) as bv32
  {
  }

  lemma SelectIsKeep(y: bv8, i: nat, x: bv8)
    requires i < 8
    ensures Select(y, i, x) == Keep(Bit(y, i), x) as bv32
  {
    assert (y >> i) & 1 == 0 || (y >> i) & 1 == 1;
  }

  lemma WideAdd(a: bv8, b: bv8)
    ensures (a as bv32) ^ (b as bv32) == Add(a, b) as bv32
  {
  }

  /** reedSolomonMultiply. */
  method Multiply(x: bv8, y: bv8) returns (r: bv8)
    ensures r == Mul(x, y)
  {
    hide Add, Xtime, Keep, Bit, ShiftReduce, Select;
    var z: bv32 := 0;
    var i := 7;
    ghost var low: bv8 := 0;
    while i >= 0
      invariant -1 <= i <= 7
      invariant z == low as bv32
      invariant low == Horner(x, Bits(y)[..7 - i])
    {
      assert Bits(y)[..8 - i][..7 - i] == Bits(y)[..7 - i];
      ShiftReduceIsXtime(low);
      SelectIsKeep(y, i, x);
      WideAdd(Xtime(low), Keep(Bit(y, i), x));
      z := ShiftReduce(z);
      z := z ^ Select(y, i, x);
      low := Add(Xtime(low), Keep(Bit(y, i), x));
      i := i - 1;
    }
    assert Bits(y)[..8] == Bits(y);
    r := z as bv8;
  }
}
