/** Reed-Solomon encoding: the generator polynomial and the shift-register remainder.

    A polynomial is the sequence of its coefficients from the highest power down. The two loops
    are proved to produce the product of the linear factors and the unique remainder of the
    division by it; evaluation at the roots then gives the defining property of the code. */
module ReedSolomon {
  import opened Gf256
  import opened Wrappers

  type Poly = seq<bv8>

  datatype Error = DegreeOutOfRange

  function Zeros(n: nat): Poly {
    seq(n, _ => 0)
  }

  function Eval(p: Poly, x: bv8): bv8
    decreases |p|
  {
    if p == [] then 0 else Add(Mul(Eval(p[..|p| - 1], x), x), p[|p| - 1])
  }

  function Scale(p: Poly, f: bv8): Poly {
    seq(|p|, i requires 0 <= i < |p| => Mul(p[i], f))
  }

  /** Adds `b` to the low-order end of `a`. */
  function AddLow(a: Poly, b: Poly): Poly
    requires |b| <= |a|
  {
    seq(|a|, i requires 0 <= i < |a| => if i < |a| - |b| then a[i] else Add(a[i], b[i - (|a| - |b|)]))
  }

  /** Polynomial multiplication, one coefficient of `q` at a time. */
  function PolyMul(q: Poly, g: Poly): (r: Poly)
    requires g != []
    ensures |r| == |q| + |g| - 1
    decreases |q|
  {
    if q == [] then Zeros(|g| - 1)
    else AddLow(PolyMul(q[..|q| - 1], g) + [0], Scale(g, q[|q| - 1]))
  }

  ghost predicate IsMultiple(c: Poly, g: Poly)
    requires g != []
  {
    exists q :: c == PolyMul(q, g)
  }

  function Root(k: nat): (r: bv8) {
    if k == 0 then 1 else Mul(Root(k - 1), 2)
  }

  /** (x - r^0)(x - r^1)...(x - r^(n-1)). */
  function Generator(n: nat): (g: Poly)
    ensures |g| == n + 1
  {
    if n == 0 then [1] else PolyMul(Generator(n - 1), [1, Root(n - 1)])
  }

  // ---- Evaluation is a ring homomorphism ----

  lemma {:induction false} EvalZeros(n: nat, x: bv8)
    ensures Eval(Zeros(n), x) == 0
  {
    if n > 0 {
      assert Zeros(n)[..n - 1] == Zeros(n - 1);
      EvalZeros(n - 1, x);
      HornerZero(Bits(x));
    }
  }

  lemma {:induction false} EvalScale(p: Poly, f: bv8, x: bv8)
    ensures Eval(Scale(p, f), x) == Mul(Eval(p, x), f)
    decreases |p|
  {
    if p == [] {
      HornerZero(Bits(f));
    } else {
      hide Add, Mul;
      var n := |p| - 1;
      var e := Eval(p[..n], x);
      assert Scale(p, f)[..n] == Scale(p[..n], f);
      EvalScale(p[..n], f, x);
      Associative(e, f, x);
      Commutative(f, x);
      Associative(e, x, f);
      Distributive(Mul(e, x), p[n], f);
    }
  }

  lemma {:induction false} EvalAddLow(a: Poly, b: Poly, x: bv8)
    requires |b| <= |a|
    ensures Eval(AddLow(a, b), x) == Add(Eval(a, x), Eval(b, x))
    decreases |b|
  {
    if b == [] {
      assert AddLow(a, b) == a;
      AddGroup(Eval(a, x), 0, 0);
    } else {
      hide Add, Mul;
      var n, m := |a| - 1, |b| - 1;
      assert AddLow(a, b)[..n] == AddLow(a[..n], b[..m]);
      EvalAddLow(a[..n], b[..m], x);
      Distributive(Eval(a[..n], x), Eval(b[..m], x), x);
      AddSwap(Mul(Eval(a[..n], x), x), Mul(Eval(b[..m], x), x), a[n], b[m]);
    }
  }

  lemma {:induction false} EvalPolyMul(q: Poly, g: Poly, x: bv8)
    requires g != []
    ensures Eval(PolyMul(q, g), x) == Mul(Eval(q, x), Eval(g, x))
    decreases |q|
  {
    if q == [] {
      EvalZeros(|g| - 1, x);
      HornerZero(Bits(Eval(g, x)));
    } else {
      var n := |q| - 1;
      var low, f := PolyMul(q[..n], g), q[n];
      EvalPolyMul(q[..n], g, x);
      EvalAddLow(low + [0], Scale(g, f), x);
      EvalScale(g, f, x);
      assert (low + [0])[..|low|] == low;
      AddGroup(Mul(Eval(low, x), x), 0, 0);
      EvalPolyMulStep(Eval(q[..n], x), Eval(g, x), f, x);
    }
  }

  lemma EvalPolyMulStep(e: bv8, g: bv8, f: bv8, x: bv8)
    ensures Add(Mul(Mul(e, g), x), Mul(g, f)) == Mul(Add(Mul(e, x), f), g)
  {
    hide Add, Mul;
    Associative(e, g, x);
    Commutative(g, x);
    Associative(e, x, g);
    Commutative(g, f);
    Distributive(Mul(e, x), f, g);
  }

  /** The generator vanishes at each of its first `n` powers of 2. */
  lemma {:induction false} GeneratorRoots(n: nat, k: nat)
    requires k < n
    ensures Eval(Generator(n), Root(k)) == 0
  {
    hide Add, Mul, Eval, PolyMul, Root;
    var r := Root(n - 1);
    EvalPolyMul(Generator(n - 1), [1, r], Root(k));
    if k == n - 1 {
      EvalLinear(r);
      MulZero(Eval(Generator(n - 1), r));
    } else {
      GeneratorRoots(n - 1, k);
      MulZero(Eval([1, r], Root(k)));
    }
  }

  lemma MulZero(y: bv8)
    ensures Mul(0, y) == 0 && Mul(y, 0) == 0
  {
    HornerZero(Bits(y));
    Commutative(0, y);
  }

  lemma EvalLinear(r: bv8)
    ensures Eval([1, r], r) == 0
  {
    hide Add, Mul;
    assert [1, r][..1] == [1];
    assert Eval([1], r) == Add(Mul(Eval([], r), r), 1);
    MulZero(r);
    AddGroup(0, 1, 1);
    AddGroup(1, 0, 0);
    MulOne(r);
    AddGroup(r, r, r);
  }

  // ---- The generator loop ----

  function LinearTerm(p: Poly, r: bv8, i: nat): bv8
    requires i <= |p|
  {
    Add(if i < |p| then p[i] else 0, if i > 0 then Mul(p[i - 1], r) else 0)
  }

  lemma {:induction false} PolyMulLinear(p: Poly, r: bv8, i: nat)
    requires i <= |p|
    ensures PolyMul(p, [1, r])[i] == LinearTerm(p, r, i)
    decreases |p|
  {
    hide Add, Mul;
    if p == [] {
      AddGroup(0, 0, 0);
    } else {
      var n := |p| - 1;
      var low := PolyMul(p[..n], [1, r]);
      assert PolyMul(p, [1, r]) == AddLow(low + [0], Scale([1, r], p[n]));
      if i == n + 1 {
        Commutative(r, p[n]);
      } else {
        PolyMulLinear(p[..n], r, i);
        var carry := if i > 0 then Mul(p[i - 1], r) else 0;
        if i == n {
          MulOne(p[n]);
          AddGroup(0, carry, p[n]);
          AddGroup(carry, p[n], 0);
        }
      }
    }
  }

  /** The product so far, padded to degree + 1 coefficients: what the source's array stands for. */
  ghost function Window(degree: nat, i: nat): Poly
    requires i <= degree
  {
    Zeros(degree - i) + Generator(i)
  }

  lemma WindowStep(degree: nat, i: nat, j: nat)
    requires i < degree && j < degree
    ensures Window(degree, i + 1)[j + 1] ==
            Add(Mul(Window(degree, i)[j + 1], Root(i)), if j + 1 < degree then Window(degree, i)[j + 2] else 0)
  {
    hide Add, Mul, PolyMul;
    var g, r := Generator(i), Root(i);
    var m := j + 2 - (degree - i);
    var next := if j + 1 < degree then Window(degree, i)[j + 2] else 0;
    AddGroup(Mul(Window(degree, i)[j + 1], r), next, 0);
    if m < 0 {
      MulZero(r);
      AddGroup(0, 0, 0);
    } else {
      PolyMulLinear(g, r, m);
      MulZero(r);
    }
  }

  lemma WindowEnds(degree: nat)
    requires degree > 0
    ensures Window(degree, 0)[1..] == Zeros(degree - 1) + [1]
    ensures Window(degree, degree) == [Window(degree, degree)[0]] + Window(degree, degree)[1..] == Generator(degree)
  {
    assert Zeros(0) + Generator(degree) == Generator(degree);
  }

  lemma {:induction false} GeneratorMonic(n: nat)
    ensures Generator(n)[0] == 1
  {
    if n > 0 {
      hide Add, Mul, PolyMul;
      GeneratorMonic(n - 1);
      PolyMulLinear(Generator(n - 1), Root(n - 1), 0);
      AddGroup(1, 0, 0);
    }
  }

  /** reedSolomonComputeDivisor: the generator without its leading coefficient. */
  method ComputeDivisor(degree: int) returns (r: Result<Poly, Error>)
    ensures r.Ok? <==> 1 <= degree <= 255
    ensures r.Ok? ==> |r.value| == degree && [1] + r.value == Generator(degree)
  {
    hide Add, Mul, PolyMul, Generator, Root;
    if degree < 1 || degree > 255 {
      return Err(DegreeOutOfRange);
    }
    var result := new bv8[degree](_ => 0);
    result[degree - 1] := 1;
    WindowEnds(degree);
    var root: bv8 := 1;
    assert root == Root(0) by { RootStep(0); }
    assert result[..] == Window(degree, 0)[1..];
    for i := 0 to degree
      invariant root == Root(i)
      invariant result[..] == Window(degree, i)[1..]
    {
      ghost var before := Window(degree, i);
      for j := 0 to degree
        invariant forall k :: 0 <= k < j ==> result[k] == Window(degree, i + 1)[k + 1]
        invariant forall k :: j <= k < degree ==> result[k] == before[k + 1]
      {
        WindowStep(degree, i, j);
        AddGroup(Mul(before[j + 1], root), 0, 0);
        result[j] := Multiply(result[j], root);
        if j + 1 < degree {
          result[j] := Add(result[j], result[j + 1]);
        }
      }
      root := Multiply(root, 2);
      RootStep(i);
    }
    GeneratorMonic(degree);
    r := Ok(result[..]);
  }

  lemma RootStep(i: nat)
    ensures Root(0) == 1 && Root(i + 1) == Mul(Root(i), 2)
  {
  }

  // ---- The remainder loop ----

  function ShiftIn(rem: Poly, b: bv8, divisor: Poly): (r: Poly)
    requires |rem| == |divisor| > 0
    ensures |r| == |rem|
  {
    AddLow(rem[1..] + [0], Scale(divisor, Add(b, rem[0])))
  }

  function Remainder(data: Poly, divisor: Poly): (r: Poly)
    requires divisor != []
    ensures |r| == |divisor|
    decreases |data|
  {
    if data == [] then Zeros(|divisor|)
    else ShiftIn(Remainder(data[..|data| - 1], divisor), data[|data| - 1], divisor)
  }

  /** reedSolomonComputeRemainder. */
  method ComputeRemainder(data: seq<bv8>, divisor: Poly) returns (result: Poly)
    requires divisor != []
    ensures result == Remainder(data, divisor)
  {
    hide Add, Mul;
    result := Zeros(|divisor|);
    assert data[..0] == [];
    for k := 0 to |data|
      invariant result == Remainder(data[..k], divisor)
    {
      ghost var before := result;
      var factor := Add(data[k], result[0]);
      result := result[1..] + [0];
      for i := 0 to |result|
        invariant |result| == |divisor|
        invariant forall m :: 0 <= m < i ==> result[m] == ShiftIn(before, data[k], divisor)[m]
        invariant forall m :: i <= m < |result| ==> result[m] == (before[1..] + [0])[m]
      {
        var term := Multiply(divisor[i], factor);
        result := result[i := Add(result[i], term)];
      }
      assert result == ShiftIn(before, data[k], divisor);
      assert data[..k + 1][..k] == data[..k];
    }
    assert data[..|data|] == data;
  }

  /** The quotient that the shift register discards: the feedback factor of every step. */
  ghost function Quotient(data: Poly, divisor: Poly): (q: Poly)
    requires divisor != []
    ensures |q| == |data|
    decreases |data|
  {
    if data == [] then []
    else
      var n := |data| - 1;
      Quotient(data[..n], divisor) + [Add(data[n], Remainder(data[..n], divisor)[0])]
  }

  /** Division with remainder: data * x^deg + remainder == quotient * generator. */
  lemma {:induction false} DivisionIdentity(data: Poly, divisor: Poly)
    requires divisor != []
    ensures data + Remainder(data, divisor) == PolyMul(Quotient(data, divisor), [1] + divisor)
    decreases |data|
  {
    if data == [] {
      assert data + Remainder(data, divisor) == Zeros(|divisor|);
    } else {
      hide Add, Mul;
      var n := |data| - 1;
      var g, rem := [1] + divisor, Remainder(data[..n], divisor);
      var q, f := Quotient(data[..n], divisor), Add(data[n], rem[0]);
      DivisionIdentity(data[..n], divisor);
      DivisionStep(data, rem, divisor);
      assert Quotient(data, divisor) == q + [f];
      assert (q + [f])[..n] == q;
      assert PolyMul(q + [f], g) == AddLow(PolyMul(q, g) + [0], Scale(g, f));
    }
  }

  lemma DivisionStep(data: Poly, rem: Poly, divisor: Poly)
    requires data != [] && |rem| == |divisor| > 0
    ensures var n := |data| - 1;
            data + ShiftIn(rem, data[n], divisor) ==
            AddLow(data[..n] + rem + [0], Scale([1] + divisor, Add(data[n], rem[0])))
  {
    hide Add, Mul;
    var n := |data| - 1;
    var f := Add(data[n], rem[0]);
    var left, right := data + ShiftIn(rem, data[n], divisor), AddLow(data[..n] + rem + [0], Scale([1] + divisor, f));
    forall k | 0 <= k < |left| ensures left[k] == right[k] {
      if k == n {
        MulOne(f);
        AddGroup(data[n], rem[0], 0);
        AddCancel(rem[0], data[n]);
      } else if k > n {
        assert right[k] == Add((data[..n] + rem + [0])[k], Mul(divisor[k - n - 1], f));
      }
    }
  }

  // ---- The code ----

  /** A coefficient of a product depends on the leading coefficients of `q` alone. */
  lemma {:induction false} PolyMulPrefix(q: Poly, g: Poly, k: nat, i: nat)
    requires g != [] && i < k <= |q|
    ensures PolyMul(q, g)[i] == PolyMul(q[..k], g)[i]
    decreases |q|
  {
    if k == |q| {
      assert q[..k] == q;
    } else {
      hide Add, Mul;
      var n := |q| - 1;
      PolyMulPrefix(q[..n], g, k, i);
      assert q[..n][..k] == q[..k];
      assert PolyMul(q, g) == AddLow(PolyMul(q[..n], g) + [0], Scale(g, q[n]));
    }
  }

  /** The coefficient at which the last entry of `q` first shows. */
  lemma PolyMulAtLast(q: Poly, g: Poly)
    requires g != [] && g[0] == 1 && q != []
    ensures PolyMul(q, g)[|q| - 1] == Add((PolyMul(q[..|q| - 1], g) + [0])[|q| - 1], q[|q| - 1])
  {
    hide *;
    var n := |q| - 1;
    PolyMulUnfold(q, g);
    AddLowAt(PolyMul(q[..n], g) + [0], Scale(g, q[n]), n);
    ScaleAt(g, q[n], 0);
    MulOne(q[n]);
  }

  lemma PolyMulUnfold(q: Poly, g: Poly)
    requires g != [] && q != []
    ensures PolyMul(q, g) == AddLow(PolyMul(q[..|q| - 1], g) + [0], Scale(g, q[|q| - 1]))
    ensures |Scale(g, q[|q| - 1])| == |g|
  {
    hide Add, Mul;
  }

  lemma AddLowAt(a: Poly, b: Poly, i: nat)
    requires |a| - |b| <= i < |a| && |b| <= |a|
    ensures i < |AddLow(a, b)| && AddLow(a, b)[i] == Add(a[i], b[i - (|a| - |b|)])
  {
    hide Add, Mul;
  }

  lemma ScaleAt(p: Poly, f: bv8, i: nat)
    requires i < |p|
    ensures i < |Scale(p, f)| && Scale(p, f)[i] == Mul(p[i], f)
  {
    hide Add, Mul;
  }

  /** Multiplying by a monic polynomial is injective on the leading coefficients. */
  lemma {:induction false} MonicInjective(p: Poly, q: Poly, g: Poly)
    requires g != [] && g[0] == 1
    requires |p| == |q|
    requires forall i :: 0 <= i < |p| ==> PolyMul(p, g)[i] == PolyMul(q, g)[i]
    ensures p == q
    decreases |p|
  {
    if p != [] {
      var n := |p| - 1;
      forall i | 0 <= i < n ensures PolyMul(p[..n], g)[i] == PolyMul(q[..n], g)[i] {
        PolyMulPrefix(p, g, n, i);
        PolyMulPrefix(q, g, n, i);
      }
      MonicInjective(p[..n], q[..n], g);
      PolyMulAtLast(p, g);
      PolyMulAtLast(q, g);
      hide Add, Mul, PolyMul;
      AddCancel((PolyMul(p[..n], g) + [0])[n], p[n]);
      AddCancel((PolyMul(p[..n], g) + [0])[n], q[n]);
      assert p == p[..n] + [p[n]] && q == q[..n] + [q[n]];
    }
  }

  /** The remainder is the only block of check bytes that completes `data` to a multiple of the
      monic divisor. */
  lemma RemainderUnique(data: Poly, divisor: Poly, check: Poly)
    requires divisor != [] && |check| == |divisor|
    ensures IsMultiple(data + check, [1] + divisor) <==> check == Remainder(data, divisor)
  {
    var g := [1] + divisor;
    DivisionIdentity(data, divisor);
    if IsMultiple(data + check, g) {
      var q :| data + check == PolyMul(q, g);
      var p := Quotient(data, divisor);
      forall i | 0 <= i < |q| ensures PolyMul(q, g)[i] == PolyMul(p, g)[i] {
        assert (data + check)[i] == (data + Remainder(data, divisor))[i];
      }
      MonicInjective(q, p, g);
      assert check == (data + check)[|data|..];
    }
  }

  /** Every encoded block, read as a polynomial, vanishes at 2^0, ..., 2^(degree-1). */
  lemma CodewordRoots(data: Poly, divisor: Poly, k: nat)
    requires divisor != [] && [1] + divisor == Generator(|divisor|)
    requires k < |divisor|
    ensures Eval(data + Remainder(data, divisor), Root(k)) == 0
  {
    DivisionIdentity(data, divisor);
    EvalPolyMul(Quotient(data, divisor), [1] + divisor, Root(k));
    GeneratorRoots(|divisor|, k);
    MulZero(Eval(Quotient(data, divisor), Root(k)));
  }

  lemma {:induction false} EvalAtOneChange(c: Poly, i: nat, b: bv8)
    requires i < |c|
    ensures Eval(c[i := b], 1) == Add(Eval(c, 1), Add(c[i], b))
    decreases |c|
  {
    hide Add, Mul;
    var n := |c| - 1;
    var e := Eval(c[..n], 1);
    Commutative(e, 1);
    MulOne(e);
    assert Eval(c, 1) == Add(e, c[n]);
    if i == n {
      assert c[i := b][..n] == c[..n];
      AddGroup(e, c[n], Add(c[n], b));
      AddCancel(c[n], b);
    } else {
      assert c[i := b][..n] == c[..n][i := b];
      EvalAtOneChange(c[..n], i, b);
      var d := Add(c[i], b);
      Commutative(Add(e, d), 1);
      MulOne(Add(e, d));
      AddGroup(e, d, c[n]);
      AddGroup(e, c[n], d);
      AddGroup(d, c[n], 0);
    }
  }

  /** A reader that checks only the first root notices any single altered byte of a block. */
  lemma SingleErrorDetected(data: Poly, divisor: Poly, i: nat, b: bv8)
    requires divisor != [] && [1] + divisor == Generator(|divisor|)
    requires i < |data| + |divisor|
    ensures var c := data + Remainder(data, divisor);
            Eval(c[i := b], Root(0)) == 0 <==> b == c[i]
  {
    var c := data + Remainder(data, divisor);
    CodewordRoots(data, divisor, 0);
    EvalAtOneChange(c, i, b);
    hide Add;
    AddGroup(0, Add(c[i], b), 0);
    AddGroup(Add(c[i], b), 0, 0);
    AddCancel(c[i], b);
  }
}
