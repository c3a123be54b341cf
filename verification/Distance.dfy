/** The distance of the Reed-Solomon code, from its roots: an error pattern of at most d places
    cannot vanish at d consecutive roots, because its places can be struck out one at a time. */
module Distance {
  import opened Gf256
  import opened ReedSolomon
  import opened Field

  /** A word whose first `d` check values are zero. */
  predicate Vanishes(c: Poly, d: nat) {
    forall k :: 0 <= k < d ==> Eval(c, Root(k)) == 0
  }

  function Support(e: Poly): set<nat> {
    set i: nat | i < |e| && e[i] != 0
  }

  /** The places in which two words differ. */
  function Diff(c: Poly, d: Poly): set<nat>
    requires |c| == |d|
  {
    set i: nat | i < |c| && c[i] != d[i]
  }

  // ---- Striking out one place ----

  /** Every coefficient times the power of 2 of its place. */
  function Weighted(e: Poly): (w: Poly)
    ensures |w| == |e|
    decreases |e|
  {
    if e == [] then [] else Scale(Weighted(e[..|e| - 1]), 2) + [e[|e| - 1]]
  }

  lemma {:induction false} WeightedAt(e: Poly, i: nat)
    requires i < |e|
    ensures Weighted(e)[i] == Mul(e[i], Root(|e| - 1 - i))
    decreases |e|
  {
    hide Mul;
    var n := |e| - 1;
    if i == n {
      MulOneBothSides(e[n]);
    } else {
      WeightedAt(e[..n], i);
      Associative(e[i], Root(n - 1 - i), 2);
    }
  }

  /** Weighting shifts the roots by one. */
  lemma {:induction false} EvalWeighted(e: Poly, k: nat)
    ensures Eval(Weighted(e), Root(k)) == Eval(e, Root(k + 1))
    decreases |e|
  {
    if e != [] {
      hide Add, Mul;
      var front, x := e[..|e| - 1], Root(k);
      EvalWeighted(front, k);
      assert Weighted(e)[..|e| - 1] == Scale(Weighted(front), 2);
      EvalScale(Weighted(front), 2, x);
      Associative(Eval(Weighted(front), x), 2, x);
      Commutative(2, x);
    }
  }

  function Strike(e: Poly, p: nat): (r: Poly)
    requires p < |e|
    ensures |r| == |e|
  {
    AddLow(Weighted(e), Scale(e, Root(|e| - 1 - p)))
  }

  lemma StrikeAt(e: Poly, p: nat, i: nat)
    requires p < |e| <= 255 && i < |e|
    ensures Strike(e, p)[i] == 0 <==> e[i] == 0 || i == p
  {
    hide Add, Mul, Root, Weighted;
    var x, y := Root(|e| - 1 - i), Root(|e| - 1 - p);
    WeightedAt(e, i);
    Distributive(x, y, e[i]);
    assert Strike(e, p)[i] == Mul(e[i], Add(x, y));
    NoZeroDivisors(e[i], Add(x, y));
    AddEqual(x, y);
    if i < p {
      RootInjective(|e| - 1 - p, |e| - 1 - i);
    } else if p < i {
      RootInjective(|e| - 1 - i, |e| - 1 - p);
    }
  }

  lemma AddEqual(a: bv8, b: bv8)
    ensures Add(a, b) == 0 <==> a == b
  {
  }

  lemma StrikeVanishes(e: Poly, p: nat, d: nat)
    requires p < |e| && Vanishes(e, d + 1)
    ensures Vanishes(Strike(e, p), d)
  {
    hide Add, Mul, Root, Weighted, Eval;
    var y := Root(|e| - 1 - p);
    forall k | 0 <= k < d ensures Eval(Strike(e, p), Root(k)) == 0 {
      EvalAddLow(Weighted(e), Scale(e, y), Root(k));
      EvalWeighted(e, k);
      EvalScale(e, y, Root(k));
      assert Eval(e, Root(k)) == 0 && Eval(e, Root(k + 1)) == 0;
      MulZero(y);
      AddEqual(0, 0);
    }
  }

  // ---- The distance ----

  /** A word that vanishes at `d` consecutive powers of 2 has more than `d` nonzero places or none. */
  lemma {:induction false} NoLightWords(e: Poly, d: nat)
    requires |e| <= 255 && Vanishes(e, d) && |Support(e)| <= d
    ensures Support(e) == {}
    decreases d
  {
    hide Eval, Root, Strike;
    if p :| p in Support(e) {
      var struck := Strike(e, p);
      forall i: nat | i < |e| ensures i in Support(struck) <==> i in Support(e) - {p} {
        StrikeAt(e, p, i);
      }
      assert Support(struck) == Support(e) - {p};
      StrikeVanishes(e, p, d - 1);
      NoLightWords(struck, d - 1);
      OnePlace(e, p);
    }
  }

  lemma OnePlace(e: Poly, p: nat)
    requires p < |e| && e[p] != 0 && Support(e) <= {p}
    ensures Eval(e, Root(0)) != 0
  {
    EvalAtOneChange(e, p, 0);
    forall i | 0 <= i < |e| && i != p ensures e[i] == 0 {
      assert i !in Support(e);
    }
    assert e[p := 0] == Zeros(|e|);
    EvalZeros(|e|, 1);
    hide Eval;
    AddEqual(Eval(e, 1), Add(e[p], 0));
    AddGroup(e[p], 0, 0);
  }

  /** Two words of at most 255 bytes with zero check values are equal or differ in more places than
      there are check bytes. */
  lemma CodewordsFarApart(c: Poly, d: Poly, checks: nat)
    requires |c| == |d| <= 255 && Vanishes(c, checks) && Vanishes(d, checks)
    ensures c == d || |Diff(c, d)| > checks
  {
    hide Add, Root, Eval;
    var e := AddLow(c, d);
    forall i: nat | i < |e| ensures i in Support(e) <==> i in Diff(c, d) {
      AddEqual(c[i], d[i]);
    }
    assert Support(e) == Diff(c, d);
    forall k | 0 <= k < checks ensures Eval(e, Root(k)) == 0 {
      EvalAddLow(c, d, Root(k));
      assert Eval(c, Root(k)) == 0 && Eval(d, Root(k)) == 0;
      AddEqual(0, 0);
    }
    if |Diff(c, d)| <= checks {
      NoLightWords(e, checks);
      forall i: nat | i < |c| ensures c[i] == d[i] {
        assert i !in Diff(c, d);
      }
    }
  }

  /** A reader that computes all check values notices every change of up to as many bytes as there
      are check bytes. */
  lemma ErrorsDetected(data: Poly, divisor: Poly, received: Poly)
    requires divisor != [] && [1] + divisor == Generator(|divisor|)
    requires |received| == |data| + |divisor| <= 255
    requires |Diff(data + Remainder(data, divisor), received)| <= |divisor|
    ensures Vanishes(received, |divisor|) <==> received == data + Remainder(data, divisor)
  {
    var c := data + Remainder(data, divisor);
    EncodedVanishes(data, divisor);
    if Vanishes(received, |divisor|) {
      CodewordsFarApart(c, received, |divisor|);
    }
  }

  lemma EncodedVanishes(data: Poly, divisor: Poly)
    requires divisor != [] && [1] + divisor == Generator(|divisor|)
    ensures Vanishes(data + Remainder(data, divisor), |divisor|)
  {
    hide Eval, Remainder;
    forall k | 0 <= k < |divisor| ensures Eval(data + Remainder(data, divisor), Root(k)) == 0 {
      CodewordRoots(data, divisor, k);
    }
  }

  /** With changes in at most half as many places as there are check bytes, only one codeword is
      near: the errors can be corrected. */
  lemma CorrectionIsUnique(c: Poly, d: Poly, received: Poly, checks: nat)
    requires |c| == |d| == |received| <= 255 && Vanishes(c, checks) && Vanishes(d, checks)
    requires 2 * |Diff(c, received)| <= checks && 2 * |Diff(d, received)| <= checks
    ensures c == d
  {
    CodewordsFarApart(c, d, checks);
    var p, q, r := Diff(c, d), Diff(c, received), Diff(d, received);
    assert p <= q + r;
    assert q + r == p + (q + r - p) && p * (q + r - p) == {};
  }
}
