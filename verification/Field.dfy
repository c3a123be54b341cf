/** The bytes are a field: the powers of 2 run through all of them but 0. */
module Field {
  import opened Gf256
  import opened ReedSolomon

  // ---- Powers of 2 ----

  lemma RootNext(k: nat)
    ensures Root(k + 1) == Xtime(Root(k))
  {
    MulTwo(Root(k));
  }

  lemma {:induction false} RootNonzero(k: nat)
    ensures Root(k) != 0
  {
    if k > 0 {
      hide Mul, Xtime;
      RootNonzero(k - 1);
      RootNext(k - 1);
      NonzeroXtime(Root(k - 1));
    }
  }

  lemma NonzeroXtime(a: bv8)
    requires a != 0
    ensures Xtime(a) != 0
  {
  }

  lemma {:induction false} RootSum(i: nat, j: nat)
    ensures Root(i + j) == Mul(Root(i), Root(j))
    decreases j
  {
    hide Mul;
    if j == 0 {
      MulOneBothSides(Root(i));
    } else {
      RootSum(i, j - 1);
      Associative(Root(i), Root(j - 1), 2);
    }
  }

  function Times16(v: bv8): bv8 {
    Quad(Quad(Quad(Quad(v))))
  }

  function Quad(v: bv8): bv8 {
    Xtime(Xtime(Xtime(Xtime(v))))
  }

  predicate ClearOfOne(v: bv8) {
    FourClear(v) && FourClear(Quad(v)) && FourClear(Quad(Quad(v))) && FourClear(Quad(Quad(Quad(v))))
  }

  predicate FourClear(v: bv8) {
    v != 1 && Xtime(v) != 1 && Xtime(Xtime(v)) != 1 && Xtime(Xtime(Xtime(v))) != 1
  }

  lemma FourPowers(k: nat)
    ensures Root(k + 4) == Quad(Root(k))
    ensures FourClear(Root(k)) ==> forall i :: k <= i < k + 4 ==> Root(i) != 1
  {
    hide Xtime, Root;
    RootNext(k);
    RootNext(k + 1);
    RootNext(k + 2);
    RootNext(k + 3);
  }

  /** Sixteen powers in a row, from the first of them. */
  lemma PowerRow(k: nat, v: bv8)
    requires Root(k) == v
    ensures Root(k + 16) == Times16(v)
    ensures ClearOfOne(v) ==> forall i :: k <= i < k + 16 ==> Root(i) != 1
  {
    hide Quad, FourClear, Root;
    FourPowers(k);
    FourPowers(k + 4);
    FourPowers(k + 8);
    FourPowers(k + 12);
  }

  lemma FirstPowers()
    ensures forall i :: 1 <= i < 129 ==> Root(i) != 1
    ensures Root(129) == 0x17
  {
    RootNext(0);
    assert Root(0) == 1;
    hide Root, Xtime, Times16, ClearOfOne;
    TableRows();
    PowerRow(1, 0x02);
    PowerRow(17, 0x98);
    PowerRow(33, 0x27);
    PowerRow(49, 0x8C);
    PowerRow(65, 0xBE);
    PowerRow(81, 0xE7);
    PowerRow(97, 0xAF);
    PowerRow(113, 0x1F);
  }

  /** No power of 2 below the 129th is 1, and the 255th is. */
  lemma PowerTable()
    ensures forall i :: 1 <= i < 129 ==> Root(i) != 1
    ensures Root(255) == 1
  {
    hide Root, Xtime, Times16, ClearOfOne;
    FirstPowers();
    TableRows();
    PowerRow(129, 0x17);
    PowerRow(145, 0x4D);
    PowerRow(161, 0xD1);
    PowerRow(177, 0xDB);
    PowerRow(193, 0x19);
    PowerRow(209, 0xA2);
    PowerRow(225, 0x24);
    LastPowers();
  }

  lemma TableRows()
    ensures Times16(0x02) == 0x98 && ClearOfOne(0x02)
    ensures Times16(0x98) == 0x27 && ClearOfOne(0x98)
    ensures Times16(0x27) == 0x8C && ClearOfOne(0x27)
    ensures Times16(0x8C) == 0xBE && ClearOfOne(0x8C)
    ensures Times16(0xBE) == 0xE7 && ClearOfOne(0xBE)
    ensures Times16(0xE7) == 0xAF && ClearOfOne(0xE7)
    ensures Times16(0xAF) == 0x1F && ClearOfOne(0xAF)
    ensures Times16(0x1F) == 0x17 && ClearOfOne(0x1F)
    ensures Times16(0x17) == 0x4D
    ensures Times16(0x4D) == 0xD1
    ensures Times16(0xD1) == 0xDB
    ensures Times16(0xDB) == 0x19
    ensures Times16(0x19) == 0xA2
    ensures Times16(0xA2) == 0x24
    ensures Times16(0x24) == 0x58
    ensures Xtime(1) == 2
  {
  }

  lemma LastPowers()
    requires Root(241) == 0x58
    ensures Root(255) == 1
  {
    hide Root;
    FourPowers(241);
    FourPowers(245);
    FourPowers(249);
    RootNext(253);
    RootNext(254);
  }

  // ---- The bytes are a field ----

  /** The powers of 2 repeat after 255 steps and not before. */
  lemma RootOrder(k: nat)
    requires 0 < k < 255
    ensures Root(k) != 1
  {
    hide Root, Mul;
    PowerTable();
    if k >= 129 && Root(k) == 1 {
      RootSum(255 - k, k);
      MulOneBothSides(Root(255 - k));
    }
  }

  lemma {:induction false} CancelTwo(i: nat, j: nat)
    requires i <= j && Root(i) == Root(j)
    ensures Root(j - i) == 1
  {
    hide Mul, Xtime;
    if i > 0 {
      RootNext(i - 1);
      RootNext(j - 1);
      XtimeInjective(Root(i - 1), Root(j - 1));
      CancelTwo(i - 1, j - 1);
    }
  }

  lemma XtimeInjective(a: bv8, b: bv8)
    requires Xtime(a) == Xtime(b)
    ensures a == b
  {
  }

  lemma RootInjective(i: nat, j: nat)
    requires i < j < 255
    ensures Root(i) != Root(j)
  {
    if Root(i) == Root(j) {
      CancelTwo(i, j);
      RootOrder(j - i);
    }
  }

  function Roots(n: nat): set<bv8> {
    set i | 0 <= i < n :: Root(i)
  }

  lemma {:induction false} CountRoots(n: nat)
    requires n <= 255
    ensures |Roots(n)| == n
  {
    hide Root;
    if n > 0 {
      CountRoots(n - 1);
      forall i | 0 <= i < n - 1 ensures Root(i) != Root(n - 1) {
        RootInjective(i, n - 1);
      }
      assert Roots(n) == Roots(n - 1) + {Root(n - 1)};
    }
  }

  function ByteAt(i: nat): bv8
    requires i < 256
  {
    i as bv8
  }

  function Bytes(n: nat): set<bv8>
    requires n <= 256
  {
    set i | 0 <= i < n :: ByteAt(i)
  }

  lemma {:induction false} CountBytes(n: nat)
    requires n <= 256
    ensures |Bytes(n)| <= n
  {
    hide ByteAt;
    if n > 0 {
      CountBytes(n - 1);
      assert Bytes(n) == Bytes(n - 1) + {ByteAt(n - 1)};
    }
  }

  lemma AllBytes(a: bv8)
    ensures a in Bytes(256)
  {
    assert ByteAt(a as nat) == a;
  }

  /** Every nonzero byte is a power of 2. */
  lemma NonzeroIsRoot(a: bv8) returns (i: nat)
    requires a != 0
    ensures i < 255 && Root(i) == a
  {
    hide Root;
    CountRoots(255);
    CountBytes(256);
    var roots := Roots(255);
    forall b | b in roots ensures b in Bytes(256) - {0} {
      AllBytes(b);
      var j :| 0 <= j < 255 && Root(j) == b;
      RootNonzero(j);
    }
    AllBytes(0);
    AllBytes(a);
    var rest := Bytes(256) - {0} - roots;
    assert Bytes(256) == roots + rest + {0};
    assert |roots + rest| == |roots| + |rest| by {
      assert roots * rest == {};
    }
    assert a in roots;
    i :| 0 <= i < 255 && Root(i) == a;
  }

  /** Every nonzero byte has an inverse. */
  lemma InverseExists(a: bv8) returns (b: bv8)
    requires a != 0
    ensures Mul(a, b) == 1
  {
    hide Root, Mul;
    var i := NonzeroIsRoot(a);
    b := Root(255 - i);
    RootSum(i, 255 - i);
    PowerTable();
  }

  /** A product is zero only if a factor is. */
  lemma NoZeroDivisors(a: bv8, b: bv8)
    ensures Mul(a, b) == 0 <==> a == 0 || b == 0
  {
    hide Root, Mul;
    MulZero(b);
    MulZero(a);
    Commutative(a, b);
    Commutative(a, 0);
    Commutative(b, 0);
    if a != 0 && b != 0 {
      var i := NonzeroIsRoot(a);
      var j := NonzeroIsRoot(b);
      RootSum(i, j);
      RootNonzero(i + j);
    }
  }
}
