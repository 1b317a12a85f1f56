/** Machine words as naturals, with the bit operations that pack and unpack the tables. */
module Words {

  function Pow2(k: nat): (r: nat)
    ensures r > 0
  {
    if k == 0 then 1 else 2 * Pow2(k - 1)
  }

  function Or(a: nat, b: nat): nat {
    if a == 0 then b
    else if b == 0 then a
    else 2 * Or(a / 2, b / 2) + if a % 2 == 1 || b % 2 == 1 then 1 else 0
  }

  function And(a: nat, b: nat): nat {
    if a == 0 || b == 0 then 0
    else 2 * And(a / 2, b / 2) + if a % 2 == 1 && b % 2 == 1 then 1 else 0
  }

  function Shl(a: nat, k: nat): nat {
    if k == 0 then a else 2 * Shl(a, k - 1)
  }

  function Shr(a: nat, k: nat): nat {
    if k == 0 then a else Shr(a / 2, k - 1)
  }

  lemma {:induction false} OrCommutes(a: nat, b: nat)
    ensures Or(a, b) == Or(b, a)
  {
    if a != 0 && b != 0 {
      OrCommutes(a / 2, b / 2);
    }
  }

  /** Fields that do not overlap can be or-ed or added alike. */
  lemma {:induction false} OrDisjoint(a: nat, b: nat, k: nat)
    requires a < Pow2(k)
    ensures Or(a, Shl(b, k)) == a + Shl(b, k)
  {
    if k > 0 && a > 0 && Shl(b, k) > 0 {
      var s := Shl(b, k - 1);
      OrDisjoint(a / 2, b, k - 1);
      assert Or(a, 2 * s) == 2 * Or(a / 2, s) + a % 2;
    }
  }

  /** A mask of `k` bits recovers a low field of `k` bits. */
  lemma {:induction false} AndLow(a: nat, b: nat, k: nat)
    requires a < Pow2(k)
    ensures And(a + Shl(b, k), Pow2(k) - 1) == a
  {
    if k > 0 {
      var w, m := a + Shl(b, k), Pow2(k - 1);
      AndLow(a / 2, b, k - 1);
      assert w / 2 == a / 2 + Shl(b, k - 1) && w % 2 == a % 2;
      assert (2 * m - 1) / 2 == m - 1 && (2 * m - 1) % 2 == 1;
    }
  }

  /** Shifting a low field of `k` bits out recovers what lies above it. */
  lemma {:induction false} ShrHigh(a: nat, b: nat, k: nat)
    requires a < Pow2(k)
    ensures Shr(a + Shl(b, k), k) == b
  {
    if k > 0 {
      ShrHigh(a / 2, b, k - 1);
      assert (a + Shl(b, k)) / 2 == a / 2 + Shl(b, k - 1);
    }
  }

  lemma {:induction false} ShlAdds(a: nat, b: nat, j: nat, k: nat)
    ensures Shl(a, j + k) == Shl(Shl(a, j), k)
    ensures Shl(a + b, k) == Shl(a, k) + Shl(b, k)
  {
    if k > 0 {
      ShlAdds(a, b, j, k - 1);
    }
  }

  lemma {:induction false} FieldsFit(a: nat, b: nat, j: nat, k: nat)
    requires a < Pow2(j) && b < Pow2(k)
    ensures a + Shl(b, j) < Pow2(j + k)
  {
    if j > 0 {
      FieldsFit(a / 2, b, j - 1, k);
    }
  }

  lemma {:induction false} ShlZero(k: nat)
    ensures Shl(0, k) == 0
  {
    if k > 0 {
      ShlZero(k - 1);
    }
  }

  lemma {:induction false} ThreeFieldsSum(a: nat, b: nat, c: nat, i: nat, j: nat)
    requires a < Pow2(i) && b < Pow2(j)
    ensures a + Shl(b, i) < Pow2(i + j)
    ensures Or(Or(a, Shl(b, i)), Shl(c, i + j)) == (a + Shl(b, i)) + Shl(c, i + j)
    ensures Or(Or(a, Shl(b, i)), Shl(c, i + j)) == a + Shl(b + Shl(c, j), i)
  {
    OrDisjoint(a, b, i);
    FieldsFit(a, b, i, j);
    OrDisjoint(a + Shl(b, i), c, i + j);
    ShlAdds(c, 0, j, i);
    ShlAdds(b, Shl(c, j), 0, i);
  }

  /** Three fields of `i`, `j` and `k` bits packed into one word, and each read back. */
  lemma {:induction false} ThreeFields(a: nat, b: nat, c: nat, i: nat, j: nat, k: nat)
    requires a < Pow2(i) && b < Pow2(j) && c < Pow2(k)
    ensures var w := Or(Or(a, Shl(b, i)), Shl(c, i + j));
            && And(w, Pow2(i) - 1) == a
            && And(Shr(w, i), Pow2(j) - 1) == b
            && And(Shr(w, i + j), Pow2(k) - 1) == c
  {
    var high := b + Shl(c, j);
    ThreeFieldsSum(a, b, c, i, j);
    assert And(a + Shl(high, i), Pow2(i) - 1) == a by { AndLow(a, high, i); }
    assert Shr(a + Shl(high, i), i) == high by { ShrHigh(a, high, i); }
    assert And(high, Pow2(j) - 1) == b by { AndLow(b, c, j); }
    assert And(c, Pow2(k) - 1) == c by { ShlZero(k); AndLow(c, 0, k); }
    ShrHigh(a + Shl(b, i), c, i + j);
  }

  lemma {:induction false} OrStep(a: nat, b: nat)
    ensures Or(a, b) == 2 * Or(a / 2, b / 2) + if a % 2 == 1 || b % 2 == 1 then 1 else 0
  {
  }

  /** A field or-ed onto a word that already reaches into it disturbs only that field. */
  lemma {:induction false} OrShifted(low: nat, a: nat, b: nat, k: nat)
    requires low < Pow2(k)
    ensures Or(low + Shl(a, k), Shl(b, k)) == low + Shl(Or(a, b), k)
  {
    if k > 0 {
      var x, y := low + Shl(a, k), Shl(b, k);
      OrShifted(low / 2, a, b, k - 1);
      OrStep(x, y);
      assert x / 2 == low / 2 + Shl(a, k - 1) && x % 2 == low % 2;
      assert y / 2 == Shl(b, k - 1) && y % 2 == 0;
    }
  }

  lemma {:induction false} OrFits(a: nat, b: nat, k: nat)
    requires a < Pow2(k) && b < Pow2(k)
    ensures a <= Or(a, b) < Pow2(k)
  {
    if k > 0 {
      OrFits(a / 2, b / 2, k - 1);
      OrStep(a, b);
    }
  }

  /** Shifting is multiplying or dividing by a power of two, and masking is taking a remainder. */
  lemma {:induction false} ShlMeans(a: nat, k: nat)
    ensures Shl(a, k) == a * Pow2(k)
  {
    if k > 0 {
      ShlMeans(a, k - 1);
    }
  }

  lemma {:induction false} SplitAt(a: nat, k: nat) returns (low: nat, high: nat)
    ensures low < Pow2(k) && a == low + Shl(high, k)
    ensures low == a % Pow2(k) && high == a / Pow2(k)
  {
    hide Shl, Pow2;
    var p := Pow2(k);
    low, high := a % p, a / p;
    ShlMeans(high, k);
  }

  lemma {:induction false} ShrMeans(a: nat, k: nat)
    ensures Shr(a, k) == a / Pow2(k)
  {
    hide Shl, Shr, Pow2;
    var low, high := SplitAt(a, k);
    ShrHigh(low, high, k);
  }

  lemma {:induction false} MaskMeans(a: nat, k: nat)
    ensures And(a, Pow2(k) - 1) == a % Pow2(k)
  {
    hide Shl, And, Pow2;
    var low, high := SplitAt(a, k);
    AndLow(low, high, k);
  }

  lemma {:induction false} Pow2Adds(j: nat, k: nat)
    ensures Pow2(j + k) == Pow2(j) * Pow2(k)
  {
    if j > 0 {
      Pow2Adds(j - 1, k);
      assert Pow2(j + k) == 2 * Pow2(j - 1 + k);
    }
  }

  /** The field widths of the tables. */
  lemma {:induction false} Widths()
    ensures Pow2(8) == 0x100 && Pow2(16) == 0x1_0000 && Pow2(32) == 0x1_0000_0000
  {
    assert Pow2(4) == 0x10 && Pow2(8) == 0x100;
    assert Pow2(12) == 0x1000 && Pow2(16) == 0x1_0000;
    assert Pow2(20) == 0x10_0000 && Pow2(24) == 0x100_0000;
    assert Pow2(28) == 0x1000_0000 && Pow2(32) == 0x1_0000_0000;
  }
}
