/** Bitwise operators on unsigned C integers, written out on natural numbers, and the
    arithmetic they stand for when a mask or a shift is a power of two. */
module BitOps {

  function Pow2(k: nat): (p: nat)
    ensures p >= 1
  {
    if k == 0 then 1 else 2 * Pow2(k - 1)
  }

  /** `x & y`. */
  function And(x: nat, y: nat): nat {
    if x == 0 || y == 0 then 0
    else 2 * And(x / 2, y / 2) + (if x % 2 == 1 && y % 2 == 1 then 1 else 0)
  }

  /** `x | y`. */
  function Or(x: nat, y: nat): nat {
    if x == 0 then y else if y == 0 then x
    else 2 * Or(x / 2, y / 2) + (if x % 2 == 1 || y % 2 == 1 then 1 else 0)
  }

  /** `x >> k`. */
  function Shr(x: nat, k: nat): nat {
    if k == 0 then x else Shr(x / 2, k - 1)
  }

  /** The low `k` bits of `x`. */
  function Low(x: nat, k: nat): nat {
    if k == 0 then 0 else 2 * Low(x / 2, k - 1) + x % 2
  }

  /** Bit `k` of `x`. */
  predicate Bit(x: nat, k: nat) {
    if k == 0 then x % 2 == 1 else Bit(x / 2, k - 1)
  }

  lemma AndOdd(x: nat, m: nat)
    ensures And(x, 2 * m + 1) == 2 * And(x / 2, m) + x % 2
  {
    assert (2 * m + 1) / 2 == m;
  }

  /** Masking with 2^k - 1 keeps the low k bits. */
  lemma {:induction false} MaskIsLow(x: nat, k: nat)
    ensures And(x, Pow2(k) - 1) == Low(x, k) < Pow2(k)
  {
    if k > 0 {
      MaskIsLow(x / 2, k - 1);
      var p := Pow2(k - 1);
      AndOdd(x, p - 1);
      assert Pow2(k) - 1 == 2 * (p - 1) + 1;
    }
  }

  lemma MulTwice(s: nat, p: nat)
    ensures s * (2 * p) == 2 * (s * p)
  {
  }

  /** A shift and a mask by the same power of two split a number. */
  lemma {:induction false} ShrLowSplit(x: nat, k: nat)
    ensures x == Shr(x, k) * Pow2(k) + Low(x, k)
  {
    if k > 0 {
      ShrLowSplit(x / 2, k - 1);
      MulTwice(Shr(x, k), Pow2(k - 1));
    }
  }

  /** One more low bit keeps the number or adds the next power of two. */
  lemma {:induction false} LowStep(x: nat, k: nat)
    ensures Low(x, k + 1) == Low(x, k) + if Bit(x, k) then Pow2(k) else 0
  {
    if k > 0 { LowStep(x / 2, k - 1); }
  }

  lemma MulApart(d: int, m: int)
    requires m >= 0
    ensures d >= 1 ==> d * m >= m
    ensures d <= -1 ==> d * m <= -m
  {
  }

  lemma ModUnique(x: nat, m: nat, q: nat, r: nat)
    requires r < m && x == q * m + r
    ensures x % m == r && x / m == q
  {
    var d: int := x / m - q;
    assert d * m == r - x % m;
    MulApart(d, m);
  }

  /** So masking is the remainder, and shifting the quotient, by the power of two. */
  lemma MaskShiftAreModDiv(x: nat, k: nat)
    ensures And(x, Pow2(k) - 1) == x % Pow2(k) && Shr(x, k) == x / Pow2(k)
  {
    MaskIsLow(x, k);
    ShrLowSplit(x, k);
    ModUnique(x, Pow2(k), Shr(x, k), Low(x, k));
  }

  // ---------- single bits ----------

  lemma {:induction false} BitZero(k: nat)
    ensures !Bit(0, k)
  {
    if k > 0 { BitZero(k - 1); }
  }

  lemma {:induction false} BitPow2(k: nat, j: nat)
    ensures Bit(Pow2(k), j) <==> j == k
  {
    if k > 0 && j > 0 {
      BitPow2(k - 1, j - 1);
    } else if k == 0 && j > 0 {
      BitZero(j - 1);
    }
  }

  /** Testing a bit with a mask of one bit. */
  lemma {:induction false} AndPow2(x: nat, k: nat)
    ensures And(x, Pow2(k)) != 0 <==> Bit(x, k)
  {
    if x == 0 {
      BitZero(k);
    } else if k > 0 {
      AndPow2(x / 2, k - 1);
    }
  }

  /** Setting a bit with a mask of one bit changes no other. */
  lemma {:induction false} OrPow2(x: nat, k: nat, j: nat)
    ensures Bit(Or(x, Pow2(k)), j) <==> Bit(x, j) || j == k
  {
    if x == 0 {
      BitZero(j);
      BitPow2(k, j);
    } else if k > 0 && j > 0 {
      OrPow2(x / 2, k - 1, j - 1);
    } else if k == 0 && j > 0 {
      assert Or(x / 2, 0) == x / 2;
    }
  }

  lemma {:induction false} OrPow2Bound(x: nat, k: nat, n: nat)
    requires x < Pow2(n) && k < n
    ensures Or(x, Pow2(k)) < Pow2(n)
  {
    if x == 0 {
      Pow2Rises(k, n);
    } else if k > 0 {
      OrPow2Bound(x / 2, k - 1, n - 1);
    } else {
      assert Or(x / 2, 0) == x / 2;
    }
  }

  lemma {:induction false} Pow2Rises(k: nat, n: nat)
    requires k < n
    ensures Pow2(k) < Pow2(n)
  {
    if k + 1 < n { Pow2Rises(k, n - 1); }
  }

  /** A word is determined by its bits. */
  lemma {:induction false} WordExtensional(x: nat, y: nat, n: nat)
    requires x < Pow2(n) && y < Pow2(n) && forall j :: 0 <= j < n ==> (Bit(x, j) <==> Bit(y, j))
    ensures x == y
  {
    if n > 0 {
      forall j | 0 <= j < n - 1
        ensures Bit(x / 2, j) <==> Bit(y / 2, j)
      {
        assert Bit(x, j + 1) <==> Bit(y, j + 1);
      }
      WordExtensional(x / 2, y / 2, n - 1);
      assert Bit(x, 0) <==> Bit(y, 0);
    }
  }

  /** A bit is the parity of the shifted word, and shifting once more halves it. */
  lemma {:induction false} BitShr(x: nat, k: nat)
    ensures Bit(x, k) <==> Shr(x, k) % 2 == 1
    ensures Shr(x, k + 1) == Shr(x, k) / 2
  {
    if k > 0 { BitShr(x / 2, k - 1); }
  }
}
