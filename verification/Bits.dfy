/**
  Single bits of a number, as SET_BIT, UNSET_BIT and CHECK_BIT touch them
  (librist-master/include/common/attributes.h:93-94, librist-master/src/rist-private.h:61).
 */
module Bits {
  import opened Arithmetic

  predicate Bit(x: nat, j: nat) {
    if j == 0 then x % 2 == 1 else Bit(x / 2, j - 1)
  }

  function Pow2(n: nat): (p: nat)
    ensures p > 0
  {
    if n == 0 then 1 else 2 * Pow2(n - 1)
  }

  lemma Halves(x: nat, p: nat)
    requires p > 0
    ensures x / 2 / p == x / (2 * p)
  {
    var q, r, d := x / 2 / p, x / 2 % p, x % 2;
    assert x / 2 == p * q + r && x == 2 * (x / 2) + d;
    assert x == (2 * r + d) + q * (2 * p);
    RemainderIs(x, q, 2 * r + d, 2 * p);
  }

  /** Bit j counts for 2^j. */
  lemma {:induction false} BitMeaning(x: nat, j: nat)
    ensures Bit(x, j) <==> x / Pow2(j) % 2 == 1
  {
    if j > 0 {
      BitMeaning(x / 2, j - 1);
      Halves(x, Pow2(j - 1));
    }
  }

  function SetBit(x: nat, j: nat): nat {
    if j == 0 then (if x % 2 == 1 then x else x + 1) else 2 * SetBit(x / 2, j - 1) + x % 2
  }

  /** The macro named after clearing a bit clears all others instead. */
  function UnsetBit(x: nat, j: nat): nat {
    if Bit(x, j) then SetBit(0, j) else 0
  }

  lemma {:induction false} SetBitSets(x: nat, j: nat, k: nat)
    ensures Bit(SetBit(x, j), k) <==> k == j || Bit(x, k)
  {
    if j > 0 {
      assert SetBit(x, j) / 2 == SetBit(x / 2, j - 1) && SetBit(x, j) % 2 == x % 2;
      if k > 0 {
        SetBitSets(x / 2, j - 1, k - 1);
      }
    } else if k > 0 {
      assert SetBit(x, 0) / 2 == x / 2;
    }
  }

  lemma SetBitStep(x: nat, j: nat)
    ensures SetBit(x, j) == if j > 0 then 2 * SetBit(x / 2, j - 1) + x % 2 else if x % 2 == 1 then x else x + 1
  {
  }

  lemma Pow2Step(n: nat)
    requires n > 0
    ensures Pow2(n) == 2 * Pow2(n - 1)
  {
  }

  lemma HalfFits(x: nat, p: nat)
    requires x < 2 * p
    ensures x / 2 < p && x % 2 < 2 && (if x % 2 == 1 then x else x + 1) < 2 * p
  {
  }

  lemma DoubleFits(a: nat, bit: nat, p: nat)
    requires a < p && bit < 2
    ensures 2 * a + bit < 2 * p
  {
  }

  lemma {:induction false} SetBitFits(x: nat, j: nat, n: nat)
    requires x < Pow2(n) && j < n
    ensures SetBit(x, j) < Pow2(n)
  {
    SetBitStep(x, j);
    Pow2Step(n);
    HalfFits(x, Pow2(n - 1));
    hide SetBit, Pow2;
    if j > 0 {
      SetBitFits(x / 2, j - 1, n - 1);
      DoubleFits(SetBit(x / 2, j - 1), x % 2, Pow2(n - 1));
    }
  }

  lemma {:induction false} ZeroHasNoBits(k: nat)
    ensures !Bit(0, k)
  {
    if k > 0 {
      ZeroHasNoBits(k - 1);
    }
  }

  /** So the bit itself stays what it was. */
  lemma UnsetKeepsBit(x: nat, j: nat, k: nat)
    ensures Bit(UnsetBit(x, j), k) <==> k == j && Bit(x, j)
  {
    SetBitSets(0, j, k);
    ZeroHasNoBits(k);
  }

  lemma Pow2Of16()
    ensures Pow2(16) == 0x1_0000
  {
    assert Pow2(4) == 16;
    assert Pow2(8) == 256;
    assert Pow2(12) == 4096;
  }
}
