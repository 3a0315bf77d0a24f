/** `unsigned int` masks, 32 bits wide, read bit by bit. */
module Bits {

  const ALL_BITS: bv32 := 0xFFFF_FFFF

  /** 1 << i */
  function Bit(i: nat): bv32
    requires i < 32
  {
    (1 as bv32) << i
  }

  predicate Has(m: bv32, i: nat)
    requires i < 32
  {
    m & Bit(i) != 0
  }

  lemma AndOverOr(m: bv32, n: bv32, b: bv32)
    ensures (m | n) & b == (m & b) | (n & b)
    ensures m | n == 0 <==> m == 0 && n == 0
  {
  }

  lemma OrLaws(m: bv32, n: bv32, o: bv32)
    ensures m | (n | o) == (m | n) | o
    ensures m | 0 == m == 0 | m
  {
  }

  lemma HasOr(m: bv32, n: bv32, i: nat)
    requires i < 32
    ensures Has(m | n, i) <==> Has(m, i) || Has(n, i)
  {
    AndOverOr(m, n, Bit(i));
    AndOverOr(m & Bit(i), n & Bit(i), 0);
  }

  lemma HasUnion(u: bv32, m: bv32, n: bv32, i: nat)
    requires i < 32 && u == m | n
    ensures Has(u, i) <==> Has(m, i) || Has(n, i)
  {
    HasOr(m, n, i);
  }

  lemma OneBit(i: nat)
    requires i < 32
    ensures Bit(i) & (Bit(i) - 1) == 0
  {
  }

  // Bit by bit: shifts by an integer are cheap to prove only for constants.

  lemma LowByte(i: nat)
    requires 0 <= i < 8
    ensures Bit(i + 1) == Bit(i) << 1
  {
    assert i == 0 || i == 1 || i == 2 || i == 3 || i == 4 || i == 5 || i == 6 || i == 7;
  }

  lemma SecondByte(i: nat)
    requires 8 <= i < 16
    ensures Bit(i + 1) == Bit(i) << 1
  {
    assert i == 8 || i == 9 || i == 10 || i == 11 || i == 12 || i == 13 || i == 14 || i == 15;
  }

  lemma ThirdByte(i: nat)
    requires 16 <= i < 24
    ensures Bit(i + 1) == Bit(i) << 1
  {
    assert i == 16 || i == 17 || i == 18 || i == 19 || i == 20 || i == 21 || i == 22 || i == 23;
  }

  lemma HighByte(i: nat)
    requires 24 <= i < 31
    ensures Bit(i + 1) == Bit(i) << 1
  {
    assert i == 24 || i == 25 || i == 26 || i == 27 || i == 28 || i == 29 || i == 30;
  }

  lemma NextBit(i: nat)
    requires i < 31
    ensures Bit(i + 1) == Bit(i) << 1
  {
    hide Bit;
    if i < 8 {
      LowByte(i);
    } else if i < 16 {
      SecondByte(i);
    } else if i < 24 {
      ThirdByte(i);
    } else {
      HighByte(i);
    }
  }

  lemma Shifted(a: bv32, b: bv32)
    ensures a & b == 0 ==> (a << 1) & (b << 1) == 0
    ensures (1 as bv32) & (b << 1) == 0
    ensures a & b == b & a
  {
  }

  /** Different bits do not overlap. */
  lemma {:induction false} Apart(i: nat, j: nat)
    requires i < j < 32
    ensures Bit(i) & Bit(j) == 0
  {
    NextBit(j - 1);
    var b :| b == Bit(j - 1);
    if i == 0 {
      Shifted(1, b);
    } else {
      Apart(i - 1, j - 1);
      NextBit(i - 1);
      var a :| a == Bit(i - 1);
      Shifted(a, b);
    }
  }

  lemma NonZero(i: nat)
    requires i < 32
    ensures Bit(i) != 0 && Bit(i) & Bit(i) == Bit(i)
  {
  }

  lemma HasBit(i: nat, j: nat)
    requires i < 32 && j < 32
    ensures Has(Bit(i), j) <==> i == j
  {
    hide Bit;
    if i < j {
      Apart(i, j);
    } else if j < i {
      Apart(j, i);
      Shifted(Bit(j), Bit(i));
    } else {
      NonZero(i);
    }
  }

  lemma HasConstant(i: nat)
    requires i < 32
    ensures Has(ALL_BITS, i) && !Has(0, i)
  {
  }

  lemma Cleared(m: bv32, b: bv32, c: bv32)
    ensures m & !b & b == 0
    ensures b & c == 0 ==> m & !b & c == m & c
  {
  }

  lemma ClearKeeps(m: bv32, i: nat, j: nat)
    requires i < 32 && j < 32 && i != j
    ensures m & !Bit(i) & Bit(j) == m & Bit(j)
  {
    HasBit(i, j);
    var b :| b == Bit(i);
    var c :| c == Bit(j);
    Cleared(m, b, c);
  }

  /** Clearing bit i (`m &= ~(1 << i)`) takes away that bit and no other. */
  lemma HasCleared(m: bv32, i: nat, j: nat)
    requires i < 32 && j < 32
    ensures Has(m & !Bit(i), j) <==> Has(m, j) && i != j
  {
    if i == j {
      Cleared(m, Bit(i), 0);
    } else {
      ClearKeeps(m, i, j);
    }
  }

  lemma HasClearedIs(c: bv32, m: bv32, i: nat, j: nat)
    requires i < 32 && j < 32 && c == m & !Bit(i)
    ensures Has(c, j) <==> Has(m, j) && i != j
  {
    HasCleared(m, i, j);
  }

  /** The mask of the bits below k. */
  function Below(k: nat): bv32
    requires k <= 32
  {
    if k == 32 then ALL_BITS else Bit(k) - 1
  }

  /** The lowest k + 1 bits are the lowest k and bit k; b is bit k on its own. */
  lemma Carry(b: bv32)
    requires b & (b - 1) == 0
    ensures (b << 1) - 1 == (b - 1) | b
  {
  }

  lemma BelowNext(k: nat)
    requires k < 32
    ensures Below(k + 1) == Below(k) | Bit(k)
  {
    if k < 31 {
      hide Bit;
      OneBit(k);
      NextBit(k);
      Carry(Bit(k));
    }
  }

  lemma {:induction false} EmptyBelow(m: bv32, k: nat)
    requires k <= 32
    requires forall i | 0 <= i < k :: !Has(m, i)
    ensures m & Below(k) == 0
  {
    if k > 0 {
      EmptyBelow(m, k - 1);
      BelowNext(k - 1);
      assert !Has(m, k - 1);
      AndOverOr(Below(k - 1), Bit(k - 1), m);
    }
  }

  /** No bits, no mask. */
  lemma NoBits(m: bv32)
    requires forall i | 0 <= i < 32 :: !Has(m, i)
    ensures m == 0
  {
    EmptyBelow(m, 32);
  }

  lemma XorBit(m: bv32, n: bv32, b: bv32)
    ensures (m & b) == (n & b) ==> (m ^ n) & b == 0
    ensures (m ^ n) == 0 ==> m == n
  {
  }

  lemma AllOrNothing(m: bv32, i: nat)
    requires i < 32
    ensures Has(m, i) ==> m & Bit(i) == Bit(i)
  {
  }

  lemma AgreeAt(m: bv32, n: bv32, i: nat)
    requires i < 32
    requires Has(m, i) <==> Has(n, i)
    ensures m & Bit(i) == n & Bit(i)
  {
    AllOrNothing(m, i);
    AllOrNothing(n, i);
  }

  /** Masks with the same bits are equal. */
  lemma SameBits(m: bv32, n: bv32)
    requires forall i | 0 <= i < 32 :: Has(m, i) <==> Has(n, i)
    ensures m == n
  {
    var x := m ^ n;
    forall i | 0 <= i < 32
      ensures !Has(x, i)
    {
      AgreeAt(m, n, i);
      XorBit(m, n, Bit(i));
    }
    NoBits(x);
    XorBit(m, n, 0);
  }
}
