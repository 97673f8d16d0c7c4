/** Bit masks held in a C `unsigned int`, seen one bit at a time.  A mask is
    a natural number; bit `i` is the remainder after `i` halvings.  Setting,
    clearing and testing a single bit are all the drivers do with them. */
module Bits {
  import opened Kernel

  /** `mask & BIT(i)` is nonzero. */
  predicate Bit(m: nat, i: nat) {
    if i == 0 then m % 2 == 1 else Bit(m / 2, i - 1)
  }

  /** `mask | BIT(i)`. */
  function SetBit(m: nat, i: nat): nat {
    if i == 0 then (if m % 2 == 1 then m else m + 1)
    else 2 * SetBit(m / 2, i - 1) + m % 2
  }

  /** `mask & ~BIT(i)`. */
  function ClearBit(m: nat, i: nat): nat {
    if i == 0 then m - m % 2
    else 2 * ClearBit(m / 2, i - 1) + m % 2
  }

  lemma {:induction false} SetBitBits(m: nat, i: nat, j: nat)
    ensures Bit(SetBit(m, i), j) == (j == i || Bit(m, j))
  {
    if i != 0 && j != 0 {
      SetBitBits(m / 2, i - 1, j - 1);
    }
  }

  lemma {:induction false} ClearBitBits(m: nat, i: nat, j: nat)
    ensures Bit(ClearBit(m, i), j) == (j != i && Bit(m, j))
  {
    if i != 0 && j != 0 {
      ClearBitBits(m / 2, i - 1, j - 1);
    }
  }

  lemma {:induction false} SetBitBound(m: nat, i: nat, w: nat)
    requires m < Pow2(w) && i < w
    ensures SetBit(m, i) < Pow2(w)
  {
    var h := Pow2(w - 1);
    assert Pow2(w) == 2 * h;
    if i == 0 {
      assert m % 2 == 0 ==> m + 1 < 2 * h;
    } else {
      assert m / 2 < h;
      SetBitBound(m / 2, i - 1, w - 1);
      assert SetBit(m, i) == 2 * SetBit(m / 2, i - 1) + m % 2;
    }
  }

  lemma {:induction false} ClearBitBound(m: nat, i: nat)
    ensures ClearBit(m, i) <= m
  {
    if i != 0 {
      ClearBitBound(m / 2, i - 1);
    }
  }

  /** Setting or clearing a bit moves exactly that bit. */
  lemma SetBitSpec(m: nat, i: nat)
    ensures Bit(SetBit(m, i), i)
    ensures forall j :: j != i ==> Bit(SetBit(m, i), j) == Bit(m, j)
  {
    SetBitBits(m, i, i);
    forall j | j != i ensures Bit(SetBit(m, i), j) == Bit(m, j) {
      SetBitBits(m, i, j);
    }
  }

  lemma ClearBitSpec(m: nat, i: nat)
    ensures !Bit(ClearBit(m, i), i)
    ensures forall j :: j != i ==> Bit(ClearBit(m, i), j) == Bit(m, j)
  {
    ClearBitBits(m, i, i);
    forall j | j != i ensures Bit(ClearBit(m, i), j) == Bit(m, j) {
      ClearBitBits(m, i, j);
    }
  }

  /** An already-set bit makes `|=` a no-op. */
  lemma {:induction false} SetBitIdem(m: nat, i: nat)
    requires Bit(m, i)
    ensures SetBit(m, i) == m
  {
    if i != 0 {
      SetBitIdem(m / 2, i - 1);
    }
  }

  /** An already-clear bit makes `&= ~` a no-op. */
  lemma {:induction false} ClearBitIdem(m: nat, i: nat)
    requires !Bit(m, i)
    ensures ClearBit(m, i) == m
  {
    if i != 0 {
      ClearBitIdem(m / 2, i - 1);
    }
  }

  /** The zero mask has no bit set. */
  lemma {:induction false} ZeroNoBits(i: nat)
    ensures !Bit(0, i)
  {
    if i != 0 {
      ZeroNoBits(i - 1);
    }
  }

  /** The widths the drivers use: a 32-bit word and the 9 BAM-DMUX channels. */
  lemma Pow2Widths()
    ensures Pow2(32) == 0x1_0000_0000 && Pow2(9) == 0x200
  {
    assert Pow2(9) == 0x200;
    assert Pow2(16) == 0x1_0000;
    Pow2Add(16, 16);
  }

  /** A nonzero mask below 2^w has a set bit below w. */
  lemma {:induction false} NonZeroHasBit(m: nat, w: nat) returns (k: nat)
    requires 0 < m < Pow2(w)
    ensures k < w && Bit(m, k)
  {
    if m % 2 == 1 {
      k := 0;
    } else {
      var k' := NonZeroHasBit(m / 2, w - 1);
      k := k' + 1;
    }
  }
}
