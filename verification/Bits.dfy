/**
 The 32-bit operators of ECMA-262, sections 6.1.6.1.9 and 6.1.6.1.17 to 6.1.6.1.20, on
 non-negative integers, and what each of them does to a single bit.
*/
module Bits {

  predicate Bit(a: nat, i: nat)
  {
    if i == 0 then a % 2 == 1 else Bit(a / 2, i - 1)
  }

  function And(a: nat, b: nat): nat
  {
    if a == 0 || b == 0 then 0
    else 2 * And(a / 2, b / 2) + if a % 2 == 1 && b % 2 == 1 then 1 else 0
  }

  function Or(a: nat, b: nat): nat
  {
    if a == 0 then b
    else if b == 0 then a
    else 2 * Or(a / 2, b / 2) + if a % 2 == 1 || b % 2 == 1 then 1 else 0
  }

  function Doubled(a: nat, k: nat): nat
  {
    if k == 0 then a else 2 * Doubled(a, k - 1)
  }

  /** The `k` low bits of `a`. */
  function LowBits(a: nat, k: nat): nat
  {
    if k == 0 then 0 else 2 * LowBits(a / 2, k - 1) + a % 2
  }

  /** `a << count`: the count is taken modulo 32, and bits beyond the 32nd are lost. */
  function ShiftLeft(a: nat, count: nat): nat
  {
    LowBits(Doubled(a, count % 32), 32)
  }

  lemma {:induction false} AndBit(a: nat, b: nat, i: nat)
    ensures Bit(And(a, b), i) <==> Bit(a, i) && Bit(b, i)
  {
    if a == 0 || b == 0 {
      ZeroBit(i);
    } else if i > 0 {
      AndBit(a / 2, b / 2, i - 1);
    }
  }

  lemma {:induction false} OrBit(a: nat, b: nat, i: nat)
    ensures Bit(Or(a, b), i) <==> Bit(a, i) || Bit(b, i)
  {
    if a == 0 || b == 0 {
      ZeroBit(i);
    } else if i > 0 {
      OrBit(a / 2, b / 2, i - 1);
    }
  }

  lemma {:induction false} ZeroBit(i: nat)
    ensures !Bit(0, i)
  {
    if i > 0 { ZeroBit(i - 1); }
  }

  lemma {:induction false} DoubledBit(a: nat, k: nat, i: nat)
    ensures Bit(Doubled(a, k), i) <==> k <= i && Bit(a, i - k)
  {
    if k > 0 && i > 0 { DoubledBit(a, k - 1, i - 1); }
  }

  lemma {:induction false} LowBitsBit(a: nat, k: nat, i: nat)
    ensures Bit(LowBits(a, k), i) <==> i < k && Bit(a, i)
  {
    if k == 0 {
      ZeroBit(i);
    } else if i > 0 {
      LowBitsBit(a / 2, k - 1, i - 1);
    }
  }

  /** The low bits are the remainder of dividing by two to the power `k`. */
  lemma {:induction false} LowBitsIsRemainder(a: nat, k: nat) returns (q: nat)
    ensures LowBits(a, k) < Doubled(1, k) && a == LowBits(a, k) + Doubled(q, k)
  {
    if k == 0 {
      q := a;
    } else {
      q := LowBitsIsRemainder(a / 2, k - 1);
    }
  }

  /** Below bit 32 a shift moves bits upwards, by the count modulo 32. */
  lemma ShiftLeftBit(a: nat, count: nat, i: nat)
    requires i < 32
    ensures Bit(ShiftLeft(a, count), i) <==> count % 32 <= i && Bit(a, i - count % 32)
  {
    LowBitsBit(Doubled(a, count % 32), 32, i);
    DoubledBit(a, count % 32, i);
  }

  lemma OneBit(i: nat)
    ensures Bit(1, i) <==> i == 0
  {
    if i > 0 { ZeroBit(i - 1); }
  }

  /** `1 << k` has bit `k` and no other. */
  lemma MaskBit(k: nat, i: nat)
    requires k < 32
    ensures Bit(ShiftLeft(1, k), i) <==> i == k
  {
    hide Bit, LowBits, Doubled;
    LowBitsBit(Doubled(1, k), 32, i);
    DoubledBit(1, k, i);
    if k <= i { OneBit(i - k); }
  }

  lemma {:induction false} NonzeroHasBit(a: nat) returns (i: nat)
    requires a != 0
    ensures Bit(a, i)
  {
    if a % 2 == 1 {
      i := 0;
    } else {
      i := NonzeroHasBit(a / 2);
      i := i + 1;
    }
  }

  /** Testing a word against `1 << k` reads its bit `k`. */
  lemma TestReadsBit(a: nat, k: nat)
    requires k < 32
    ensures And(a, ShiftLeft(1, k)) != 0 <==> Bit(a, k)
  {
    var mask := ShiftLeft(1, k);
    if And(a, mask) != 0 {
      var i := NonzeroHasBit(And(a, mask));
      AndBit(a, mask, i);
      MaskBit(k, i);
    } else {
      ZeroBit(k);
      AndBit(a, mask, k);
      MaskBit(k, k);
    }
  }

  /** `(1 << k) - 1` has the bits below `k`. */
  lemma {:induction false} LowMaskBit(k: nat, i: nat)
    requires Doubled(1, k) > 0
    ensures Bit(Doubled(1, k) - 1, i) <==> i < k
  {
    if k == 0 {
      ZeroBit(i);
    } else if i > 0 {
      assert (Doubled(1, k) - 1) / 2 == Doubled(1, k - 1) - 1;
      LowMaskBit(k - 1, i - 1);
    }
  }
}
