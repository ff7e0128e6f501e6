/** Machine words as numbers: `|`, `&` and shifts on binary digits. */
module Bits {
  import opened Common

  /** Digit `i` of `x`. */
  predicate Bit(x: nat, i: nat)
    decreases i
  {
    if i == 0 then x % 2 == 1 else Bit(x / 2, i - 1)
  }

  function Or(x: nat, y: nat): nat {
    if x == 0 then y
    else if y == 0 then x
    else Max(x % 2, y % 2) + 2 * Or(x / 2, y / 2)
  }

  function And(x: nat, y: nat): nat {
    if x == 0 || y == 0 then 0 else (if x % 2 == 1 && y % 2 == 1 then 1 else 0) + 2 * And(x / 2, y / 2)
  }

  /** `1 << k` */
  function OneBit(k: nat): (p: nat)
    ensures p > 0
  {
    if k == 0 then 1 else 2 * OneBit(k - 1)
  }

  function TrailingZeros(x: nat): nat
    requires x > 0
  {
    if x % 2 == 1 then 0 else 1 + TrailingZeros(x / 2)
  }

  lemma {:induction false} ZeroBits(i: nat)
    ensures !Bit(0, i)
    decreases i
  {
    if i > 0 {
      ZeroBits(i - 1);
    }
  }

  lemma {:induction false} OneBitBits(k: nat, i: nat)
    ensures Bit(OneBit(k), i) <==> i == k
    decreases i
  {
    if i > 0 && k > 0 {
      assert OneBit(k) / 2 == OneBit(k - 1);
      OneBitBits(k - 1, i - 1);
    } else if k == 0 && i > 0 {
      ZeroBits(i - 1);
    }
  }

  lemma {:induction false} OrBits(x: nat, y: nat, i: nat)
    ensures Bit(Or(x, y), i) <==> Bit(x, i) || Bit(y, i)
    decreases i
  {
    if x == 0 || y == 0 {
      ZeroBits(i);
    } else {
      assert Or(x, y) / 2 == Or(x / 2, y / 2) && Or(x, y) % 2 == Max(x % 2, y % 2);
      if i > 0 {
        OrBits(x / 2, y / 2, i - 1);
      }
    }
  }

  lemma {:induction false} AndBits(x: nat, y: nat, i: nat)
    ensures Bit(And(x, y), i) <==> Bit(x, i) && Bit(y, i)
    decreases i
  {
    if x == 0 || y == 0 {
      ZeroBits(i);
    } else {
      assert And(x, y) / 2 == And(x / 2, y / 2) && And(x, y) % 2 == if x % 2 == 1 && y % 2 == 1 then 1 else 0;
      if i > 0 {
        AndBits(x / 2, y / 2, i - 1);
      }
    }
  }

  /** The lowest set digit, and which digits `x - 1` has. */
  lemma {:induction false} TrailingZerosBits(x: nat, i: nat)
    requires x > 0
    ensures Bit(x, TrailingZeros(x)) && (i < TrailingZeros(x) ==> !Bit(x, i))
    ensures Bit(x - 1, i) <==> (if i < TrailingZeros(x) then true else i != TrailingZeros(x) && Bit(x, i))
    decreases x
  {
    if x % 2 == 1 {
      assert (x - 1) / 2 == x / 2;
    } else {
      assert (x - 1) / 2 == x / 2 - 1 && (x - 1) % 2 == 1;
      TrailingZerosBits(x / 2, if i > 0 then i - 1 else 0);
    }
  }

  /** `x & (x - 1)` removes exactly the lowest set digit. */
  lemma ClearLowestBit(x: nat, i: nat)
    requires x > 0
    ensures Bit(And(x, x - 1), i) <==> Bit(x, i) && i != TrailingZeros(x)
  {
    AndBits(x, x - 1, i);
    TrailingZerosBits(x, i);
  }

  lemma {:induction false} AndSmaller(x: nat, y: nat)
    ensures And(x, y) <= y
    decreases y
  {
    if x > 0 && y > 0 {
      AndSmaller(x / 2, y / 2);
    }
  }
}
