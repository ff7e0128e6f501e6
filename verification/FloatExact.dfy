/** Which integers a binary64 number holds exactly, src/value.rs. */
module FloatExact {
  import opened Bits
  import opened Common

  /** Digits of the significand, the hidden one included. */
  const EXACT_INT_BITS: nat := 53

  /** `u64::BITS - value.leading_zeros()` */
  function BitLength(v: nat): nat {
    if v == 0 then 0 else 1 + BitLength(v / 2)
  }

  /** The test for a significand of `bits` digits. */
  function ExactWith(v: nat, bits: nat): bool {
    if v <= OneBit(bits) then true
    else
      BitLengthAtLeast(v, bits);
      And(v, OneBit(BitLength(v) - bits) - 1) == 0
  }

  /** `u64_is_exact_in_f64` */
  function IsExact(v: U64): bool {
    ExactWith(v, EXACT_INT_BITS)
  }

  function Abs(v: int): nat {
    if v < 0 then -v else v
  }

  /** `i64_to_f64_exact` succeeds. */
  function IsExactSigned(v: I64): bool {
    IsExact(Abs(v))
  }

  function Scaled(m: nat, e: nat): nat {
    m * OneBit(e)
  }

  /** A significand of `bits` binary digits scaled by a power of two (section 3.4 of IEEE 754-2019). */
  ghost predicate Representable(v: nat, bits: nat) {
    exists m: nat, e: nat :: m < OneBit(bits) && v == Scaled(m, e)
  }

  lemma {:induction false} BitLengthBounds(v: nat)
    requires v > 0
    ensures BitLength(v) >= 1 && OneBit(BitLength(v) - 1) <= v < OneBit(BitLength(v))
    decreases v
  {
    if v > 1 {
      BitLengthBounds(v / 2);
    }
  }

  lemma {:induction false} OneBitMonotone(j: nat, k: nat)
    requires j <= k
    ensures OneBit(j) <= OneBit(k)
    decreases k
  {
    if j < k {
      OneBitMonotone(j, k - 1);
    }
  }

  lemma BitLengthAtLeast(v: nat, k: nat)
    requires v > OneBit(k)
    ensures BitLength(v) > k
  {
    BitLengthBounds(v);
    if BitLength(v) <= k {
      OneBitMonotone(BitLength(v), k);
    }
  }

  /** Masking with `2^k - 1` takes the remainder. */
  lemma {:induction false} MaskIsRemainder(v: nat, k: nat, p: nat)
    requires p == OneBit(k)
    ensures And(v, p - 1) == v % p
    decreases k
  {
    if v == 0 {
      RemainderIs(0, p, 0, 0);
    } else if k > 0 {
      MaskIsRemainder(v / 2, k - 1, OneBit(k - 1));
      MaskStep(v, OneBit(k - 1));
    }
  }

  lemma MaskStep(v: nat, p: nat)
    requires v > 0 && p > 0 && And(v / 2, p - 1) == (v / 2) % p
    ensures And(v, 2 * p - 1) == v % (2 * p)
  {
    var mask := 2 * p - 1;
    assert mask / 2 == p - 1 && mask % 2 == 1;
    HalfRemainder(v, p);
  }

  lemma HalfRemainder(v: nat, p: nat)
    requires p > 0
    ensures v % (2 * p) == v % 2 + 2 * ((v / 2) % p)
  {
    var q, r := (v / 2) / p, (v / 2) % p;
    assert v / 2 == q * p + r;
    assert v == 2 * (q * p + r) + v % 2;
    assert v == q * (2 * p) + (2 * r + v % 2);
    RemainderIs(v, 2 * p, q, 2 * r + v % 2);
  }

  lemma RemainderIs(v: nat, d: nat, q: nat, r: nat)
    requires v == q * d + r && r < d
    ensures v % d == r
  {
    assert v == (v / d) * d + v % d;
    if v / d < q {
      MulMonotone(v / d + 1, q, d, d);
    } else if v / d > q {
      MulMonotone(q + 1, v / d, d, d);
    }
  }

  lemma {:induction false} OneBitSum(a: nat, b: nat)
    ensures OneBit(a + b) == OneBit(a) * OneBit(b)
    decreases a
  {
    if a > 0 {
      OneBitSum(a - 1, b);
      MulAssociates(2, OneBit(a - 1), OneBit(b));
    }
  }

  lemma Divisible(m: nat, shift: nat, e: nat)
    requires shift <= e
    ensures (m * OneBit(e)) % OneBit(shift) == 0
  {
    OneBitSum(e - shift, shift);
    var q := m * OneBit(e - shift);
    assert m * OneBit(e) == q * OneBit(shift) by {
      MulAssociates(m, OneBit(e - shift), OneBit(shift));
    }
    RemainderIs(m * OneBit(e), OneBit(shift), q, 0);
  }

  lemma MulAssociates(a: nat, b: nat, c: nat)
    ensures a * (b * c) == (a * b) * c
  {
  }

  lemma MulBelow(m: nat, n: nat, c: nat, d: nat)
    requires m < n && 0 < c <= d
    ensures m * c < n * d
  {
    assert m * c <= m * d < n * d;
  }

  /** Of a number with `shift` digits too many, those have to be zero. */
  lemma ExcessZeroRepresentable(v: nat, bits: nat, shift: nat)
    requires v > 0 && BitLength(v) == bits + shift && v % OneBit(shift) == 0
    ensures Representable(v, bits)
  {
    BitLengthBounds(v);
    OneBitSum(bits, shift);
    Quotient(v, OneBit(bits), OneBit(shift));
    assert v == Scaled(v / OneBit(shift), shift);
  }

  lemma Quotient(v: nat, n: nat, d: nat)
    requires d > 0 && v % d == 0 && v < n * d
    ensures v == (v / d) * d && v / d < n
  {
    assert v == (v / d) * d + v % d;
    if v / d >= n {
      MulMonotone(n, v / d, d, d);
    }
  }

  lemma RepresentableExcessZero(v: nat, bits: nat, shift: nat, m: nat, e: nat)
    requires v > 0 && BitLength(v) == bits + shift && m < OneBit(bits) && v == Scaled(m, e)
    ensures v % OneBit(shift) == 0
  {
    EnoughDigits(v, bits, shift, m, e);
    Divisible(m, shift, e);
  }

  lemma EnoughDigits(v: nat, bits: nat, shift: nat, m: nat, e: nat)
    requires v > 0 && BitLength(v) == bits + shift && m < OneBit(bits) && v == Scaled(m, e)
    ensures e >= shift
  {
    BitLengthBounds(v);
    if e < shift {
      TooFewDigits(bits, shift, m, e);
    }
  }

  lemma TooFewDigits(bits: nat, shift: nat, m: nat, e: nat)
    requires m < OneBit(bits) && e < shift
    ensures Scaled(m, e) < OneBit(bits + shift - 1)
  {
    OneBitMonotone(e, shift - 1);
    MulBelow(m, OneBit(bits), OneBit(e), OneBit(shift - 1));
    OneBitSum(bits, shift - 1);
  }

  /** The test accepts exactly the numbers with such a significand, whatever its width. */
  lemma ExactWithIffRepresentable(v: nat, bits: nat)
    requires bits >= 1
    ensures ExactWith(v, bits) <==> Representable(v, bits)
  {
    if v < OneBit(bits) {
      assert v == Scaled(v, 0);
    } else if v == OneBit(bits) {
      OneBitMonotone(1, bits);
      assert v == Scaled(1, bits);
    } else {
      BitLengthAtLeast(v, bits);
      var shift := BitLength(v) - bits;
      MaskIsRemainder(v, shift, OneBit(shift));
      if v % OneBit(shift) == 0 {
        ExcessZeroRepresentable(v, bits, shift);
      }
      if Representable(v, bits) {
        var m: nat, e: nat :| m < OneBit(bits) && v == Scaled(m, e);
        RepresentableExcessZero(v, bits, shift, m, e);
      }
    }
  }

  /** Binary64: both tests accept exactly the integers it can hold. */
  lemma ExactIffRepresentable(v: I64, w: U64)
    ensures IsExact(w) <==> Representable(w, EXACT_INT_BITS)
    ensures IsExactSigned(v) <==> Representable(Abs(v), EXACT_INT_BITS)
  {
    ExactWithIffRepresentable(w, EXACT_INT_BITS);
    ExactWithIffRepresentable(Abs(v), EXACT_INT_BITS);
  }
}
