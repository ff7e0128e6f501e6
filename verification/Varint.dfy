/**
 Variable-length and fixed-length integers of src/engine/encoder.rs and src/engine/binio.rs.
 The unsigned form is unsigned LEB128 (section 7.6 of DWARF 5); the signed form maps
 0, -1, 1, -2, ... to 0, 1, 2, 3, ... first.
 */
module Varint {
  import opened Common

  type Byte = b: int | 0 <= b < 256

  /** What a decoder reports, without its text. */
  datatype CodecError = DataCorruption

  /** A decoded value and the position just past it. */
  datatype Decoded<+T> = Decoded(value: T, pos: nat)

  function Pow128(k: nat): (p: nat)
    ensures p > 0
  {
    if k == 0 then 1 else 128 * Pow128(k - 1)
  }

  /** The seven low bits of `b` shifted to digit `k`. */
  function Digit(b: Byte, k: nat): nat {
    Shifted(b, Pow128(k))
  }

  /** `(b & 0x7F) << shift` for `scale` two to the shift. */
  function Shifted(b: Byte, scale: nat): nat {
    (b % 128) * scale
  }

  // ----- What the bytes denote -----

  /** The number a group of 7-bit digits denotes, least significant first. */
  function Leb(digits: seq<Byte>): nat {
    if digits == [] then 0 else digits[0] % 128 + 128 * Leb(digits[1..])
  }

  /** The bytes from `pos` up to and including the first one below 0x80 end at `end`. */
  ghost predicate EndsAt(bytes: seq<Byte>, pos: nat, end: nat) {
    && pos < end <= |bytes| && bytes[end - 1] < 128
    && forall i :: pos <= i < end - 1 ==> bytes[i] >= 128
  }

  lemma {:induction false} LebAppend(digits: seq<Byte>, b: Byte)
    ensures Leb(digits + [b]) == Leb(digits) + Digit(b, |digits|)
  {
    if digits == [] {
      assert [] + [b] == [b];
    } else {
      LebAppend(digits[1..], b);
      assert (digits + [b])[1..] == digits[1..] + [b];
      calc {
        Leb(digits + [b]);
        digits[0] % 128 + 128 * (Leb(digits[1..]) + (b % 128) * Pow128(|digits| - 1));
        Leb(digits) + 128 * ((b % 128) * Pow128(|digits| - 1));
        { MulRotate(b % 128, Pow128(|digits| - 1)); }
        Leb(digits) + (b % 128) * Pow128(|digits|);
      }
    }
  }

  lemma MulRotate(a: nat, p: nat)
    ensures 128 * (a * p) == a * (128 * p)
  {
  }

  lemma {:induction false} LebBound(digits: seq<Byte>)
    ensures Leb(digits) < Pow128(|digits|)
  {
    if digits != [] {
      LebBound(digits[1..]);
    }
  }

  // ----- Unsigned -----

  function Uvarint(value: nat): (bytes: seq<Byte>)
    ensures bytes != [] && EndsAt(bytes, 0, |bytes|) && Leb(bytes) == value
    decreases value
  {
    if value < 128 then [value]
    else
      var bytes := [value % 128 + 128] + Uvarint(value / 128);
      assert bytes[1..] == Uvarint(value / 128);
      bytes
  }

  /** `encode_uvarint` */
  method EncodeUvarint(value: U64, out: seq<Byte>) returns (result: seq<Byte>)
    ensures result == out + Uvarint(value)
    ensures |result| <= |out| + 10
  {
    var v: int := value;
    result := out;
    while v >= 0x80
      invariant 0 <= v <= value && result + Uvarint(v) == out + Uvarint(value)
      decreases v
    {
      UvarintStep(result, v);
      result := result + [v % 128 + 128];
      v := v / 128;
    }
    result := result + [v];
    Pow128Nine();
    UvarintLength(value, 9);
  }

  lemma UvarintStep(done: seq<Byte>, v: nat)
    requires v >= 128
    ensures done + Uvarint(v) == done + [v % 128 + 128] + Uvarint(v / 128)
  {
    assert Uvarint(v) == [v % 128 + 128] + Uvarint(v / 128);
  }

  lemma {:induction false} UvarintLength(value: nat, k: nat)
    requires value < 2 * Pow128(k)
    ensures |Uvarint(value)| <= k + 1
    decreases k
  {
    if value >= 128 {
      UvarintLength(value / 128, k - 1);
    }
  }

  /** The decoder accepts what ends within ten bytes and denotes a 64-bit number, and nothing else. */
  ghost predicate Acceptable(bytes: seq<Byte>, pos: nat, end: nat) {
    EndsAt(bytes, pos, end) && end - pos <= 10 && Leb(bytes[pos..end]) <= U64_MAX
  }

  function DecodeUvarintFrom(bytes: seq<Byte>, pos: nat, x: nat, k: nat): (r: Result<Decoded<nat>, CodecError>)
    requires k <= 10
    decreases 10 - k
  {
    if k == 10 then Err(DataCorruption)
    else if pos >= |bytes| then Err(DataCorruption)
    else if bytes[pos] < 128 then
      if k == 9 && bytes[pos] > 1 then Err(DataCorruption) else Ok(Decoded(x + Digit(bytes[pos], k), pos + 1))
    else DecodeUvarintFrom(bytes, pos + 1, x + Digit(bytes[pos], k), k + 1)
  }

  /** `decode_uvarint` from `pos`; `x` and the shift start at zero. */
  function DecodeUvarint(bytes: seq<Byte>, pos: nat): Result<Decoded<nat>, CodecError> {
    DecodeUvarintFrom(bytes, pos, 0, 0)
  }

  lemma Pow128Nine()
    ensures Pow128(9) == 0x8000_0000_0000_0000
  {
    assert Pow128(3) == 2097152;
    assert Pow128(6) == 4398046511104;
  }

  lemma TenDigits(x: nat, b: Byte)
    requires x < Pow128(9) && b < 128
    ensures x + Digit(b, 9) <= U64_MAX <==> b <= 1
  {
    Pow128Nine();
  }

  lemma EndBeyond(bytes: seq<Byte>, start: nat, pos: nat, end: nat)
    requires start <= pos <= |bytes| && EndsAt(bytes, start, end)
    requires forall i :: start <= i < pos ==> bytes[i] >= 128
    ensures end > pos
    ensures bytes[pos] < 128 ==> end == pos + 1
  {
    var last := bytes[end - 1];
    assert last < 128;
  }

  lemma MoreDigits(bytes: seq<Byte>, start: nat, pos: nat, k: nat)
    requires start + k == pos < |bytes|
    ensures Leb(bytes[start..pos + 1]) == Leb(bytes[start..pos]) + Digit(bytes[pos], k)
  {
    assert bytes[start..pos + 1] == bytes[start..pos] + [bytes[pos]];
    LebAppend(bytes[start..pos], bytes[pos]);
  }

  /** The last byte: the digits read so far end here, in a number of 64 bits or one too large. */
  lemma LastDigit(bytes: seq<Byte>, start: nat, pos: nat, x: nat, k: nat)
    requires k < 10 && start + k == pos < |bytes| && bytes[pos] < 128
    requires forall i :: start <= i < pos ==> bytes[i] >= 128
    requires x == Leb(bytes[start..pos])
    ensures Leb(bytes[start..pos + 1]) == x + Digit(bytes[pos], k)
    ensures Acceptable(bytes, start, pos + 1) <==> !(k == 9 && bytes[pos] > 1)
  {
    assert bytes[start..pos + 1] == bytes[start..pos] + [bytes[pos]];
    LebAppend(bytes[start..pos], bytes[pos]);
    LebBound(bytes[start..pos]);
    if k == 9 {
      TenDigits(x, bytes[pos]);
    } else {
      BelowNine(x, bytes[pos], k);
    }
  }

  /** One more byte: what has been read from `start` up to `pos` has digits `x`. */
  lemma {:induction false} DecodeUvarintSpec(bytes: seq<Byte>, start: nat, pos: nat, x: nat, k: nat)
    requires k <= 10 && start + k == pos && pos <= |bytes|
    requires forall i :: start <= i < pos ==> bytes[i] >= 128
    requires x == Leb(bytes[start..pos])
    ensures
      var r := DecodeUvarintFrom(bytes, pos, x, k);
      && (r.Ok? ==> Acceptable(bytes, start, r.value.pos) && r.value.value == Leb(bytes[start..r.value.pos]))
      && (r.Err? ==> forall end: nat :: !Acceptable(bytes, start, end))
    decreases 10 - k
  {
    if k < 10 && pos < |bytes| && bytes[pos] >= 128 {
      MoreDigits(bytes, start, pos, k);
      DecodeUvarintSpec(bytes, start, pos + 1, x + Digit(bytes[pos], k), k + 1);
    } else {
      DecodeUvarintStops(bytes, start, pos, x, k);
    }
  }

  lemma DecodeUvarintStops(bytes: seq<Byte>, start: nat, pos: nat, x: nat, k: nat)
    requires k <= 10 && start + k == pos && pos <= |bytes|
    requires forall i :: start <= i < pos ==> bytes[i] >= 128
    requires x == Leb(bytes[start..pos])
    requires k == 10 || pos == |bytes| || bytes[pos] < 128
    ensures
      var r := DecodeUvarintFrom(bytes, pos, x, k);
      && (r.Ok? ==> Acceptable(bytes, start, r.value.pos) && r.value.value == Leb(bytes[start..r.value.pos]))
      && (r.Err? ==> forall end: nat :: !Acceptable(bytes, start, end))
  {
    if k < 10 && pos < |bytes| {
      LastDigit(bytes, start, pos, x, k);
    }
    forall end: nat | Acceptable(bytes, start, end) ensures k < 10 && pos < |bytes| && end == pos + 1 {
      EndBeyond(bytes, start, pos, end);
    }
  }

  lemma {:induction false} Pow128Monotone(j: nat, k: nat)
    requires j <= k
    ensures Pow128(j) <= Pow128(k)
    decreases k
  {
    if j < k {
      Pow128Monotone(j, k - 1);
    }
  }

  lemma BelowNine(x: nat, b: Byte, k: nat)
    requires k < 9 && x < Pow128(k) && b < 128
    ensures x + Digit(b, k) <= U64_MAX
  {
    Pow128Monotone(k + 1, 9);
    Pow128Nine();
    DigitBelow(x, b, Pow128(k));
  }

  lemma DigitBelow(x: nat, b: nat, p: nat)
    requires x < p && b < 128
    ensures x + b * p < 128 * p
  {
    assert b * p <= 127 * p;
  }

  /**
   Decoding succeeds exactly on a terminated group of at most ten bytes that denotes a number of
   64 bits; it returns that number and stops right after the group.
   */
  lemma DecodeUvarintExact(bytes: seq<Byte>, pos: nat)
    ensures
      var r := DecodeUvarint(bytes, pos);
      && (r.Ok? <==> exists end: nat :: Acceptable(bytes, pos, end))
      && (forall end: nat :: Acceptable(bytes, pos, end) ==> r == Ok(Decoded(Leb(bytes[pos..end]), end)))
  {
    if pos > |bytes| {
      return;
    }
    assert bytes[pos..pos] == [];
    DecodeUvarintSpec(bytes, pos, pos, 0, 0);
    var r := DecodeUvarint(bytes, pos);
    forall end: nat | Acceptable(bytes, pos, end) ensures r == Ok(Decoded(Leb(bytes[pos..end]), end)) {
      EndBeyond(bytes, pos, r.value.pos - 1, end);
    }
  }

  /** Every 64-bit number is read back from its encoding, whatever precedes and follows it. */
  lemma UvarintRoundTrip(before: seq<Byte>, value: U64, after: seq<Byte>)
    ensures DecodeUvarint(before + Uvarint(value) + after, |before|)
         == Ok(Decoded(value, |before| + |Uvarint(value)|))
  {
    var bytes := before + Uvarint(value) + after;
    var end := |before| + |Uvarint(value)|;
    assert bytes[|before|..end] == Uvarint(value);
    Pow128Nine();
    UvarintLength(value, 9);
    forall i | |before| <= i < end ensures bytes[i] == Uvarint(value)[i - |before|] {
    }
    assert Acceptable(bytes, |before|, end);
    DecodeUvarintExact(bytes, |before|);
  }

  /** `decode_uvarint`: the loop over the buffer and its position. */
  method ReadUvarint(bytes: seq<Byte>, start: nat) returns (r: Result<Decoded<nat>, CodecError>)
    requires start <= |bytes|
    ensures r == DecodeUvarint(bytes, start)
  {
    var x: nat, shift: nat, pos: nat, scale: nat := 0, 0, start, 1;
    ghost var k := 0;
    while shift <= 63
      invariant k <= 10 && shift == 7 * k && scale == Pow128(k)
      invariant DecodeUvarint(bytes, start) == DecodeUvarintFrom(bytes, pos, x, k)
      decreases 10 - k
    {
      if pos >= |bytes| {
        return Err(DataCorruption);
      }
      var b := bytes[pos];
      pos := pos + 1;
      if b < 0x80 {
        if shift == 63 && b > 1 {
          return Err(DataCorruption);
        }
        return Ok(Decoded(x + Shifted(b, scale), pos));
      }
      x := x + Shifted(b, scale);
      shift, scale := shift + 7, 128 * scale;
      k := k + 1;
    }
    return Err(DataCorruption);
  }

  // ----- Signed -----

  /** `((value as u64) << 1) ^ ((value >> 63) as u64)` on 64-bit words. */
  function Zigzag(value: I64): (z: U64) {
    var shifted := (2 * value) % 0x1_0000_0000_0000_0000;
    if value < 0 then U64_MAX - shifted else shifted
  }

  /** `((zigzag >> 1) as i64) ^ (-((zigzag & 1) as i64))` */
  function Unzigzag(z: U64): (value: I64) {
    var half := z / 2;
    if z % 2 == 0 then half else -half - 1
  }

  lemma ZigzagRoundTrip(value: I64)
    ensures Unzigzag(Zigzag(value)) == value
    ensures Zigzag(value) == if value < 0 then -2 * value - 1 else 2 * value
  {
    if value < 0 {
      assert 2 * value + 0x1_0000_0000_0000_0000 == (2 * value) % 0x1_0000_0000_0000_0000;
    }
  }

  function Svarint(value: I64): seq<Byte> {
    Uvarint(Zigzag(value))
  }

  /** `decode_svarint` */
  function DecodeSvarint(bytes: seq<Byte>, pos: nat): (r: Result<Decoded<I64>, CodecError>)
    ensures r.Ok? ==> pos < r.value.pos <= |bytes|
  {
    var z :- DecodeUvarint(bytes, pos);
    DecodeUvarintExact(bytes, pos);
    Ok(Decoded(Unzigzag(z.value), z.pos))
  }

  lemma SvarintRoundTrip(before: seq<Byte>, value: I64, after: seq<Byte>)
    ensures DecodeSvarint(before + Svarint(value) + after, |before|) == Ok(Decoded(value, |before| + |Svarint(value)|))
  {
    UvarintRoundTrip(before, Zigzag(value), after);
    ZigzagRoundTrip(value);
  }

  // ----- Little-endian 64-bit words -----

  function LeBytes(u: nat, n: nat): (bytes: seq<Byte>)
    ensures |bytes| == n
  {
    if n == 0 then [] else [u % 256] + LeBytes(u / 256, n - 1)
  }

  function FromLe(bytes: seq<Byte>): nat {
    if bytes == [] then 0 else bytes[0] + 256 * FromLe(bytes[1..])
  }

  function Pow256(n: nat): nat {
    if n == 0 then 1 else 256 * Pow256(n - 1)
  }

  lemma {:induction false} FromLeBound(bytes: seq<Byte>)
    ensures FromLe(bytes) < Pow256(|bytes|)
  {
    if bytes != [] {
      FromLeBound(bytes[1..]);
    }
  }

  lemma {:induction false} LeRoundTrip(u: nat, n: nat)
    requires u < Pow256(n)
    ensures FromLe(LeBytes(u, n)) == u
  {
    if n > 0 {
      assert u / 256 < Pow256(n - 1);
      LeRoundTrip(u / 256, n - 1);
      assert LeBytes(u, n)[1..] == LeBytes(u / 256, n - 1);
    }
  }

  lemma Pow256Eight()
    ensures Pow256(8) == 0x1_0000_0000_0000_0000
  {
    assert Pow256(4) == 0x1_0000_0000;
  }

  /** `to_le_bytes` of an i64, by its two's-complement word. */
  function I64Bytes(value: I64): (bytes: seq<Byte>)
    ensures |bytes| == 8
  {
    LeBytes(if value < 0 then value + 0x1_0000_0000_0000_0000 else value, 8)
  }

  /** `read_i64` */
  function ReadI64(bytes: seq<Byte>, pos: nat): (r: Result<Decoded<I64>, CodecError>)
    ensures r.Ok? <==> pos + 8 <= |bytes|
    ensures r.Ok? ==> r.value.pos == pos + 8
  {
    if pos + 8 > |bytes| then Err(DataCorruption)
    else
      var u := FromLe(bytes[pos..pos + 8]);
      FromLeBound(bytes[pos..pos + 8]);
      Pow256Eight();
      Ok(Decoded(if u > I64_MAX then u - 0x1_0000_0000_0000_0000 else u, pos + 8))
  }

  lemma I64RoundTrip(before: seq<Byte>, value: I64, after: seq<Byte>)
    ensures ReadI64(before + I64Bytes(value) + after, |before|) == Ok(Decoded(value, |before| + 8))
  {
    var bytes := before + I64Bytes(value) + after;
    assert bytes[|before|..|before| + 8] == I64Bytes(value);
    Pow256Eight();
    LeRoundTrip(if value < 0 then value + 0x1_0000_0000_0000_0000 else value, 8);
  }
}
