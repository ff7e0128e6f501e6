/**
 Which registry shards a write locks, and in which order: the bitmap of src/engine/shard_routing.rs.
 */
module ShardLocks {
  import opened Bits

  const SHARD_COUNT: nat := 64
  const WORD_BITS: nat := 64

  ghost predicate Ascending(s: seq<nat>) {
    forall i, j :: 0 <= i < j < |s| ==> s[i] < s[j]
  }

  /** `k` is one of the shards the rows hash to. */
  ghost predicate Required(hashes: seq<nat>, k: nat) {
    exists r :: 0 <= r < |hashes| && hashes[r] % SHARD_COUNT == k
  }

  /** The first loop: one bit per required shard. */
  method ShardBits(hashes: seq<nat>) returns (words: seq<nat>)
    ensures |words| == (SHARD_COUNT + WORD_BITS - 1) / WORD_BITS
    ensures forall w: nat, b: nat :: w < |words| && b < WORD_BITS ==>
              (Bit(words[w], b) <==> Required(hashes, w * WORD_BITS + b))
    ensures forall w, b: nat :: 0 <= w < |words| && b >= WORD_BITS ==> !Bit(words[w], b)
  {
    words := seq((SHARD_COUNT + WORD_BITS - 1) / WORD_BITS, _ => 0);
    forall b: nat ensures !Bit(0, b) {
      ZeroBits(b);
    }
    for r := 0 to |hashes|
      invariant |words| == 1
      invariant forall b: nat :: Bit(words[0], b) <==> Required(hashes[..r], b)
    {
      var shard := hashes[r] % SHARD_COUNT;
      var word, bit := shard / WORD_BITS, shard % WORD_BITS;
      forall b: nat ensures Bit(Or(words[0], OneBit(bit)), b) <==> Required(hashes[..r + 1], b) {
        OrBits(words[0], OneBit(bit), b);
        OneBitBits(bit, b);
        RequiredStep(hashes, r, b);
      }
      words := words[word := Or(words[word], OneBit(bit))];
    }
    assert hashes[..|hashes|] == hashes;
  }

  lemma RequiredStep(hashes: seq<nat>, r: nat, k: nat)
    requires r < |hashes|
    ensures Required(hashes[..r + 1], k) <==> Required(hashes[..r], k) || hashes[r] % SHARD_COUNT == k
  {
    if Required(hashes[..r], k) {
      var i :| 0 <= i < r && hashes[..r][i] % SHARD_COUNT == k;
      assert hashes[..r + 1][i] == hashes[i];
    }
    if hashes[r] % SHARD_COUNT == k {
      assert hashes[..r + 1][r] == hashes[r];
    }
    if Required(hashes[..r + 1], k) && hashes[r] % SHARD_COUNT != k {
      var i :| 0 <= i < r + 1 && hashes[..r + 1][i] % SHARD_COUNT == k;
      assert i < r && hashes[..r][i] == hashes[i];
    }
  }

  /** What the second loop has locked of one word: the digits below all remaining ones. */
  ghost predicate Taken(word: nat, remaining: nat, base: nat, before: seq<nat>, guards: seq<nat>) {
    && before <= guards && Ascending(guards)
    && (forall b: nat :: Bit(remaining, b) ==> Bit(word, b))
    && (forall b: nat, k :: Bit(remaining, b) && 0 <= k < |guards| ==> guards[k] < base + b)
    && (forall k :: |before| <= k < |guards| ==> base <= guards[k] && Bit(word, guards[k] - base))
    && (forall b: nat :: Bit(word, b) && !Bit(remaining, b) ==> base + b in guards)
  }

  lemma TakeDigit(word: nat, remaining: nat, rest: nat, low: nat, base: nat, before: seq<nat>, guards: seq<nat>)
    requires Taken(word, remaining, base, before, guards) && Bit(remaining, low)
    requires forall b: nat :: Bit(rest, b) <==> Bit(remaining, b) && b != low
    requires forall b: nat :: Bit(remaining, b) ==> b >= low
    ensures Taken(word, rest, base, before, guards + [base + low])
  {
    var after := guards + [base + low];
    forall b: nat, k | Bit(rest, b) && 0 <= k < |after| ensures after[k] < base + b {
      assert Bit(remaining, b);
    }
    forall b: nat | Bit(word, b) && !Bit(rest, b) ensures base + b in after {
      if b == low {
        assert after[|guards|] == base + b;
      }
    }
  }

  /** Taking the lowest remaining digit keeps the order and misses nothing. */
  lemma TakeLowest(word: nat, remaining: nat, base: nat, before: seq<nat>, guards: seq<nat>)
    requires remaining > 0 && Taken(word, remaining, base, before, guards)
    ensures Taken(word, And(remaining, remaining - 1), base, before, guards + [base + TrailingZeros(remaining)])
  {
    var low := TrailingZeros(remaining);
    TrailingZerosBits(remaining, low);
    forall b: nat
      ensures Bit(And(remaining, remaining - 1), b) <==> Bit(remaining, b) && b != low
      ensures Bit(remaining, b) ==> b >= low
    {
      ClearLowestBit(remaining, b);
      TrailingZerosBits(remaining, b);
    }
    TakeDigit(word, remaining, And(remaining, remaining - 1), low, base, before, guards);
  }

  method LockWord(word: nat, base: nat, before: seq<nat>) returns (guards: seq<nat>)
    requires Ascending(before) && forall k :: k in before ==> k < base
    ensures before <= guards && Ascending(guards)
    ensures forall k :: |before| <= k < |guards| ==> base <= guards[k] && Bit(word, guards[k] - base)
    ensures forall b: nat :: Bit(word, b) ==> base + b in guards
  {
    guards := before;
    var remaining := word;
    assert forall k :: 0 <= k < |before| ==> before[k] in before;
    while remaining != 0
      invariant Taken(word, remaining, base, before, guards)
      decreases remaining
    {
      TakeLowest(word, remaining, base, before, guards);
      AndSmaller(remaining, remaining - 1);
      guards := guards + [base + TrailingZeros(remaining)];
      remaining := And(remaining, remaining - 1);
    }
    forall b: nat | Bit(word, b) ensures base + b in guards {
      ZeroBits(b);
    }
  }

  /** `lock_write_shards_for_rows`: every required shard exactly once, in ascending order. */
  method LockWriteShards(hashes: seq<nat>) returns (guards: seq<nat>)
    ensures Ascending(guards)
    ensures forall k: nat :: k in guards <==> Required(hashes, k)
    ensures forall k :: k in guards ==> k < SHARD_COUNT
  {
    var words := ShardBits(hashes);
    guards := [];
    for w := 0 to |words|
      invariant Ascending(guards)
      invariant forall k: nat :: k in guards <==> Required(hashes, k) && k < w * WORD_BITS
    {
      var before := guards;
      guards := LockWord(words[w], w * WORD_BITS, before);
      forall k: nat ensures k in guards <==> Required(hashes, k) && k < (w + 1) * WORD_BITS {
        if k in guards && k !in before {
          var j :| 0 <= j < |guards| && guards[j] == k;
          assert Bit(words[w], k - w * WORD_BITS);
        }
        if Required(hashes, k) && w * WORD_BITS <= k < (w + 1) * WORD_BITS {
          assert Bit(words[w], k - w * WORD_BITS);
        }
      }
    }
    assert forall k: nat :: Required(hashes, k) ==> k < SHARD_COUNT;
  }
}
