/**
 Finite literal sets of a regular expression, src/query_matcher.rs: when the syntax tree of a
 matcher denotes finitely many strings, they are listed so that matching becomes a set lookup.
 Text is a sequence of bytes.
 */
module RegexLiterals {
  import opened Common

  type Text = seq<nat>

  const LITERAL_SET_LIMIT: nat := 64
  const MAX_REPEATS: nat := 8

  /** The syntax tree. A class is the set of its one-byte matches; assertions match no text of their own. */
  datatype Hir =
    | Empty
    | Literal(bytes: Text, isUtf8: bool)
    | Class(members: set<nat>)
    | Look
    | Capture(sub: Hir)
    | Concat(parts: seq<Hir>)
    | Alternation(parts: seq<Hir>)
    | Repetition(sub: Hir, min: nat, max: Option<nat>)

  // ----- The language of a tree -----

  /** `s` as a whole matches `h`. */
  ghost predicate Matches(h: Hir, s: Text)
    decreases h, 0
  {
    match h
    case Empty => s == []
    case Literal(bytes, _) => s == bytes
    case Class(members) => |s| == 1 && s[0] in members
    case Look => s == []
    case Capture(sub) => Matches(sub, s)
    case Concat(parts) => MatchesConcat(parts, s)
    case Alternation(parts) => exists i :: 0 <= i < |parts| && Matches(parts[i], s)
    case Repetition(sub, min, max) =>
      if max.Some? then RepeatsBetween(sub, min, max.value + 1, s) else exists n: nat :: min <= n && Repeats(sub, n, s)
  }

  ghost predicate RepeatsBetween(h: Hir, min: nat, end: nat, s: Text)
    decreases h, end + 2
  {
    exists n: nat :: min <= n < end && Repeats(h, n, s)
  }

  ghost predicate MatchesConcat(parts: seq<Hir>, s: Text)
    decreases parts, 0
  {
    if parts == [] then s == []
    else exists k :: 0 <= k <= |s| && MatchesConcat(parts[..|parts| - 1], s[..k]) && Matches(parts[|parts| - 1], s[k..])
  }

  ghost predicate Repeats(h: Hir, n: nat, s: Text)
    decreases h, n + 1
  {
    if n == 0 then s == [] else exists k :: 0 <= k <= |s| && Repeats(h, n - 1, s[..k]) && Matches(h, s[k..])
  }

  // ----- Extraction -----

  function Row(prefix: Text, suffixes: seq<Text>): seq<Text> {
    seq(|suffixes|, i requires 0 <= i < |suffixes| => prefix + suffixes[i])
  }

  function Cross(prefixes: seq<Text>, suffixes: seq<Text>): seq<Text> {
    if prefixes == [] then [] else Cross(prefixes[..|prefixes| - 1], suffixes) + Row(prefixes[|prefixes| - 1], suffixes)
  }

  /** `literal_cross_product` */
  function CrossProduct(prefixes: seq<Text>, suffixes: seq<Text>, limit: nat): Option<seq<Text>> {
    if prefixes == [] || suffixes == [] then Some([])
    else if |prefixes| * |suffixes| > limit then None
    else Some(Cross(prefixes, suffixes))
  }

  function Insert(sorted: seq<Text>, v: Text): seq<Text> {
    if sorted == [] then [v]
    else if v == sorted[0] then sorted
    else if TextLess(v, sorted[0]) then [v] + sorted
    else [sorted[0]] + Insert(sorted[1..], v)
  }

  /** `sort` and `dedup` */
  function SortDedup(values: seq<Text>): seq<Text> {
    if values == [] then [] else Insert(SortDedup(values[..|values| - 1]), values[|values| - 1])
  }

  /** `finite_literal_values_from_hir` */
  function Extract(h: Hir, limit: nat): Option<seq<Text>>
    decreases h, 0
  {
    match h
    case Empty => Some([[]])
    case Literal(bytes, isUtf8) => if isUtf8 then Some([bytes]) else None
    case Class(_) => None
    case Look => None
    case Capture(sub) => Extract(sub, limit)
    case Concat(parts) => ExtractConcat(parts, limit)
    case Alternation(parts) =>
      var all := ExtractAll(parts, limit);
      if all.None? then None else Deduped(all.value, limit)
    case Repetition(sub, min, max) =>
      if max.None? || max.value > MAX_REPEATS then None
      else
        var values := Extract(sub, limit);
        if values.None? then None
        else
          var all := RepeatBetween(values.value, min, max.value + 1, limit);
          if all.None? then None else Deduped(all.value, limit)
  }

  function Deduped(values: seq<Text>, limit: nat): Option<seq<Text>> {
    var deduped := SortDedup(values);
    if |deduped| <= limit then Some(deduped) else None
  }

  /** The loop over the parts of a concatenation. */
  function ExtractConcat(parts: seq<Hir>, limit: nat): Option<seq<Text>>
    decreases parts, 0
  {
    if parts == [] then Some([[]])
    else
      var before := ExtractConcat(parts[..|parts| - 1], limit);
      if before.None? then None
      else
        var values := Extract(parts[|parts| - 1], limit);
        if values.None? then None else CrossProduct(before.value, values.value, limit)
  }

  /** The loop over the branches of an alternation. */
  function ExtractAll(parts: seq<Hir>, limit: nat): Option<seq<Text>>
    decreases parts, 0
  {
    if parts == [] then Some([])
    else
      var before := ExtractAll(parts[..|parts| - 1], limit);
      if before.None? then None
      else
        var values := Extract(parts[|parts| - 1], limit);
        if values.None? || |before.value| + |values.value| > limit then None else Some(before.value + values.value)
  }

  /** The values repeated exactly `n` times. */
  function RepeatTimes(values: seq<Text>, n: nat, limit: nat): Option<seq<Text>> {
    if n == 0 then Some([[]])
    else
      var before := RepeatTimes(values, n - 1, limit);
      if before.None? then None else CrossProduct(before.value, values, limit)
  }

  /** The values repeated `min` to `end - 1` times. */
  function RepeatBetween(values: seq<Text>, min: nat, end: nat, limit: nat): Option<seq<Text>>
    decreases end
  {
    if end <= min then Some([])
    else
      var before := RepeatBetween(values, min, end - 1, limit);
      var repeated := RepeatTimes(values, end - 1, limit);
      if before.None? || repeated.None? || |before.value| + |repeated.value| > limit then None
      else Some(before.value + repeated.value)
  }

  /** `extract_finite_literal_values`, from the parsed pattern on. */
  function FiniteLiterals(h: Hir): Option<seq<Text>> {
    var values := Extract(h, LITERAL_SET_LIMIT);
    if values.None? then None
    else
      var deduped := SortDedup(values.value);
      if deduped != [] && |deduped| <= LITERAL_SET_LIMIT then Some(deduped) else None
  }

  // ----- The list is the language -----

  lemma {:induction false} CrossMembers(prefixes: seq<Text>, suffixes: seq<Text>, s: Text)
    ensures s in Cross(prefixes, suffixes) <==> exists k :: 0 <= k <= |s| && s[..k] in prefixes && s[k..] in suffixes
    decreases |prefixes|
  {
    if prefixes != [] {
      var front, last := prefixes[..|prefixes| - 1], prefixes[|prefixes| - 1];
      CrossMembers(front, suffixes, s);
      RowMembers(last, suffixes, s);
      assert prefixes == front + [last];
    }
  }

  lemma RowMembers(prefix: Text, suffixes: seq<Text>, s: Text)
    ensures s in Row(prefix, suffixes) <==> prefix <= s && s[|prefix|..] in suffixes
  {
    if s in Row(prefix, suffixes) {
      var i :| 0 <= i < |suffixes| && Row(prefix, suffixes)[i] == s;
      assert s[|prefix|..] == suffixes[i];
    }
    if prefix <= s && s[|prefix|..] in suffixes {
      var i :| 0 <= i < |suffixes| && suffixes[i] == s[|prefix|..];
      assert Row(prefix, suffixes)[i] == s;
    }
  }

  lemma {:induction false} CrossSize(prefixes: seq<Text>, suffixes: seq<Text>)
    ensures |Cross(prefixes, suffixes)| == |prefixes| * |suffixes|
    decreases |prefixes|
  {
    if prefixes != [] {
      CrossSize(prefixes[..|prefixes| - 1], suffixes);
      assert |prefixes| * |suffixes| == (|prefixes| - 1) * |suffixes| + |suffixes|;
    }
  }

  lemma CrossProductExact(prefixes: seq<Text>, suffixes: seq<Text>, limit: nat, s: Text)
    requires CrossProduct(prefixes, suffixes, limit).Some?
    ensures
      var r := CrossProduct(prefixes, suffixes, limit).value;
      && |r| <= limit
      && (s in r <==> exists k :: 0 <= k <= |s| && s[..k] in prefixes && s[k..] in suffixes)
  {
    CrossMembers(prefixes, suffixes, s);
    CrossSize(prefixes, suffixes);
  }

  lemma {:induction false} InsertMembers(sorted: seq<Text>, v: Text, s: Text)
    ensures s in Insert(sorted, v) <==> s == v || s in sorted
    ensures |Insert(sorted, v)| <= |sorted| + 1
    decreases |sorted|
  {
    if sorted != [] {
      InsertMembers(sorted[1..], v, s);
      assert sorted == [sorted[0]] + sorted[1..];
    }
  }

  lemma {:induction false} SortDedupMembers(values: seq<Text>, s: Text)
    ensures s in SortDedup(values) <==> s in values
    ensures |SortDedup(values)| <= |values|
    decreases |values|
  {
    if values != [] {
      var front, last := values[..|values| - 1], values[|values| - 1];
      SortDedupMembers(front, s);
      InsertMembers(SortDedup(front), last, s);
      assert values == front + [last];
    }
  }

  /** Whatever extraction returns is exactly the language of the tree, in at most `limit` strings. */
  lemma {:induction false} ExtractExact(h: Hir, limit: nat, s: Text)
    requires limit >= 1 && Extract(h, limit).Some?
    ensures |Extract(h, limit).value| <= limit
    ensures s in Extract(h, limit).value <==> Matches(h, s)
    decreases h, 0
  {
    match h
    case Empty =>
    case Literal(_, _) =>
    case Class(_) =>
    case Look =>
    case Capture(sub) => ExtractExact(sub, limit, s);
    case Concat(parts) => ConcatExact(parts, limit, s);
    case Alternation(parts) =>
      AlternationExact(parts, limit, s);
      SortDedupMembers(ExtractAll(parts, limit).value, s);
    case Repetition(sub, min, max) =>
      var values := Extract(sub, limit).value;
      RepeatBetweenExact(sub, values, min, max.value + 1, limit, s);
      SortDedupMembers(RepeatBetween(values, min, max.value + 1, limit).value, s);
  }

  lemma {:induction false} ConcatExact(parts: seq<Hir>, limit: nat, s: Text)
    requires limit >= 1 && ExtractConcat(parts, limit).Some?
    ensures |ExtractConcat(parts, limit).value| <= limit
    ensures s in ExtractConcat(parts, limit).value <==> MatchesConcat(parts, s)
    decreases parts, 0
  {
    if parts != [] {
      var front, last := parts[..|parts| - 1], parts[|parts| - 1];
      var before, values := ExtractConcat(front, limit).value, Extract(last, limit).value;
      CrossProductExact(before, values, limit, s);
      forall k | 0 <= k <= |s|
        ensures s[..k] in before <==> MatchesConcat(front, s[..k])
        ensures s[k..] in values <==> Matches(last, s[k..])
      {
        ConcatExact(front, limit, s[..k]);
        ExtractExact(last, limit, s[k..]);
      }
    }
  }

  lemma {:induction false} AlternationExact(parts: seq<Hir>, limit: nat, s: Text)
    requires limit >= 1 && ExtractAll(parts, limit).Some?
    ensures |ExtractAll(parts, limit).value| <= limit
    ensures s in ExtractAll(parts, limit).value <==> exists i :: 0 <= i < |parts| && Matches(parts[i], s)
    decreases parts, 0
  {
    if parts != [] {
      var front, last := parts[..|parts| - 1], parts[|parts| - 1];
      AlternationExact(front, limit, s);
      ExtractExact(last, limit, s);
      assert forall i :: 0 <= i < |front| ==> front[i] == parts[i];
    }
  }

  lemma {:induction false} RepeatTimesExact(sub: Hir, values: seq<Text>, n: nat, limit: nat, s: Text)
    requires limit >= 1 && Extract(sub, limit) == Some(values) && RepeatTimes(values, n, limit).Some?
    ensures |RepeatTimes(values, n, limit).value| <= limit
    ensures s in RepeatTimes(values, n, limit).value <==> Repeats(sub, n, s)
    decreases sub, n + 1
  {
    if n > 0 {
      var before := RepeatTimes(values, n - 1, limit).value;
      CrossProductExact(before, values, limit, s);
      forall k | 0 <= k <= |s|
        ensures s[..k] in before <==> Repeats(sub, n - 1, s[..k])
        ensures s[k..] in values <==> Matches(sub, s[k..])
      {
        RepeatTimesExact(sub, values, n - 1, limit, s[..k]);
        ExtractExact(sub, limit, s[k..]);
      }
    }
  }

  lemma {:induction false} RepeatBetweenExact(sub: Hir, values: seq<Text>, min: nat, end: nat, limit: nat, s: Text)
    requires limit >= 1 && Extract(sub, limit) == Some(values) && RepeatBetween(values, min, end, limit).Some?
    ensures |RepeatBetween(values, min, end, limit).value| <= limit
    ensures s in RepeatBetween(values, min, end, limit).value <==> RepeatsBetween(sub, min, end, s)
    decreases sub, end + 10
  {
    if min < end {
      RepeatBetweenExact(sub, values, min, end - 1, limit, s);
      RepeatTimesExact(sub, values, end - 1, limit, s);
    }
  }

  /** Looking a string up in the extracted set is the same as matching it. */
  lemma FiniteLiteralsExact(h: Hir, s: Text)
    requires FiniteLiterals(h).Some?
    ensures 1 <= |FiniteLiterals(h).value| <= LITERAL_SET_LIMIT
    ensures s in FiniteLiterals(h).value <==> Matches(h, s)
  {
    ExtractExact(h, LITERAL_SET_LIMIT, s);
    SortDedupMembers(Extract(h, LITERAL_SET_LIMIT).value, s);
  }

  // ----- When extraction succeeds -----

  /**
   How many strings a tree can yield, counting every combination and at least one per factor;
   nothing for what is not finite or repeats too often.
   */
  ghost function Combinations(h: Hir): Option<nat>
    decreases h, 0
  {
    match h
    case Empty => Some(1)
    case Literal(_, isUtf8) => if isUtf8 then Some(1) else None
    case Class(_) => None
    case Look => None
    case Capture(sub) => Combinations(sub)
    case Concat(parts) => CombinationsOf(parts, true)
    case Alternation(parts) => CombinationsOf(parts, false)
    case Repetition(sub, min, max) =>
      if max.None? || max.value > MAX_REPEATS || Combinations(sub).None? then None
      else Some(Max(Combinations(sub).value, PowerSum(Max(Combinations(sub).value, 1), min, max.value + 1)))
  }

  ghost function CombinationsOf(parts: seq<Hir>, product: bool): Option<nat>
    decreases parts, 0
  {
    if parts == [] then Some(if product then 1 else 0)
    else
      var before, last := CombinationsOf(parts[..|parts| - 1], product), Combinations(parts[|parts| - 1]);
      if before.None? || last.None? then None
      else Some(if product then before.value * Max(last.value, 1) else before.value + last.value)
  }

  ghost function Power(base: nat, n: nat): nat {
    if n == 0 then 1 else Power(base, n - 1) * base
  }

  ghost function PowerSum(base: nat, min: nat, end: nat): nat
    decreases end
  {
    if end <= min then 0 else PowerSum(base, min, end - 1) + Power(base, end - 1)
  }

  lemma CrossProductFits(prefixes: seq<Text>, suffixes: seq<Text>, p: nat, q: nat, limit: nat)
    requires |prefixes| <= p && |suffixes| <= q && p * Max(q, 1) <= limit
    ensures CrossProduct(prefixes, suffixes, limit).Some?
    ensures |CrossProduct(prefixes, suffixes, limit).value| <= p * Max(q, 1)
  {
    assert |prefixes| * |suffixes| <= p * Max(q, 1) by {
      MulMonotone(|prefixes|, p, |suffixes|, Max(q, 1));
    }
    CrossSize(prefixes, suffixes);
  }

  /** A tree with at most `limit` combinations is always extracted. */
  lemma {:induction false} ExtractSucceeds(h: Hir, limit: nat)
    requires Combinations(h).Some? && Combinations(h).value <= limit
    ensures Extract(h, limit).Some? && |Extract(h, limit).value| <= Combinations(h).value
    decreases h, 0
  {
    match h
    case Empty =>
    case Literal(_, _) =>
    case Class(_) =>
    case Look =>
    case Capture(sub) => ExtractSucceeds(sub, limit);
    case Concat(parts) => ConcatSucceeds(parts, limit);
    case Alternation(parts) =>
      AlternationSucceeds(parts, limit);
      SortDedupMembers(ExtractAll(parts, limit).value, []);
    case Repetition(sub, min, max) => RepetitionSucceeds(sub, min, max.value, limit);
  }

  lemma {:induction false} ConcatSucceeds(parts: seq<Hir>, limit: nat)
    requires CombinationsOf(parts, true).Some? && CombinationsOf(parts, true).value <= limit
    ensures ExtractConcat(parts, limit).Some? && |ExtractConcat(parts, limit).value| <= CombinationsOf(parts, true).value
    ensures CombinationsOf(parts, true).value >= 1
    decreases parts, 0
  {
    if parts != [] {
      var front, last := parts[..|parts| - 1], parts[|parts| - 1];
      var p, q := CombinationsOf(front, true).value, Combinations(last).value;
      ProductPositive(front);
      assert p <= p * Max(q, 1) && q <= p * Max(q, 1) by {
        MulMonotone(p, p, 1, Max(q, 1));
        MulMonotone(1, p, Max(q, 1), Max(q, 1));
      }
      ConcatSucceeds(front, limit);
      ExtractSucceeds(last, limit);
      CrossProductFits(ExtractConcat(front, limit).value, Extract(last, limit).value, p, q, limit);
      ProductPositive(parts);
    }
  }

  lemma {:induction false} ProductPositive(parts: seq<Hir>)
    requires CombinationsOf(parts, true).Some?
    ensures CombinationsOf(parts, true).value >= 1
    decreases |parts|
  {
    if parts != [] {
      ProductPositive(parts[..|parts| - 1]);
      MulMonotone(1, CombinationsOf(parts[..|parts| - 1], true).value, 1, Max(Combinations(parts[|parts| - 1]).value, 1));
    }
  }

  lemma {:induction false} AlternationSucceeds(parts: seq<Hir>, limit: nat)
    requires CombinationsOf(parts, false).Some? && CombinationsOf(parts, false).value <= limit
    ensures ExtractAll(parts, limit).Some? && |ExtractAll(parts, limit).value| <= CombinationsOf(parts, false).value
    decreases parts, 0
  {
    if parts != [] {
      AlternationSucceeds(parts[..|parts| - 1], limit);
      ExtractSucceeds(parts[|parts| - 1], limit);
    }
  }

  lemma {:induction false} PowerGrows(base: nat, n: nat)
    requires base >= 1
    ensures Power(base, n) >= 1 && Power(base, n) <= Power(base, n) * base
    ensures n >= 1 ==> base <= Power(base, n)
    decreases n
  {
    if n > 0 {
      PowerGrows(base, n - 1);
      MulMonotone(1, Power(base, n - 1), base, base);
    }
    MulMonotone(Power(base, n), Power(base, n), 1, base);
  }

  lemma {:induction false} RepeatTimesSucceeds(values: seq<Text>, base: nat, n: nat, limit: nat)
    requires |values| <= base && base >= 1 && Power(base, n) <= limit
    ensures RepeatTimes(values, n, limit).Some? && |RepeatTimes(values, n, limit).value| <= Power(base, n)
    decreases n
  {
    if n > 0 {
      PowerGrows(base, n - 1);
      RepeatTimesSucceeds(values, base, n - 1, limit);
      CrossProductFits(RepeatTimes(values, n - 1, limit).value, values, Power(base, n - 1), base, limit);
    }
  }

  lemma {:induction false} RepeatBetweenSucceeds(values: seq<Text>, base: nat, min: nat, end: nat, limit: nat)
    requires |values| <= base && base >= 1 && PowerSum(base, min, end) <= limit
    ensures RepeatBetween(values, min, end, limit).Some?
    ensures |RepeatBetween(values, min, end, limit).value| <= PowerSum(base, min, end)
    decreases end
  {
    if min < end {
      RepeatBetweenSucceeds(values, base, min, end - 1, limit);
      RepeatTimesSucceeds(values, base, end - 1, limit);
    }
  }

  lemma RepetitionSucceeds(sub: Hir, min: nat, max: nat, limit: nat)
    requires Combinations(Repetition(sub, min, Some(max))).Some?
    requires Combinations(Repetition(sub, min, Some(max))).value <= limit
    ensures Extract(Repetition(sub, min, Some(max)), limit).Some?
    ensures |Extract(Repetition(sub, min, Some(max)), limit).value| <= Combinations(Repetition(sub, min, Some(max))).value
    decreases sub, 1
  {
    ExtractSucceeds(sub, limit);
    var values, base := Extract(sub, limit).value, Max(Combinations(sub).value, 1);
    RepeatBetweenSucceeds(values, base, min, max + 1, limit);
    SortDedupMembers(RepeatBetween(values, min, max + 1, limit).value, []);
  }

  // ----- The loops -----

  /** `literal_cross_product`: the nested loops. */
  method LiteralCrossProduct(prefixes: seq<Text>, suffixes: seq<Text>, limit: nat) returns (r: Option<seq<Text>>)
    ensures r == CrossProduct(prefixes, suffixes, limit)
  {
    if prefixes == [] || suffixes == [] {
      return Some([]);
    }
    if |prefixes| * |suffixes| > limit {
      return None;
    }
    var combined := [];
    for i := 0 to |prefixes|
      invariant combined == Cross(prefixes[..i], suffixes)
    {
      ghost var before := combined;
      for j := 0 to |suffixes|
        invariant combined == before + Row(prefixes[i], suffixes)[..j]
      {
        combined := combined + [prefixes[i] + suffixes[j]];
        assert Row(prefixes[i], suffixes)[..j + 1] == Row(prefixes[i], suffixes)[..j] + [prefixes[i] + suffixes[j]];
      }
      assert Row(prefixes[i], suffixes)[..|suffixes|] == Row(prefixes[i], suffixes);
      assert prefixes[..i + 1][..i] == prefixes[..i];
    }
    assert prefixes[..|prefixes|] == prefixes;
    return Some(combined);
  }

  lemma {:induction false} ConcatStuck(parts: seq<Hir>, k: nat, limit: nat)
    requires k <= |parts| && ExtractConcat(parts[..k], limit).None?
    ensures ExtractConcat(parts, limit).None?
    decreases |parts| - k
  {
    if k == |parts| {
      assert parts[..k] == parts;
    } else {
      assert parts[..k + 1][..k] == parts[..k];
      ConcatStuck(parts, k + 1, limit);
    }
  }

  lemma {:induction false} AlternationStuck(parts: seq<Hir>, k: nat, limit: nat)
    requires k <= |parts| && ExtractAll(parts[..k], limit).None?
    ensures ExtractAll(parts, limit).None?
    decreases |parts| - k
  {
    if k == |parts| {
      assert parts[..k] == parts;
    } else {
      assert parts[..k + 1][..k] == parts[..k];
      AlternationStuck(parts, k + 1, limit);
    }
  }

  method ConcatValues(parts: seq<Hir>, limit: nat) returns (r: Option<seq<Text>>)
    ensures r == ExtractConcat(parts, limit)
    decreases parts, 0
  {
    r := Some([[]]);
    for k := 0 to |parts|
      invariant r.Some? && r == ExtractConcat(parts[..k], limit)
    {
      assert parts[..k + 1][..k] == parts[..k];
      var values := FiniteLiteralValues(parts[k], limit);
      if values.None? {
        ConcatStuck(parts, k + 1, limit);
        return None;
      }
      r := LiteralCrossProduct(r.value, values.value, limit);
      if r.None? {
        ConcatStuck(parts, k + 1, limit);
        return None;
      }
    }
    assert parts[..|parts|] == parts;
  }

  method AlternationValues(parts: seq<Hir>, limit: nat) returns (r: Option<seq<Text>>)
    ensures r == ExtractAll(parts, limit)
    decreases parts, 0
  {
    var combined: seq<Text> := [];
    for k := 0 to |parts|
      invariant ExtractAll(parts[..k], limit) == Some(combined)
    {
      assert parts[..k + 1][..k] == parts[..k];
      var values := FiniteLiteralValues(parts[k], limit);
      if values.None? || |combined| + |values.value| > limit {
        AlternationStuck(parts, k + 1, limit);
        return None;
      }
      combined := combined + values.value;
    }
    assert parts[..|parts|] == parts;
    return Some(combined);
  }

  lemma {:induction false} RepeatStuck(values: seq<Text>, k: nat, n: nat, limit: nat)
    requires k <= n && RepeatTimes(values, k, limit).None?
    ensures RepeatTimes(values, n, limit).None?
    decreases n
  {
    if k < n {
      RepeatStuck(values, k, n - 1, limit);
    }
  }

  lemma {:induction false} BetweenStuck(values: seq<Text>, min: nat, k: nat, end: nat, limit: nat)
    requires min < k <= end && RepeatBetween(values, min, k, limit).None?
    ensures RepeatBetween(values, min, end, limit).None?
    decreases end
  {
    if k < end {
      BetweenStuck(values, min, k, end - 1, limit);
    }
  }

  method RepeatedValues(values: seq<Text>, count: nat, limit: nat) returns (r: Option<seq<Text>>)
    ensures r == RepeatTimes(values, count, limit)
  {
    r := Some([[]]);
    for k := 0 to count
      invariant r.Some? && r == RepeatTimes(values, k, limit)
    {
      r := LiteralCrossProduct(r.value, values, limit);
      if r.None? {
        RepeatStuck(values, k + 1, count, limit);
        return None;
      }
    }
  }

  method RepetitionValues(values: seq<Text>, min: nat, max: nat, limit: nat) returns (r: Option<seq<Text>>)
    ensures r == RepeatBetween(values, min, max + 1, limit)
  {
    var combined: seq<Text> := [];
    var count := min;
    while count <= max
      invariant RepeatBetween(values, min, count, limit) == Some(combined) && min <= count
      invariant count <= max + 1 || count == min
      decreases max + 1 - count
    {
      var repeated := RepeatedValues(values, count, limit);
      if repeated.None? || |combined| + |repeated.value| > limit {
        BetweenStuck(values, min, count + 1, max + 1, limit);
        return None;
      }
      combined := combined + repeated.value;
      count := count + 1;
    }
    return Some(combined);
  }

  /** `finite_literal_values_from_hir` */
  method FiniteLiteralValues(h: Hir, limit: nat) returns (r: Option<seq<Text>>)
    ensures r == Extract(h, limit)
    decreases h, 0
  {
    match h
    case Empty => return Some([[]]);
    case Literal(bytes, isUtf8) => return if isUtf8 then Some([bytes]) else None;
    case Class(_) => return None;
    case Look => return None;
    case Capture(sub) => r := FiniteLiteralValues(sub, limit);
    case Concat(parts) => r := ConcatValues(parts, limit);
    case Alternation(parts) =>
      var all := AlternationValues(parts, limit);
      return if all.None? then None else Deduped(all.value, limit);
    case Repetition(sub, min, max) =>
      if max.None? || max.value > MAX_REPEATS {
        return None;
      }
      var values := FiniteLiteralValues(sub, limit);
      if values.None? {
        return None;
      }
      var all := RepetitionValues(values.value, min, max.value, limit);
      return if all.None? then None else Deduped(all.value, limit);
  }
}
