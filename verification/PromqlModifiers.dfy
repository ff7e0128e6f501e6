/**
 Modifiers that may be given only once, src/promql/parser.rs, and what counts as giving them twice:
 which sequences of `on`, `ignoring`, `group_left` and `group_right` `merge_vector_matching` accepts, and
 which sequences of `offset` `apply_offset_modifier` does.
 */
module PromqlModifiers {
  import opened Common
  import opened PromqlAst
  import opened PromqlGrammar
  import opened PromqlTheorems

  /** A clause as parsed: `on`/`ignoring` with its labels, or `group_left`/`group_right` with its own. */
  ghost predicate IsClause(c: VectorMatching) {
    if c.cardinality.OneToOne? then c.includeLabels == [] else !c.on && c.labels == []
  }

  /** An `on` clause, or an `ignoring` clause with labels. */
  predicate Selects(c: VectorMatching) {
    c.cardinality.OneToOne? && (c.on || c.labels != [])
  }

  ghost predicate Meet(a: seq<string>, b: seq<string>) {
    exists l :: l in a && l in b
  }

  /** What the modifier loop makes of the clauses of an operator. */
  function MergeClauses(clauses: seq<VectorMatching>): Result<Option<VectorMatching>, ParseError> {
    if clauses == [] then Ok(None)
    else
      var before :- MergeClauses(clauses[..|clauses| - 1]);
      var merged :- MergeMatching(before, clauses[|clauses| - 1]);
      Ok(Some(merged))
  }

  /**
   At most one group clause, nothing but `ignoring()` before another `on` or `ignoring`, and no label in
   both lists.
   */
  ghost predicate GoTogether(clauses: seq<VectorMatching>) {
    && (forall i, j :: 0 <= i < j < |clauses| ==> GoWith(clauses[i], clauses[j]))
    && (forall i, j :: 0 <= i < |clauses| && 0 <= j < |clauses| ==> !Meet(clauses[i].labels, clauses[j].includeLabels))
  }

  ghost predicate GoWith(earlier: VectorMatching, later: VectorMatching) {
    && (!earlier.cardinality.OneToOne? ==> later.cardinality.OneToOne?)
    && (Selects(earlier) ==> !later.cardinality.OneToOne?)
  }

  ghost predicate AllClauses(clauses: seq<VectorMatching>) {
    forall i :: 0 <= i < |clauses| ==> IsClause(clauses[i])
  }

  /** The merged clause: its matching comes from the one clause that selects, its grouping from the group clause. */
  ghost predicate MergedFrom(m: VectorMatching, clauses: seq<VectorMatching>) {
    && (forall i :: 0 <= i < |clauses| && Selects(clauses[i]) ==> m.on == clauses[i].on && m.labels == clauses[i].labels)
    && (m.on || m.labels != [] ==> exists i :: 0 <= i < |clauses| && Selects(clauses[i]))
    && (forall i :: 0 <= i < |clauses| && !clauses[i].cardinality.OneToOne? ==>
          m.cardinality == clauses[i].cardinality && m.includeLabels == clauses[i].includeLabels)
    && (!m.cardinality.OneToOne? ==> exists i :: 0 <= i < |clauses| && !clauses[i].cardinality.OneToOne?)
    && (m.cardinality.OneToOne? ==> m.includeLabels == [])
  }

  /** One more clause goes with those before it exactly if the merged clause accepts it. */
  lemma OneMoreClause(clauses: seq<VectorMatching>, c: VectorMatching, m: VectorMatching)
    requires AllClauses(clauses) && IsClause(c) && GoTogether(clauses) && MergedFrom(m, clauses)
    ensures GoTogether(clauses + [c]) <==> MergeMatching(Some(m), c).Ok?
  {
    var all := clauses + [c];
    var r := MergeMatching(Some(m), c);
    if r.Ok? {
      forall i, j | 0 <= i < j < |all| ensures GoWith(all[i], all[j]) {
      }
      forall i, j | 0 <= i < |all| && 0 <= j < |all| ensures !Meet(all[i].labels, all[j].includeLabels) {
        LabelsApart(clauses, c, m, i, j);
      }
    } else if GoTogether(all) {
      RefusedClashes(clauses, c, m);
    }
  }

  lemma LabelsApart(clauses: seq<VectorMatching>, c: VectorMatching, m: VectorMatching, i: nat, j: nat)
    requires AllClauses(clauses) && IsClause(c) && GoTogether(clauses) && MergedFrom(m, clauses)
    requires i <= |clauses| && j <= |clauses| && MergeMatching(Some(m), c).Ok?
    ensures !Meet((clauses + [c])[i].labels, (clauses + [c])[j].includeLabels)
  {
    if i < |clauses| && j < |clauses| {
      assert !Meet(clauses[i].labels, clauses[j].includeLabels);
    } else if i < |clauses| {
      assert IsClause(clauses[i]);
    } else if j < |clauses| {
      assert IsClause(clauses[j]);
    }
  }

  lemma RefusedClashes(clauses: seq<VectorMatching>, c: VectorMatching, m: VectorMatching)
    requires AllClauses(clauses) && IsClause(c) && GoTogether(clauses) && MergedFrom(m, clauses)
    requires MergeMatching(Some(m), c).Err?
    ensures !GoTogether(clauses + [c])
  {
    var all, n := clauses + [c], |clauses|;
    if c.cardinality.OneToOne? && (m.on || m.labels != []) {
      var i :| 0 <= i < n && Selects(clauses[i]);
      assert !GoWith(all[i], all[n]);
    } else if !c.cardinality.OneToOne? && !m.cardinality.OneToOne? {
      var i :| 0 <= i < n && !clauses[i].cardinality.OneToOne?;
      assert !GoWith(all[i], all[n]);
    } else if c.cardinality.OneToOne? {
      assert Meet(c.labels, m.includeLabels);
      var i :| 0 <= i < n && !clauses[i].cardinality.OneToOne?;
      assert Meet(all[n].labels, all[i].includeLabels);
    } else {
      assert Meet(m.labels, c.includeLabels);
      var i :| 0 <= i < n && Selects(clauses[i]);
      assert Meet(all[i].labels, all[n].includeLabels);
    }
  }

  lemma MergedOnce(clauses: seq<VectorMatching>, c: VectorMatching, before: Option<VectorMatching>)
    requires AllClauses(clauses) && IsClause(c) && MergeMatching(before, c).Ok?
    requires if before.None? then clauses == [] else MergedFrom(before.value, clauses) && GoTogether(clauses)
    ensures MergedFrom(MergeMatching(before, c).value, clauses + [c])
  {
    var all, m := clauses + [c], MergeMatching(before, c).value;
    assert all[|clauses|] == c;
    forall i | 0 <= i < |clauses| ensures all[i] == clauses[i] {
    }
    if before.Some? {
      if before.value.on || before.value.labels != [] {
        var i :| 0 <= i < |clauses| && Selects(clauses[i]);
        assert Selects(all[i]);
      }
      if !before.value.cardinality.OneToOne? {
        var i :| 0 <= i < |clauses| && !clauses[i].cardinality.OneToOne?;
        assert !all[i].cardinality.OneToOne?;
      }
    }
  }

  lemma FrontGoesTogether(clauses: seq<VectorMatching>)
    requires clauses != [] && GoTogether(clauses)
    ensures GoTogether(clauses[..|clauses| - 1])
  {
    var front := clauses[..|clauses| - 1];
    forall i, j | 0 <= i < j < |front| ensures GoWith(front[i], front[j]) {
      assert GoWith(clauses[i], clauses[j]);
    }
    forall i, j | 0 <= i < |front| && 0 <= j < |front| ensures !Meet(front[i].labels, front[j].includeLabels) {
      assert !Meet(clauses[i].labels, clauses[j].includeLabels);
    }
  }

  /** The clauses of an operator are accepted if and only if they go together, and then say what each of them says. */
  lemma {:induction false} ClausesAcceptedExactly(clauses: seq<VectorMatching>)
    requires AllClauses(clauses)
    ensures MergeClauses(clauses).Ok? <==> GoTogether(clauses)
    ensures MergeClauses(clauses).Ok? && clauses != [] ==>
              MergeClauses(clauses).value.Some? && MergedFrom(MergeClauses(clauses).value.value, clauses)
    decreases |clauses|
  {
    if clauses != [] {
      var front, c := clauses[..|clauses| - 1], clauses[|clauses| - 1];
      assert clauses == front + [c];
      ClausesAcceptedExactly(front);
      var before := MergeClauses(front);
      if before.Ok? {
        if front == [] {
          OneClause(c);
        } else {
          OneMoreClause(front, c, before.value.value);
        }
        if MergeMatching(before.value, c).Ok? {
          MergedOnce(front, c, before.value);
        }
      } else if GoTogether(clauses) {
        FrontGoesTogether(clauses);
      }
    }
  }

  lemma OneClause(c: VectorMatching)
    requires IsClause(c)
    ensures GoTogether([] + [c])
  {
    var one := [] + [c];
    forall i, j | 0 <= i < |one| && 0 <= j < |one| ensures !Meet(one[i].labels, one[j].includeLabels) {
      assert one[i] == c && one[j] == c;
    }
  }

  // ----- On tokens -----

  function PrintClause(c: VectorMatching, rest: Stream): Stream {
    if c.cardinality.OneToOne? then Tok(if c.on then On else Ignoring, PrintLabelList(c.labels, rest))
    else Tok(if c.cardinality.ManyToOne? then GroupLeft else GroupRight, PrintLabelList(c.includeLabels, rest))
  }

  function PrintClauses(clauses: seq<VectorMatching>, rest: Stream): Stream {
    if clauses == [] then rest else PrintClause(clauses[0], PrintClauses(clauses[1..], rest))
  }

  lemma ClauseIsRead(c: VectorMatching, rest: Stream)
    requires IsClause(c)
    ensures StartsMatchingClause(Peek(PrintClause(c, rest))) && ParseMatchingClause(PrintClause(c, rest)) == Done(c, rest)
  {
    if c.cardinality.OneToOne? {
      ClauseRoundTrip(c.on, c.labels, rest);
    } else {
      GroupClauseRoundTrip(c.cardinality, c.includeLabels, rest);
    }
  }

  function Outcome(merged: Result<Option<VectorMatching>, ParseError>, returnBool: bool, rest: Stream)
    : Parsed<(bool, Option<VectorMatching>)>
  {
    if merged.Ok? then Done((returnBool, merged.value), rest) else Failed(merged.error)
  }

  lemma {:induction false} RefusedStays(clauses: seq<VectorMatching>, n: nat)
    requires n <= |clauses| && MergeClauses(clauses[..n]).Err?
    ensures MergeClauses(clauses) == MergeClauses(clauses[..n])
    decreases |clauses|
  {
    if n == |clauses| {
      assert clauses[..n] == clauses;
    } else {
      var front := clauses[..|clauses| - 1];
      assert front[..n] == clauses[..n];
      RefusedStays(front, n);
    }
  }

  lemma {:induction false} LoopMerges(clauses: seq<VectorMatching>, n: nat, returnBool: bool, rest: Stream)
    requires AllClauses(clauses) && EndsModifiers(Peek(rest)) && n <= |clauses| && MergeClauses(clauses[..n]).Ok?
    ensures ParseModifierLoop(returnBool, MergeClauses(clauses[..n]).value, PrintClauses(clauses[n..], rest))
         == Outcome(MergeClauses(clauses), returnBool, rest)
    decreases |clauses| - n
  {
    if n == |clauses| {
      assert clauses[..n] == clauses;
    } else {
      assert clauses[n..][1..] == clauses[n + 1..] && clauses[..n + 1][..n] == clauses[..n];
      ClauseIsRead(clauses[n], PrintClauses(clauses[n + 1..], rest));
      if MergeClauses(clauses[..n + 1]).Ok? {
        LoopMerges(clauses, n + 1, returnBool, rest);
      } else {
        RefusedStays(clauses, n + 1);
      }
    }
  }

  /** The modifier loop reads any sequence of clauses, and accepts it exactly if the clauses go together. */
  lemma ClausesParse(clauses: seq<VectorMatching>, returnBool: bool, rest: Stream)
    requires AllClauses(clauses) && EndsModifiers(Peek(rest))
    ensures ParseModifierLoop(returnBool, None, PrintClauses(clauses, rest)) == Outcome(MergeClauses(clauses), returnBool, rest)
    ensures ParseModifierLoop(returnBool, None, PrintClauses(clauses, rest)).Done? <==> GoTogether(clauses)
  {
    assert clauses[..0] == [] && clauses[0..] == clauses;
    LoopMerges(clauses, 0, returnBool, rest);
    ClausesAcceptedExactly(clauses);
  }

  /** `ignoring() on(x)` is read as `on(x)`: the first of the two clauses goes unnoticed. */
  lemma EmptyIgnoringThenOn(name: string, rest: Stream)
    requires EndsModifiers(Peek(rest))
    ensures
      var ignoring, on := VectorMatching(false, [], OneToOne, []), VectorMatching(true, [name], OneToOne, []);
      ParseModifierLoop(false, None, PrintClauses([ignoring, on], rest)) == Done((false, Some(on)), rest)
  {
    var ignoring, on := VectorMatching(false, [], OneToOne, []), VectorMatching(true, [name], OneToOne, []);
    var both := [ignoring, on];
    assert both[..1] == [ignoring] && [ignoring][..0] == [];
    assert MergeClauses([ignoring]) == Ok(Some(ignoring));
    assert MergeClauses(both) == Ok(Some(on));
    ClausesParse(both, false, rest);
  }

  // ----- Repeated offsets -----

  /** An `offset` in so many words, also one of zero. */
  function SayOffset(offset: int, rest: Stream): Stream
    requires InSignedMillis(offset)
  {
    Tok(Offset, if offset < 0 then Tok(Minus, Tok(Duration(-offset), rest)) else Tok(Duration(offset), rest))
  }

  ghost predicate AllOffsets(offsets: seq<int>) {
    forall i :: 0 <= i < |offsets| ==> InSignedMillis(offsets[i])
  }

  ghost function SayOffsets(offsets: seq<int>, rest: Stream): Stream
    requires AllOffsets(offsets)
  {
    if offsets == [] then rest else SayOffset(offsets[0], SayOffsets(offsets[1..], rest))
  }

  predicate TakesOffset(e: Expr) {
    e.Vector? || e.Matrix? || e.Subquery?
  }

  function OffsetOf(e: Expr): int
    requires TakesOffset(e)
  {
    if e.Subquery? then e.offset else e.vector.offset
  }

  function WithOffset(e: Expr, offset: int): Expr
    requires TakesOffset(e)
  {
    if e.Subquery? then e.(offset := offset) else e.(vector := e.vector.(offset := offset))
  }

  /** The offset an expression ends with. */
  function LastOffset(e: Expr, offsets: seq<int>): int
    requires TakesOffset(e)
  {
    if offsets == [] then OffsetOf(e) else offsets[|offsets| - 1]
  }

  /** Only the last offset is not zero, the one the expression has included. */
  ghost predicate OnlyLastCounts(e: Expr, offsets: seq<int>)
    requires TakesOffset(e)
  {
    offsets != [] ==> OffsetOf(e) == 0 && forall i :: 0 <= i < |offsets| - 1 ==> offsets[i] == 0
  }

  /**
   The postfix loop reads any sequence of offsets: it accepts it exactly if none but the last is other
   than zero, since zero is how it remembers that there was none, and the last one is what remains.
   */
  lemma {:induction false} OffsetsExactly(e: Expr, offsets: seq<int>, rest: Stream)
    requires TakesOffset(e) && AllOffsets(offsets)
    ensures ParsePostfix(e, SayOffsets(offsets, rest)) ==
            if OnlyLastCounts(e, offsets) then ParsePostfix(WithOffset(e, LastOffset(e, offsets)), rest)
            else Failed(ParseFailure)
    decreases |offsets|
  {
    if offsets == [] {
      assert WithOffset(e, OffsetOf(e)) == e;
    } else {
      OffsetApplies(e, offsets[0], SayOffsets(offsets[1..], rest));
      if OffsetOf(e) == 0 {
        var first := WithOffset(e, offsets[0]);
        OffsetsExactly(first, offsets[1..], rest);
        if OnlyLastCounts(first, offsets[1..]) {
          assert forall i :: 0 < i < |offsets| - 1 ==> offsets[1..][i - 1] == offsets[i];
          assert WithOffset(first, LastOffset(first, offsets[1..])) == WithOffset(e, LastOffset(e, offsets));
        } else if OffsetOf(first) == 0 {
          var i :| 0 <= i < |offsets[1..]| - 1 && offsets[1..][i] != 0;
          assert offsets[i + 1] != 0;
        }
      }
    }
  }

  lemma OffsetApplies(e: Expr, offset: int, rest: Stream)
    requires TakesOffset(e) && InSignedMillis(offset)
    ensures ParsePostfix(e, SayOffset(offset, rest)) ==
            if OffsetOf(e) == 0 then ParsePostfix(WithOffset(e, offset), rest) else Failed(ParseFailure)
  {
  }
}
