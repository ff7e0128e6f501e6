/**
 The parser and the printer are inverse: a printed well-formed tree parses back to itself,
 and whatever the parser accepts is well formed.
 */
module PromqlTheorems {
  import opened Common
  import opened PromqlAst
  import opened PromqlGrammar

  // ----- What may follow, and start, a printed operand -----

  /** Tokens that would extend a selector, call or aggregation that has just ended. */
  predicate EndsPrimary(t: Token) {
    !t.LBrace? && !t.LParen? && !t.By? && !t.Without?
  }

  predicate EndsOperand(t: Token) {
    EndsPrimary(t) && !t.LBracket? && !t.Offset? && !t.At?
  }

  predicate StartsOperand(t: Token) {
    t.Number? || t.String? || t.InfKw? || t.NanKw? || t.LParen? || t.LBrace? || t.Ident?
  }

  ghost predicate IsPostfixForm(e: Expr) {
    !e.Unary? && !e.Binary?
  }

  lemma {:induction false} PrintStart(regex: Regex, e: Expr, rest: Stream)
    requires WellFormed(regex, e)
    ensures
      var t := Peek(Print(regex, e, rest));
      if IsPostfixForm(e) then StartsOperand(t) else StartsOperand(t) || t.Plus? || t.Minus?
  {
    if e.Subquery? {
      PrintStart(regex, e.inner, PrintSubrange(e.range, e.step, PrintOffset(e.offset, PrintAt(e.at, rest))));
    } else if e.Binary? {
      var afterLhs := Tok(OpToken(e.op), PrintModifiers(e.returnBool, e.matching, Print(regex, e.rhs, rest)));
      PrintStart(regex, e.lhs, afterLhs);
    }
  }

  // ----- Lists and modifiers -----

  lemma {:induction false} IdentsRoundTrip(done: seq<string>, labels: seq<string>, rest: Stream)
    requires labels != [] && !Peek(rest).Comma?
    ensures ParseIdents(done, PrintIdents(labels, rest)) == Done(done + labels, rest)
    decreases |labels|
  {
    if |labels| == 1 {
      assert done + [labels[0]] == done + labels;
    } else {
      IdentsRoundTrip(done + [labels[0]], labels[1..], rest);
      assert done + [labels[0]] + labels[1..] == done + labels;
    }
  }

  lemma LabelListRoundTrip(labels: seq<string>, rest: Stream)
    ensures ParseLabelList(PrintLabelList(labels, rest)) == Done(labels, rest)
  {
    if labels != [] {
      IdentsRoundTrip([], labels, Tok(RParen, rest));
      assert [] + labels == labels;
    }
  }

  lemma MatcherStep(done: seq<LabelMatcher>, m: LabelMatcher, s: Stream)
    ensures ParseMatchOp(Tok(MatchToken(m.op), Tok(String(m.value), s))) == Done(m.op, Tok(String(m.value), s))
    ensures ParseMatcherLoop(done, Tok(Ident(m.name), Tok(MatchToken(m.op), Tok(String(m.value), s))))
         == if !Peek(s).Comma? then Done(done + [m], s)
            else if Peek(s.tail).RBrace? then Done(done + [m], s.tail)
            else ParseMatcherLoop(done + [m], s.tail)
  {
    assert m == LabelMatcher(m.name, m.op, m.value);
  }

  lemma {:induction false} MatchersRoundTrip(done: seq<LabelMatcher>, ms: seq<LabelMatcher>, rest: Stream)
    requires ms != [] && !Peek(rest).Comma?
    ensures ParseMatcherLoop(done, PrintMatchers(ms, rest)) == Done(done + ms, rest)
    decreases |ms|
  {
    if |ms| == 1 {
      MatcherStep(done, ms[0], rest);
      assert done + [ms[0]] == done + ms;
    } else {
      MatchersRoundTrip(done + [ms[0]], ms[1..], rest);
      MatcherStep(done, ms[0], Tok(Comma, PrintMatchers(ms[1..], rest)));
      assert done + [ms[0]] + ms[1..] == done + ms;
    }
  }

  lemma MatcherBlockRoundTrip(ms: seq<LabelMatcher>, rest: Stream)
    ensures ParseLabelMatchers(PrintMatcherBlock(ms, rest)) == Done(ms, rest)
  {
    if ms != [] {
      MatchersRoundTrip([], ms, Tok(RBrace, rest));
      assert [] + ms == ms;
    }
  }

  /** A token that ends a modifier list. */
  predicate EndsModifiers(t: Token) {
    !t.Bool? && !StartsMatchingClause(t)
  }

  lemma ClauseRoundTrip(on: bool, labels: seq<string>, rest: Stream)
    ensures ParseMatchingClause(Tok(if on then On else Ignoring, PrintLabelList(labels, rest)))
         == Done(VectorMatching(on, labels, OneToOne, []), rest)
  {
    LabelListRoundTrip(labels, rest);
  }

  lemma GroupClauseRoundTrip(cardinality: Cardinality, labels: seq<string>, rest: Stream)
    requires !cardinality.OneToOne?
    ensures ParseMatchingClause(Tok(if cardinality.ManyToOne? then GroupLeft else GroupRight, PrintLabelList(labels, rest)))
         == Done(VectorMatching(false, [], cardinality, labels), rest)
  {
    LabelListRoundTrip(labels, rest);
  }

  lemma ModifiersRoundTrip(op: BinaryOp, returnBool: bool, matching: Option<VectorMatching>, rest: Stream)
    requires returnBool ==> IsComparison(op)
    requires matching.Some? ==> WellFormedMatching(op, matching.value)
    requires EndsModifiers(Peek(rest))
    ensures ParseBinaryModifiers(op, PrintModifiers(returnBool, matching, rest)) == Done((returnBool, matching), rest)
  {
    if matching.None? {
      assert ParseModifierLoop(returnBool, None, rest) == Done((returnBool, matching), rest);
    } else {
      MatchingRoundTrip(op, returnBool, matching.value, rest);
    }
  }

  lemma MatchingRoundTrip(op: BinaryOp, returnBool: bool, m: VectorMatching, rest: Stream)
    requires WellFormedMatching(op, m) && EndsModifiers(Peek(rest))
    ensures ParseModifierLoop(returnBool, None, PrintMatching(Some(m), rest)) == Done((returnBool, Some(m)), rest)
  {
    if m.cardinality.OneToOne? {
      ClauseRoundTrip(m.on, m.labels, rest);
      assert VectorMatching(m.on, m.labels, OneToOne, []) == m;
    } else {
      var group := Tok(if m.cardinality.ManyToOne? then GroupLeft else GroupRight, PrintLabelList(m.includeLabels, rest));
      ClauseRoundTrip(m.on, m.labels, group);
      GroupClauseRoundTrip(m.cardinality, m.includeLabels, rest);
      var first := VectorMatching(m.on, m.labels, OneToOne, []);
      assert MergeMatching(Some(first), VectorMatching(false, [], m.cardinality, m.includeLabels)) == Ok(m);
      assert ParseModifierLoop(returnBool, Some(first), group) == Done((returnBool, Some(m)), rest);
    }
  }

  // ----- Postfix modifiers -----

  lemma OffsetRoundTrip(e: Expr, offset: int, rest: Stream)
    requires InSignedMillis(offset)
    requires e.Vector? || e.Matrix? || e.Subquery?
    requires (if e.Subquery? then e.offset else e.vector.offset) == 0
    ensures ApplyOffset(e, offset).Ok?
    ensures ParsePostfix(e, PrintOffset(offset, rest)) == ParsePostfix(ApplyOffset(e, offset).value, rest)
  {
    if offset == 0 {
      assert ApplyOffset(e, 0).value == e;
    }
  }

  lemma AtRoundTrip(e: Expr, at: Option<AtModifier>, rest: Stream)
    requires e.Vector? || e.Matrix? || e.Subquery?
    requires (if e.Subquery? then e.at else e.vector.at) == None
    ensures at.Some? ==> ApplyAt(e, at.value).Ok?
    ensures ParsePostfix(e, PrintAt(at, rest))
         == ParsePostfix(if at.Some? then ApplyAt(e, at.value).value else e, rest)
  {
    if at.Some? {
      AtIsRead(at.value, rest);
      AtPostfix(e, PrintAt(at, rest), at.value, rest);
    }
  }

  lemma AtIsRead(at: AtModifier, rest: Stream)
    ensures PrintAt(Some(at), rest).Tok? && Peek(PrintAt(Some(at), rest)).At?
    ensures ParseAt(PrintAt(Some(at), rest).tail) == Done(at, rest)
  {
  }

  lemma AtPostfix(e: Expr, s: Stream, at: AtModifier, rest: Stream)
    requires s.Tok? && Peek(s).At? && ParseAt(s.tail) == Done(at, rest) && ApplyAt(e, at).Ok?
    ensures ParsePostfix(e, s) == ParsePostfix(ApplyAt(e, at).value, rest)
  {
  }

  lemma SelectorRoundTrip(regex: Regex, v: VectorSelector, rest: Stream)
    requires WellFormedSelector(regex, v)
    requires EndsPrimary(Peek(rest))
    ensures ParsePrimary(regex, PrintSelector(v, rest)) == Done(Vector(v.(offset := 0, at := None)), rest)
    ensures StartsOperand(Peek(PrintSelector(v, rest)))
  {
    if v.matchers != [] || v.metricName.None? {
      MatcherBlockRoundTrip(v.matchers, rest);
    }
    if v.metricName.None? {
      assert ParsePrimary(regex, PrintSelector(v, rest)) == ParseVectorSelector(regex, None, PrintSelector(v, rest));
    } else {
      assert ParsePrimary(regex, PrintSelector(v, rest)) == ParseVectorSelector(regex, v.metricName, PrintSelector(v, rest).tail);
    }
  }

  /** What does not start with a sign is a primary followed by postfix forms. */
  lemma UnaryViaPrimary(regex: Regex, s: Stream)
    requires !Peek(s).Plus? && !Peek(s).Minus?
    requires ParsePrimary(regex, s).Done?
    ensures ParseUnary(regex, s) == ParsePostfix(ParsePrimary(regex, s).value, ParsePrimary(regex, s).rest)
  {
  }

  lemma RangeRoundTrip(v: VectorSelector, range: int, rest: Stream)
    requires IsMillis(range)
    ensures ParsePostfix(Vector(v), PrintRange(range, rest)) == ParsePostfix(Matrix(v, range), rest)
  {
    assert ParseBracketPostfix(Vector(v), PrintRange(range, rest)) == Done(Matrix(v, range), rest);
  }

  /** Offset and @ modifiers keep a selector from swallowing what follows. */
  lemma ModifiersEndPrimary(offset: int, at: Option<AtModifier>, rest: Stream)
    requires InSignedMillis(offset) && EndsPrimary(Peek(rest))
    ensures EndsPrimary(Peek(PrintOffset(offset, PrintAt(at, rest))))
  {
  }

  lemma VectorRoundTrip(regex: Regex, v: VectorSelector, rest: Stream)
    requires WellFormedSelector(regex, v)
    requires EndsPrimary(Peek(rest))
    ensures ParseUnary(regex, PrintSelector(v, PrintOffset(v.offset, PrintAt(v.at, rest)))) == ParsePostfix(Vector(v), rest)
  {
    var bare := Vector(v.(offset := 0, at := None));
    var tail := PrintOffset(v.offset, PrintAt(v.at, rest));
    ModifiersEndPrimary(v.offset, v.at, rest);
    SelectorRoundTrip(regex, v, tail);
    UnaryViaPrimary(regex, PrintSelector(v, tail));
    OffsetRoundTrip(bare, v.offset, PrintAt(v.at, rest));
    AtRoundTrip(Vector(v.(at := None)), v.at, rest);
  }

  lemma MatrixRoundTrip(regex: Regex, v: VectorSelector, range: int, rest: Stream)
    requires WellFormedSelector(regex, v) && IsMillis(range)
    requires EndsPrimary(Peek(rest))
    ensures ParseUnary(regex, PrintSelector(v, PrintRange(range, PrintOffset(v.offset, PrintAt(v.at, rest)))))
         == ParsePostfix(Matrix(v, range), rest)
  {
    var bare := v.(offset := 0, at := None);
    var tail := PrintOffset(v.offset, PrintAt(v.at, rest));
    SelectorRoundTrip(regex, v, PrintRange(range, tail));
    UnaryViaPrimary(regex, PrintSelector(v, PrintRange(range, tail)));
    RangeRoundTrip(bare, range, tail);
    OffsetRoundTrip(Matrix(bare, range), v.offset, PrintAt(v.at, rest));
    AtRoundTrip(Matrix(v.(at := None), range), v.at, rest);
  }

  lemma SubqueryPostfixRoundTrip(e: Expr, rest: Stream)
    requires e.Subquery? && IsMillis(e.range) && (e.step.Some? ==> IsMillis(e.step.value)) && InSignedMillis(e.offset)
    ensures ParsePostfix(e.inner, PrintSubrange(e.range, e.step, PrintOffset(e.offset, PrintAt(e.at, rest))))
         == ParsePostfix(e, rest)
  {
    var tail := PrintOffset(e.offset, PrintAt(e.at, rest));
    var bare := e.(offset := 0, at := None);
    assert ParseBracketPostfix(e.inner, PrintSubrange(e.range, e.step, tail)) == Done(bare, tail);
    OffsetRoundTrip(bare, e.offset, PrintAt(e.at, rest));
    AtRoundTrip(e.(at := None), e.at, rest);
  }

  lemma GroupingRoundTrip(grouping: Option<Grouping>, rest: Stream)
    requires EndsOperand(Peek(rest)) || Peek(rest).LParen?
    ensures ParseGrouping(PrintGrouping(grouping, rest)) == Done(grouping, rest)
  {
    if grouping.Some? {
      LabelListRoundTrip(grouping.value.labels, rest);
    }
  }

  // ----- The round trip, by structural induction on the tree -----

  /** Operands in postfix form: the primary is read back and the postfix loop resumes at `rest`. */
  lemma {:induction false} PostfixFormRoundTrip(regex: Regex, e: Expr, rest: Stream)
    requires WellFormed(regex, e) && IsPostfixForm(e)
    requires EndsPrimary(Peek(rest))
    ensures ParseUnary(regex, Print(regex, e, rest)) == ParsePostfix(e, rest)
    decreases e, 1
  {
    match e
    case NumberLiteral(_) => LiteralRoundTrip(regex, e, rest);
    case StringLiteral(_) => LiteralRoundTrip(regex, e, rest);
    case Vector(v) => VectorRoundTrip(regex, v, rest);
    case Matrix(v, range) => MatrixRoundTrip(regex, v, range, rest);
    case Subquery(inner, range, step, offset, at) =>
      var tail := PrintSubrange(range, step, PrintOffset(offset, PrintAt(at, rest)));
      PostfixFormRoundTrip(regex, inner, tail);
      SubqueryPostfixRoundTrip(e, rest);
    case Aggregation(op, body, param, grouping) => AggregationRoundTrip(regex, e, rest);
    case Call(func, args) => CallRoundTrip(regex, e, rest);
    case Paren(inner) =>
      ClosedRoundTrip(regex, inner, Tok(RParen, rest));
      ParenSteps(regex, inner, Print(regex, inner, Tok(RParen, rest)), rest);
  }

  lemma LiteralRoundTrip(regex: Regex, e: Expr, rest: Stream)
    requires (e.NumberLiteral? || e.StringLiteral?) && WellFormed(regex, e)
    ensures ParseUnary(regex, Print(regex, e, rest)) == ParsePostfix(e, rest)
  {
    assert ParsePrimary(regex, Print(regex, e, rest)) == Done(e, rest);
    UnaryViaPrimary(regex, Print(regex, e, rest));
  }

  lemma ParenSteps(regex: Regex, inner: Expr, s: Stream, rest: Stream)
    requires ParseExpr(regex, s, 0) == Done(inner, Tok(RParen, rest))
    ensures ParseUnary(regex, Tok(LParen, s)) == ParsePostfix(Paren(inner), rest)
  {
  }

  lemma AggregationNameRoundTrip(op: AggregationOp)
    ensures AggregationFromIdent(AggregationName(op)) == Some(op)
  {
  }

  lemma AggregationPrimary(regex: Regex, op: AggregationOp, s: Stream)
    requires StartsAggregation(Peek(s))
    ensures ParsePrimary(regex, Tok(Ident(AggregationName(op)), s)) == ParseAggregation(regex, op, s)
  {
    AggregationNameRoundTrip(op);
  }

  /** An aggregation whose pieces are read back one after the other. */
  lemma AggregationSteps(regex: Regex, e: Expr, s: Stream, inside: Stream, rest: Stream)
    requires e.Aggregation?
    requires ParseGrouping(s) == Done(e.grouping, Tok(LParen, inside))
    requires ParseAggregationArgs(regex, e.aggregation, inside) == Done((e.param, e.body), rest)
    requires EndsPrimary(Peek(rest))
    ensures ParseAggregation(regex, e.aggregation, s) == Done(e, rest)
  {
  }

  lemma {:induction false} AggregationRoundTrip(regex: Regex, e: Expr, rest: Stream)
    requires e.Aggregation? && WellFormed(regex, e)
    requires EndsPrimary(Peek(rest))
    ensures ParseUnary(regex, Print(regex, e, rest)) == ParsePostfix(e, rest)
    decreases e, 0
  {
    var body := Print(regex, e.body, Tok(RParen, rest));
    ClosedRoundTrip(regex, e.body, Tok(RParen, rest));
    ParamRoundTrip(regex, e.aggregation, e.param, body);
    var inside := if e.param.None? then body else Print(regex, e.param.value, Tok(Comma, body));
    AggregationArgsRead(regex, e.aggregation, e.param, e.body, inside, body, rest);
    AggregationReads(regex, e, inside, rest);
  }

  lemma AggregationArgsRead(
    regex: Regex, op: AggregationOp, param: Option<Expr>, body: Expr, inside: Stream, printed: Stream, rest: Stream)
    requires ParseAggregationParam(regex, op, inside) == Done(param, printed)
    requires ParseExpr(regex, printed, 0) == Done(body, Tok(RParen, rest))
    ensures ParseAggregationArgs(regex, op, inside) == Done((param, body), rest)
  {
  }

  lemma ClosingToken(e: Expr, t: Token)
    requires t.RParen? || t.Comma?
    ensures FitsAt(e, 0) && EndsOperand(t) && ReleasedBy(e, t) && StopsAt(t, 0)
  {
  }

  /** An expression before a closing bracket or a comma is read back whole. */
  lemma {:induction false} ClosedRoundTrip(regex: Regex, e: Expr, rest: Stream)
    requires WellFormed(regex, e) && (Peek(rest).RParen? || Peek(rest).Comma?)
    ensures ParseExpr(regex, Print(regex, e, rest), 0) == Done(e, rest)
    decreases e, 4
  {
    ClosingToken(e, Peek(rest));
    LoopStops(regex, e, rest, 0);
    ExprRoundTrip(regex, e, 0, rest);
  }

  lemma {:induction false} ParamRoundTrip(regex: Regex, agg: AggregationOp, param: Option<Expr>, body: Stream)
    requires (param.Some? <==> TakesParam(agg)) && (param.Some? ==> WellFormed(regex, param.value))
    ensures
      var inside := if param.None? then body else Print(regex, param.value, Tok(Comma, body));
      ParseAggregationParam(regex, agg, inside) == Done(param, body)
    decreases param
  {
    if param.Some? {
      ClosedRoundTrip(regex, param.value, Tok(Comma, body));
    }
  }

  lemma AggregationReads(regex: Regex, e: Expr, inside: Stream, rest: Stream)
    requires e.Aggregation? && EndsPrimary(Peek(rest))
    requires ParseAggregationArgs(regex, e.aggregation, inside) == Done((e.param, e.body), rest)
    ensures ParseUnary(regex, Tok(Ident(AggregationName(e.aggregation)), PrintGrouping(e.grouping, Tok(LParen, inside))))
         == ParsePostfix(e, rest)
  {
    var grouped := PrintGrouping(e.grouping, Tok(LParen, inside));
    GroupingRoundTrip(e.grouping, Tok(LParen, inside));
    AggregationSteps(regex, e, grouped, inside, rest);
    AggregationPrimary(regex, e.aggregation, grouped);
    UnaryViaPrimary(regex, Tok(Ident(AggregationName(e.aggregation)), grouped));
  }

  /** An aggregation with its grouping behind the brackets. */
  ghost function PrintTrailing(regex: Regex, e: Expr, rest: Stream): Stream
    requires e.Aggregation? && WellFormed(regex, e)
  {
    var body := Print(regex, e.body, Tok(RParen, PrintGrouping(e.grouping, rest)));
    var inside := if e.param.None? then body else Print(regex, e.param.value, Tok(Comma, body));
    Tok(Ident(AggregationName(e.aggregation)), Tok(LParen, inside))
  }

  lemma TrailingSteps(regex: Regex, e: Expr, inside: Stream, rest: Stream)
    requires e.Aggregation? && e.grouping.Some?
    requires ParseAggregationArgs(regex, e.aggregation, inside) == Done((e.param, e.body), PrintGrouping(e.grouping, rest))
    ensures ParseUnary(regex, Tok(Ident(AggregationName(e.aggregation)), Tok(LParen, inside))) == ParsePostfix(e, rest)
  {
    LabelListRoundTrip(e.grouping.value.labels, rest);
    assert ParseGrouping(PrintGrouping(e.grouping, rest)) == Done(e.grouping, rest);
    assert ParseAggregation(regex, e.aggregation, Tok(LParen, inside)) == Done(e, rest);
    AggregationPrimary(regex, e.aggregation, Tok(LParen, inside));
    UnaryViaPrimary(regex, Tok(Ident(AggregationName(e.aggregation)), Tok(LParen, inside)));
  }

  /** A grouping may as well follow the brackets: the same tree is read. */
  lemma TrailingGroupingRoundTrip(regex: Regex, e: Expr, rest: Stream)
    requires e.Aggregation? && e.grouping.Some? && WellFormed(regex, e)
    ensures ParseUnary(regex, PrintTrailing(regex, e, rest)) == ParsePostfix(e, rest)
  {
    var after := PrintGrouping(e.grouping, rest);
    var body := Print(regex, e.body, Tok(RParen, after));
    ClosedRoundTrip(regex, e.body, Tok(RParen, after));
    ParamRoundTrip(regex, e.aggregation, e.param, body);
    var inside := if e.param.None? then body else Print(regex, e.param.value, Tok(Comma, body));
    AggregationArgsRead(regex, e.aggregation, e.param, e.body, inside, body, after);
    TrailingSteps(regex, e, inside, rest);
  }

  lemma CallSteps(regex: Regex, func: string, args: seq<Expr>, s: Stream, rest: Stream)
    requires AggregationFromIdent(func).None?
    requires if Peek(s).RParen? then args == [] && s == Tok(RParen, rest)
             else ParseArgs(regex, [], s) == Done(args, Tok(RParen, rest))
    ensures ParsePrimary(regex, Tok(Ident(func), Tok(LParen, s))) == Done(Call(func, args), rest)
  {
  }

  lemma {:induction false} CallRoundTrip(regex: Regex, e: Expr, rest: Stream)
    requires e.Call? && WellFormed(regex, e)
    ensures ParseUnary(regex, Print(regex, e, rest)) == ParsePostfix(e, rest)
    decreases e, 0
  {
    var close := Tok(RParen, rest);
    var inside := if e.args == [] then close else PrintArgs(regex, e.args, close);
    if e.args != [] {
      ArgsRoundTrip(regex, [], e.args, close);
      assert [] + e.args == e.args;
      PrintStart(regex, e.args[0], if |e.args| == 1 then close else Tok(Comma, PrintArgs(regex, e.args[1..], close)));
    }
    CallSteps(regex, e.func, e.args, inside, rest);
    UnaryViaPrimary(regex, Tok(Ident(e.func), Tok(LParen, inside)));
  }

  lemma {:induction false} ArgsRoundTrip(regex: Regex, done: seq<Expr>, args: seq<Expr>, rest: Stream)
    requires args != [] && WellFormedArgs(regex, args)
    requires Peek(rest).RParen?
    ensures ParseArgs(regex, done, PrintArgs(regex, args, rest)) == Done(done + args, rest)
    decreases args, 0
  {
    var tail := if |args| == 1 then rest else Tok(Comma, PrintArgs(regex, args[1..], rest));
    ClosedRoundTrip(regex, args[0], tail);
    ArgSteps(regex, done, Print(regex, args[0], tail), args[0], tail);
    if |args| == 1 {
      assert done + [args[0]] == done + args;
    } else {
      ArgsRoundTrip(regex, done + [args[0]], args[1..], rest);
      assert done + [args[0]] + args[1..] == done + args;
    }
  }

  lemma ArgSteps(regex: Regex, done: seq<Expr>, s: Stream, arg: Expr, after: Stream)
    requires ParseExpr(regex, s, 0) == Done(arg, after) && (Peek(after).RParen? || Peek(after).Comma?)
    ensures Peek(after).RParen? ==> ParseArgs(regex, done, s) == Done(done + [arg], after)
    ensures Peek(after).Comma? ==> after.Tok? && ParseArgs(regex, done, s) == ParseArgs(regex, done + [arg], after.tail)
  {
  }

  lemma PostfixStops(e: Expr, s: Stream)
    requires EndsOperand(Peek(s))
    ensures ParsePostfix(e, s) == Done(e, s)
  {
  }

  lemma UnaryStep(regex: Regex, op: UnaryOp, s: Stream, e: Expr, rest: Stream)
    requires ParseUnary(regex, s) == Done(e, rest)
    ensures ParseUnary(regex, Tok(if op.Pos? then Plus else Minus, s)) == Done(Unary(op, e), rest)
  {
  }

  lemma {:induction false} UnaryRoundTrip(regex: Regex, e: Expr, rest: Stream)
    requires WellFormed(regex, e) && FitsAt(e, UNARY_LEVEL)
    requires EndsOperand(Peek(rest))
    ensures ParseUnary(regex, Print(regex, e, rest)) == Done(e, rest)
    decreases e, 2
  {
    if e.Unary? {
      UnaryRoundTrip(regex, e.operand, rest);
      UnaryStep(regex, e.unaryOp, Print(regex, e.operand, rest), e.operand, rest);
    } else {
      PostfixFormRoundTrip(regex, e, rest);
      PostfixStops(e, rest);
    }
  }

  /** The operator at `t`, if any, is left for an enclosing loop. */
  ghost predicate StopsAt(t: Token, minPrec: nat) {
    BinaryOpOf(t).Some? ==> Precedence(BinaryOpOf(t).value) < minPrec
  }

  lemma LoopStops(regex: Regex, lhs: Expr, s: Stream, minPrec: nat)
    requires StopsAt(Peek(s), minPrec)
    ensures ParseBinaryLoop(regex, lhs, s, minPrec) == Done(lhs, s)
  {
  }

  /** One turn of the operator loop, from `e.lhs` before `s` to `e` before `rest`. */
  lemma LoopStep(regex: Regex, e: Expr, s: Stream, rest: Stream, minPrec: nat)
    requires e.Binary? && s.Tok? && BinaryOpOf(Peek(s)) == Some(e.op) && Precedence(e.op) >= minPrec
    requires ParseRightOperand(regex, e.op, s.tail) == Done((e.returnBool, e.matching, e.rhs), rest)
    ensures ParseBinaryLoop(regex, e.lhs, s, minPrec) == ParseBinaryLoop(regex, e, rest, minPrec)
  {
  }

  lemma OperatorIsToken(s: Stream)
    requires BinaryOpOf(Peek(s)).Some?
    ensures s.Tok?
  {
    assert BinaryOpOf(Eof).None?;
  }

  lemma LoopFails(regex: Regex, lhs: Expr, op: BinaryOp, s: Stream, minPrec: nat)
    requires s.Tok? && BinaryOpOf(Peek(s)) == Some(op) && Precedence(op) >= minPrec
    requires ParseRightOperand(regex, op, s.tail).Failed?
    ensures ParseBinaryLoop(regex, lhs, s, minPrec) == Failed(ParseRightOperand(regex, op, s.tail).error)
  {
  }

  /** The operator that follows does not bind into the right operand of `e`. */
  ghost predicate ReleasedBy(e: Expr, t: Token) {
    e.Binary? && BinaryOpOf(t).Some? ==> Precedence(BinaryOpOf(t).value) < RightMin(e.op)
  }

  /** `op` releases its left operand, and an operator that releases the whole releases the right operand. */
  lemma OperatorBetween(lhs: Expr, op: BinaryOp, rhs: Expr, t: Token)
    requires FitsAt(lhs, LeftMin(op)) && FitsAt(rhs, RightMin(op)) && StopsAt(t, RightMin(op))
    ensures BinaryOpOf(OpToken(op)) == Some(op) && EndsOperand(OpToken(op))
    ensures ReleasedBy(lhs, OpToken(op)) && ReleasedBy(rhs, t)
    ensures FitsAt(lhs, Precedence(op))
  {
  }

  lemma ExprViaUnary(regex: Regex, s: Stream, lhs: Expr, s1: Stream, minPrec: nat)
    requires ParseUnary(regex, s) == Done(lhs, s1)
    ensures ParseExpr(regex, s, minPrec) == ParseBinaryLoop(regex, lhs, s1, minPrec)
  {
  }

  /**
   Parsing a printed tree rebuilds it and then continues the operator loop on what follows.
   The left operand is re-read by the same loop, so the statement is about the loop's state
   rather than about the final result.
   */
  lemma {:induction false} ExprRoundTrip(regex: Regex, e: Expr, level: nat, rest: Stream)
    requires WellFormed(regex, e) && FitsAt(e, level)
    requires EndsOperand(Peek(rest)) && ReleasedBy(e, Peek(rest))
    ensures ParseExpr(regex, Print(regex, e, rest), level) == ParseBinaryLoop(regex, e, rest, level)
    decreases e, 3
  {
    if e.Binary? {
      var afterLhs := Tok(OpToken(e.op), PrintModifiers(e.returnBool, e.matching, Print(regex, e.rhs, rest)));
      OperatorBetween(e.lhs, e.op, e.rhs, Peek(rest));
      ExprRoundTrip(regex, e.lhs, level, afterLhs);
      RightOperandRoundTrip(regex, e, rest);
      LoopStep(regex, e, afterLhs, rest, level);
    } else {
      UnaryRoundTrip(regex, e, rest);
      ExprViaUnary(regex, Print(regex, e, rest), e, rest, level);
    }
  }

  lemma {:induction false} RightOperandRoundTrip(regex: Regex, e: Expr, rest: Stream)
    requires e.Binary? && WellFormed(regex, e)
    requires EndsOperand(Peek(rest)) && ReleasedBy(e, Peek(rest))
    ensures ParseRightOperand(regex, e.op, PrintModifiers(e.returnBool, e.matching, Print(regex, e.rhs, rest)))
         == Done((e.returnBool, e.matching, e.rhs), rest)
    decreases e, 2
  {
    OperatorBetween(e.lhs, e.op, e.rhs, Peek(rest));
    ExprRoundTrip(regex, e.rhs, RightMin(e.op), rest);
    LoopStops(regex, e.rhs, rest, RightMin(e.op));
    PrintStart(regex, e.rhs, rest);
    ModifiersRoundTrip(e.op, e.returnBool, e.matching, Print(regex, e.rhs, rest));
  }

  /** Every well-formed tree is read back from its printed tokens, consuming all of them. */
  lemma ParsePrinted(regex: Regex, e: Expr)
    requires WellFormed(regex, e)
    ensures Parse(regex, Print(regex, e, Tok(Eof, End))) == Ok(e)
    ensures ParseExpr(regex, Print(regex, e, Tok(Eof, End)), 0) == Done(e, Tok(Eof, End))
  {
    ExprRoundTrip(regex, e, 0, Tok(Eof, End));
  }

  // ----- Which operator binds tighter -----

  /** The operators from the loosest to the tightest. */
  const LEVELS: seq<set<BinaryOp>> :=
    [{Or}, {And, Unless}, {Eq, NotEq, Lt, Gt, Lte, Gte}, {Add, Sub}, {Mul, Div, Mod, Atan2}, {Pow}]

  ghost predicate Looser<T(!new)>(op: T, later: T, levels: seq<set<T>>) {
    exists i, j :: 0 <= i < j < |levels| && op in levels[i] && later in levels[j]
  }

  lemma LooserExactly<T(!new)>(op: T, later: T, levels: seq<set<T>>, rank: T -> int)
    requires forall x, i :: 0 <= i < |levels| ==> (x in levels[i] <==> rank(x) == i + 1)
    requires 1 <= rank(op) <= |levels| && 1 <= rank(later) <= |levels|
    ensures Looser(op, later, levels) <==> rank(op) < rank(later)
  {
    assert op in levels[rank(op) - 1] && later in levels[rank(later) - 1];
  }

  /** The later operator takes the middle operand: it stands on a tighter level, or both are `^`. */
  ghost predicate TakesMiddle(op: BinaryOp, later: BinaryOp) {
    (op.Pow? && later.Pow?) || Looser(op, later, LEVELS)
  }

  const RANK: BinaryOp -> int := (op: BinaryOp) => Precedence(op)

  lemma LevelsArePrecedences()
    ensures forall op, i :: 0 <= i < |LEVELS| ==> (op in LEVELS[i] <==> RANK(op) == i + 1)
  {
    forall op, i | 0 <= i < |LEVELS| ensures op in LEVELS[i] <==> RANK(op) == i + 1 {
      assert RANK(op) == Precedence(op);
    }
  }

  lemma TakesMiddleExactly(op: BinaryOp, later: BinaryOp)
    ensures TakesMiddle(op, later) <==> Precedence(later) >= RightMin(op)
    ensures !TakesMiddle(op, later) <==> Precedence(op) >= LeftMin(later)
  {
    LevelsArePrecedences();
    LooserExactly(op, later, LEVELS, RANK);
  }

  function Plain(op: BinaryOp, lhs: Expr, rhs: Expr): Expr {
    Binary(op, lhs, rhs, false, None)
  }

  /** Two operators in a row nest to the right exactly when the later one takes the middle operand. */
  lemma TwoOperators(regex: Regex, x: Expr, op: BinaryOp, y: Expr, later: BinaryOp, z: Expr)
    requires WellFormed(regex, x) && WellFormed(regex, y) && WellFormed(regex, z)
    requires !x.Binary? && !y.Binary? && !z.Binary?
    ensures
      var end := Tok(Eof, End);
      Parse(regex, Print(regex, x, Tok(OpToken(op), Print(regex, y, Tok(OpToken(later), Print(regex, z, end))))))
      == Ok(if TakesMiddle(op, later) then Plain(op, x, Plain(later, y, z)) else Plain(later, Plain(op, x, y), z))
  {
    TakesMiddleExactly(op, later);
    ParsePrinted(regex, if TakesMiddle(op, later) then Plain(op, x, Plain(later, y, z)) else Plain(later, Plain(op, x, y), z));
  }

  // ----- Whatever is accepted is well formed -----

  /** What the modifier loop has gathered so far, before the operator is consulted. */
  ghost predicate GatheredMatching(m: VectorMatching) {
    && (m.cardinality.OneToOne? ==> m.includeLabels == [])
    && (forall l :: l in m.labels ==> l !in m.includeLabels)
  }

  lemma {:induction false} ModifierLoopSound(returnBool: bool, matching: Option<VectorMatching>, s: Stream)
    requires matching.Some? ==> GatheredMatching(matching.value)
    ensures
      var r := ParseModifierLoop(returnBool, matching, s);
      r.Done? && r.value.1.Some? ==> GatheredMatching(r.value.1.value)
    decreases Size(s)
  {
    if Peek(s).Bool? {
      ModifierLoopSound(true, matching, s.tail);
    } else if StartsMatchingClause(Peek(s)) {
      var clause := ParseMatchingClause(s);
      if clause.Done? {
        var merged := MergeMatching(matching, clause.value);
        if merged.Ok? {
          ModifierLoopSound(returnBool, Some(merged.value), clause.rest);
        }
      }
    }
  }

  lemma {:induction false} PostfixSound(regex: Regex, e: Expr, s: Stream)
    requires WellFormed(regex, e) && IsPostfixForm(e)
    ensures
      var r := ParsePostfix(e, s);
      r.Done? ==> WellFormed(regex, r.value) && IsPostfixForm(r.value)
    decreases Size(s)
  {
    if Peek(s).LBracket? {
      var r := ParseBracketPostfix(e, s);
      if r.Done? {
        PostfixSound(regex, r.value, r.rest);
      }
    } else if Peek(s).Offset? {
      var d := ExpectSignedDuration(s.tail);
      if d.Done? && ApplyOffset(e, d.value).Ok? {
        PostfixSound(regex, ApplyOffset(e, d.value).value, d.rest);
      }
    } else if Peek(s).At? {
      var at := ParseAt(s.tail);
      if at.Done? && ApplyAt(e, at.value).Ok? {
        PostfixSound(regex, ApplyAt(e, at.value).value, at.rest);
      }
    }
  }

  lemma {:induction false} ExprSound(regex: Regex, s: Stream, minPrec: nat)
    ensures
      var r := ParseExpr(regex, s, minPrec);
      r.Done? ==> WellFormed(regex, r.value) && FitsAt(r.value, minPrec) && StopsAt(Peek(r.rest), minPrec)
    decreases Size(s), 3
  {
    UnarySound(regex, s);
    var lhs := ParseUnary(regex, s);
    if lhs.Done? {
      BinaryLoopSound(regex, lhs.value, lhs.rest, minPrec);
    }
  }

  lemma {:induction false} BinaryLoopSound(regex: Regex, lhs: Expr, s: Stream, minPrec: nat)
    requires WellFormed(regex, lhs) && FitsAt(lhs, minPrec) && ReleasedBy(lhs, Peek(s))
    ensures
      var r := ParseBinaryLoop(regex, lhs, s, minPrec);
      r.Done? ==> WellFormed(regex, r.value) && FitsAt(r.value, minPrec) && StopsAt(Peek(r.rest), minPrec)
    decreases Size(s), 2
  {
    var op := BinaryOpOf(Peek(s));
    if op.Some? && Precedence(op.value) >= minPrec {
      OperatorIsToken(s);
      RightOperandSound(regex, op.value, s.tail);
      var right := ParseRightOperand(regex, op.value, s.tail);
      if right.Done? {
        BinaryLoopSound(regex, Binary(op.value, lhs, right.value.2, right.value.0, right.value.1), right.rest, minPrec);
      }
    }
  }

  lemma {:induction false} RightOperandSound(regex: Regex, op: BinaryOp, s: Stream)
    ensures
      var r := ParseRightOperand(regex, op, s);
      r.Done? ==>
        && WellFormed(regex, r.value.2) && FitsAt(r.value.2, RightMin(op)) && StopsAt(Peek(r.rest), RightMin(op))
        && (r.value.0 ==> IsComparison(op))
        && (r.value.1.Some? ==> WellFormedMatching(op, r.value.1.value))
    decreases Size(s), 4
  {
    ModifierLoopSound(false, None, s);
    var modifiers := ParseBinaryModifiers(op, s);
    if modifiers.Done? {
      ExprSound(regex, modifiers.rest, RightMin(op));
    }
  }

  lemma {:induction false} UnarySound(regex: Regex, s: Stream)
    ensures
      var r := ParseUnary(regex, s);
      r.Done? ==> WellFormed(regex, r.value) && !r.value.Binary?
    decreases Size(s), 2
  {
    if Peek(s).Plus? || Peek(s).Minus? {
      UnarySound(regex, s.tail);
    } else {
      PrimarySound(regex, s);
      var r := ParsePrimary(regex, s);
      if r.Done? {
        PostfixSound(regex, r.value, r.rest);
      }
    }
  }

  lemma {:induction false} PrimarySound(regex: Regex, s: Stream)
    ensures
      var r := ParsePrimary(regex, s);
      r.Done? ==> WellFormed(regex, r.value) && IsPostfixForm(r.value)
    decreases Size(s), 1
  {
    var t := Peek(s);
    if t.LParen? {
      ExprSound(regex, s.tail, 0);
    } else if t.Ident? {
      var op := AggregationFromIdent(t.name);
      if op.Some? && StartsAggregation(Peek(s.tail)) {
        AggregationSound(regex, op.value, s.tail);
      } else if Peek(s.tail).LParen? && !Peek(s.tail.tail).RParen? {
        assert Size(s.tail.tail) < Size(s);
        ArgsSound(regex, [], s.tail.tail);
      }
    }
  }

  lemma {:induction false} AggregationSound(regex: Regex, op: AggregationOp, s: Stream)
    ensures
      var r := ParseAggregation(regex, op, s);
      r.Done? ==> r.value.Aggregation? && WellFormed(regex, r.value)
    decreases Size(s), 1
  {
    var leading := ParseGrouping(s);
    if leading.Done? && Expect(LParen, leading.rest).Done? {
      AggregationArgsSound(regex, op, Expect(LParen, leading.rest).rest);
    }
  }

  ghost predicate WellFormedAggregationArgs(regex: Regex, op: AggregationOp, param: Option<Expr>, body: Expr) {
    (param.Some? <==> TakesParam(op)) && WellFormed(regex, body) && (param.Some? ==> WellFormed(regex, param.value))
  }

  lemma {:induction false} AggregationArgsSound(regex: Regex, op: AggregationOp, s: Stream)
    ensures
      var r := ParseAggregationArgs(regex, op, s);
      r.Done? ==> WellFormedAggregationArgs(regex, op, r.value.0, r.value.1)
    decreases Size(s), 5
  {
    AggregationParamSound(regex, op, s);
    var param := ParseAggregationParam(regex, op, s);
    if param.Done? {
      ExprSound(regex, param.rest, 0);
    }
    ArgsParts(regex, op, s);
  }

  lemma ArgsParts(regex: Regex, op: AggregationOp, s: Stream)
    ensures
      var r, param := ParseAggregationArgs(regex, op, s), ParseAggregationParam(regex, op, s);
      r.Done? ==>
        && param.Done? && param.value == r.value.0
        && ParseExpr(regex, param.rest, 0).Done? && ParseExpr(regex, param.rest, 0).value == r.value.1
  {
  }

  lemma AggregationParamSound(regex: Regex, op: AggregationOp, s: Stream)
    ensures
      var r := ParseAggregationParam(regex, op, s);
      r.Done? ==> (r.value.Some? <==> TakesParam(op)) && (r.value.Some? ==> WellFormed(regex, r.value.value))
    decreases Size(s), 4
  {
    ExprSound(regex, s, 0);
  }

  lemma {:induction false} AppendArg(regex: Regex, args: seq<Expr>, arg: Expr)
    requires WellFormedArgs(regex, args) && WellFormed(regex, arg)
    ensures WellFormedArgs(regex, args + [arg])
    decreases |args|
  {
    if args != [] {
      AppendArg(regex, args[1..], arg);
      assert (args + [arg])[1..] == args[1..] + [arg];
    }
  }

  lemma {:induction false} ArgsSound(regex: Regex, args: seq<Expr>, s: Stream)
    requires WellFormedArgs(regex, args)
    ensures var r := ParseArgs(regex, args, s); r.Done? ==> WellFormedArgs(regex, r.value)
    decreases Size(s), 4
  {
    ExprSound(regex, s, 0);
    var arg := ParseExpr(regex, s, 0);
    if arg.Done? {
      AppendArg(regex, args, arg.value);
      if Peek(arg.rest).Comma? {
        ArgsSound(regex, args + [arg.value], arg.rest.tail);
      }
    }
  }

  /** Every accepted input denotes a well-formed tree, and printing that tree parses to it again. */
  lemma ParseSound(regex: Regex, s: Stream)
    ensures Parse(regex, s).Ok? ==> WellFormed(regex, Parse(regex, s).value)
    ensures
      Parse(regex, s).Ok? ==>
        Parse(regex, Print(regex, Parse(regex, s).value, Tok(Eof, End))) == Parse(regex, s)
  {
    ExprSound(regex, s, 0);
    if Parse(regex, s).Ok? {
      ParsePrinted(regex, Parse(regex, s).value);
    }
  }

  /** The well-formed trees are exactly the trees some token stream denotes. */
  lemma AcceptedExactlyWhenWellFormed(regex: Regex, e: Expr)
    ensures WellFormed(regex, e) <==> exists s :: Parse(regex, s) == Ok(e)
  {
    if WellFormed(regex, e) {
      ParsePrinted(regex, e);
    }
    if s :| Parse(regex, s) == Ok(e) {
      ParseSound(regex, s);
    }
  }
}
