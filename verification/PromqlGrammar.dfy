/**
 What src/promql/parser.rs computes, as functions from a token stream to a tree and the
 stream left over.  Each function follows the method of the same name branch by branch;
 the loops appear as functions that carry the value built so far.
 */
module PromqlGrammar {
  import opened Common
  import opened PromqlAst

  datatype ParseError = UnexpectedToken | ParseFailure | TypeFailure | RegexFailure

  datatype Parsed<+T> = Done(value: T, rest: Stream) | Failed(error: ParseError) {
    predicate IsFailure() {
      Failed?
    }

    function PropagateFailure<U>(): Parsed<U>
      requires Failed?
    {
      Failed(error)
    }

    function Extract(): (T, Stream)
      requires Done?
    {
      (value, rest)
    }
  }

  type Regex = string -> Option<bool>

  // ----- Token expectations -----

  function Expect(t: Token, s: Stream): (r: Parsed<()>)
    ensures r.Done? ==> Size(r.rest) < Size(s)
  {
    if s.Tok? && s.head == t then Done((), s.tail) else Failed(UnexpectedToken)
  }

  function ExpectIdent(s: Stream): (r: Parsed<string>)
    ensures r.Done? ==> Size(r.rest) < Size(s)
  {
    if s.Tok? && s.head.Ident? then Done(s.head.name, s.tail) else Failed(UnexpectedToken)
  }

  function ExpectString(s: Stream): (r: Parsed<string>)
    ensures r.Done? ==> Size(r.rest) < Size(s)
  {
    if s.Tok? && s.head.String? then Done(s.head.str, s.tail) else Failed(UnexpectedToken)
  }

  function ExpectDuration(s: Stream): (r: Parsed<int>)
    ensures r.Done? ==> Size(r.rest) < Size(s) && IsMillis(r.value)
  {
    if s.Tok? && s.head.Duration? then Done(s.head.millis, s.tail) else Failed(UnexpectedToken)
  }

  function SaturatingNegate(d: int): int {
    Min(-d, I64_MAX)
  }

  function ExpectSignedDuration(s: Stream): (r: Parsed<int>)
    ensures r.Done? ==> Size(r.rest) < Size(s) && InSignedMillis(r.value)
  {
    if Peek(s).Minus? then
      var (d, s1) :- ExpectDuration(s.tail);
      Done(SaturatingNegate(d), s1)
    else if Peek(s).Plus? then ExpectDuration(s.tail)
    else ExpectDuration(s)
  }

  // ----- Label lists -----

  function ParseIdents(labels: seq<string>, s: Stream): (r: Parsed<seq<string>>)
    ensures r.Done? ==> Size(r.rest) < Size(s)
    decreases Size(s)
  {
    var (name, s1) :- ExpectIdent(s);
    if Peek(s1).Comma? then ParseIdents(labels + [name], s1.tail) else Done(labels + [name], s1)
  }

  function ParseLabelList(s: Stream): (r: Parsed<seq<string>>)
    ensures r.Done? ==> Size(r.rest) < Size(s)
  {
    var (_, s1) :- Expect(LParen, s);
    var (labels, s2) :- if Peek(s1).RParen? then Done([], s1) else ParseIdents([], s1);
    var (_, s3) :- Expect(RParen, s2);
    Done(labels, s3)
  }

  function ParseGrouping(s: Stream): (r: Parsed<Option<Grouping>>)
    ensures r.Done? ==> Size(r.rest) <= Size(s)
  {
    if Peek(s).By? || Peek(s).Without? then
      var (labels, s1) :- ParseLabelList(s.tail);
      Done(Some(Grouping(s.head.Without?, labels)), s1)
    else Done(None, s)
  }

  // ----- Vector matching -----

  function MergeMatching(current: Option<VectorMatching>, parsed: VectorMatching): Result<VectorMatching, ParseError> {
    match current
    case None => Ok(parsed)
    case Some(c) =>
      if !parsed.cardinality.OneToOne? && !c.cardinality.OneToOne? then Err(ParseFailure)
      else if parsed.cardinality.OneToOne? && (c.labels != [] || c.on) then Err(ParseFailure)
      else
        var merged :=
          if !parsed.cardinality.OneToOne? then
            c.(cardinality := parsed.cardinality, includeLabels := parsed.includeLabels)
          else c.(on := parsed.on, labels := parsed.labels);
        if exists l :: l in merged.labels && l in merged.includeLabels then Err(ParseFailure) else Ok(merged)
  }

  function ParseGroupModifier(cardinality: Cardinality, s: Stream): (r: Parsed<VectorMatching>)
    ensures r.Done? ==> Size(r.rest) <= Size(s)
    ensures r.Done? ==> r.value == VectorMatching(false, [], cardinality, r.value.includeLabels)
  {
    if Peek(s).LParen? then
      var (labels, s1) :- ParseLabelList(s);
      Done(VectorMatching(false, [], cardinality, labels), s1)
    else Done(VectorMatching(false, [], cardinality, []), s)
  }

  /** One on/ignoring/group_left/group_right clause; `s` starts at its keyword. */
  function ParseMatchingClause(s: Stream): (r: Parsed<VectorMatching>)
    requires Peek(s).On? || Peek(s).Ignoring? || Peek(s).GroupLeft? || Peek(s).GroupRight?
    ensures r.Done? ==> Size(r.rest) < Size(s)
    ensures r.Done? ==> (r.value.cardinality.OneToOne? ==> r.value.includeLabels == [])
    ensures r.Done? ==> (!r.value.cardinality.OneToOne? ==> r.value.labels == [] && !r.value.on)
  {
    if s.head.GroupLeft? then ParseGroupModifier(ManyToOne, s.tail)
    else if s.head.GroupRight? then ParseGroupModifier(OneToMany, s.tail)
    else
      var (labels, s1) :- ParseLabelList(s.tail);
      Done(VectorMatching(s.head.On?, labels, OneToOne, []), s1)
  }

  predicate StartsMatchingClause(t: Token) {
    t.On? || t.Ignoring? || t.GroupLeft? || t.GroupRight?
  }

  function ParseModifierLoop(returnBool: bool, matching: Option<VectorMatching>, s: Stream)
    : (r: Parsed<(bool, Option<VectorMatching>)>)
    ensures r.Done? ==> Size(r.rest) <= Size(s)
    decreases Size(s)
  {
    if Peek(s).Bool? then ParseModifierLoop(true, matching, s.tail)
    else if StartsMatchingClause(Peek(s)) then
      var (parsed, s1) :- ParseMatchingClause(s);
      match MergeMatching(matching, parsed)
      case Err(error) => Failed(error)
      case Ok(merged) => ParseModifierLoop(returnBool, Some(merged), s1)
    else Done((returnBool, matching), s)
  }

  function ParseBinaryModifiers(op: BinaryOp, s: Stream): (r: Parsed<(bool, Option<VectorMatching>)>)
    ensures r.Done? ==> Size(r.rest) <= Size(s)
  {
    var (modifiers, s1) :- ParseModifierLoop(false, None, s);
    if modifiers.0 && !IsComparison(op) then Failed(ParseFailure)
    else if modifiers.1.Some? && !modifiers.1.value.cardinality.OneToOne? && IsSet(op) then Failed(ParseFailure)
    else Done(modifiers, s1)
  }

  // ----- Selectors -----

  function ParseMatchOp(s: Stream): (r: Parsed<MatchOp>)
    ensures r.Done? ==> Size(r.rest) < Size(s)
  {
    if Peek(s).Assign? then Done(Equal, s.tail)
    else if Peek(s).BangEq? then Done(NotEqual, s.tail)
    else if Peek(s).RegexEq? then Done(RegexMatch, s.tail)
    else if Peek(s).RegexNe? then Done(RegexNoMatch, s.tail)
    else Failed(UnexpectedToken)
  }

  function ParseMatcherLoop(out: seq<LabelMatcher>, s: Stream): (r: Parsed<seq<LabelMatcher>>)
    ensures r.Done? ==> Size(r.rest) < Size(s)
    decreases Size(s)
  {
    var (name, s1) :- ExpectIdent(s);
    var (op, s2) :- ParseMatchOp(s1);
    var (value, s3) :- ExpectString(s2);
    var out' := out + [LabelMatcher(name, op, value)];
    if Peek(s3).Comma? then
      if Peek(s3.tail).RBrace? then Done(out', s3.tail) else ParseMatcherLoop(out', s3.tail)
    else Done(out', s3)
  }

  function ParseLabelMatchers(s: Stream): (r: Parsed<seq<LabelMatcher>>)
    ensures r.Done? ==> Size(r.rest) < Size(s)
  {
    var (_, s1) :- Expect(LBrace, s);
    if Peek(s1).RBrace? then Done([], s1.tail)
    else
      var (out, s2) :- ParseMatcherLoop([], s1);
      var (_, s3) :- Expect(RBrace, s2);
      Done(out, s3)
  }

  function ParseVectorSelector(regex: Regex, name: Option<string>, s: Stream): (r: Parsed<Expr>)
    ensures r.Done? ==> Size(r.rest) <= Size(s) && (name.None? ==> Size(r.rest) < Size(s))
  {
    var (matchers, s1) :- if Peek(s).LBrace? then ParseLabelMatchers(s) else Done([], s);
    var vector := Vector(VectorSelector(name, matchers, 0, None));
    if name.Some? then Done(vector, s1)
    else
      match HasNonEmptyMatcher(regex, matchers)
      case None => Failed(RegexFailure)
      case Some(false) => Failed(ParseFailure)
      case Some(true) => Done(vector, s1)
  }

  // ----- Postfix forms -----

  function ParseAt(s: Stream): (r: Parsed<AtModifier>)
    ensures r.Done? ==> Size(r.rest) < Size(s)
  {
    var negative := Peek(s).Minus?;
    var s1 := if Peek(s).Minus? || Peek(s).Plus? then s.tail else s;
    var t := Peek(s1);
    if t.Number? then Done(Timestamp(Num(negative, t.number)), s1.tail)
    else if t.InfKw? then Done(Timestamp(Num(negative, Infinity)), s1.tail)
    else if t.NanKw? then Done(Timestamp(NaN), s1.tail)
    else if t.Ident? && !negative && (t.name == "start" || t.name == "end") then
      var (_, s2) :- Expect(LParen, s1.tail);
      var (_, s3) :- Expect(RParen, s2);
      Done(if t.name == "start" then Start else Finish, s3)
    else Failed(UnexpectedToken)
  }

  function ApplyOffset(e: Expr, offset: int): Result<Expr, ParseError> {
    match e
    case Vector(v) => if v.offset != 0 then Err(ParseFailure) else Ok(Vector(v.(offset := offset)))
    case Matrix(v, range) => if v.offset != 0 then Err(ParseFailure) else Ok(Matrix(v.(offset := offset), range))
    case Subquery(_, _, _, current, _) => if current != 0 then Err(ParseFailure) else Ok(e.(offset := offset))
    case _ => Err(TypeFailure)
  }

  function ApplyAt(e: Expr, at: AtModifier): Result<Expr, ParseError> {
    match e
    case Vector(v) => if v.at.Some? then Err(ParseFailure) else Ok(Vector(v.(at := Some(at))))
    case Matrix(v, range) => if v.at.Some? then Err(ParseFailure) else Ok(Matrix(v.(at := Some(at)), range))
    case Subquery(_, _, _, _, current) => if current.Some? then Err(ParseFailure) else Ok(e.(at := Some(at)))
    case _ => Err(TypeFailure)
  }

  /** `s` starts at the opening bracket. */
  function ParseBracketPostfix(e: Expr, s: Stream): (r: Parsed<Expr>)
    requires Peek(s).LBracket?
    ensures r.Done? ==> Size(r.rest) < Size(s)
  {
    var (range, s1) :- ExpectDuration(s.tail);
    if Peek(s1).Colon? then
      var s2 := s1.tail;
      var (step, s3) :-
        if Peek(s2).RBracket? then Done(None, s2)
        else (var (d, s3) :- ExpectDuration(s2); Done(Some(d), s3));
      var (_, s4) :- Expect(RBracket, s3);
      Done(Subquery(e, range, step, 0, None), s4)
    else
      var (_, s2) :- Expect(RBracket, s1);
      match e
      case Vector(v) => Done(Matrix(v, range), s2)
      case _ => Failed(TypeFailure)
  }

  function ParsePostfix(e: Expr, s: Stream): (r: Parsed<Expr>)
    ensures r.Done? ==> Size(r.rest) <= Size(s)
    decreases Size(s)
  {
    if Peek(s).LBracket? then
      var (e', s1) :- ParseBracketPostfix(e, s);
      ParsePostfix(e', s1)
    else if Peek(s).Offset? then
      var (offset, s1) :- ExpectSignedDuration(s.tail);
      match ApplyOffset(e, offset)
      case Err(error) => Failed(error)
      case Ok(e') => ParsePostfix(e', s1)
    else if Peek(s).At? then
      var (at, s1) :- ParseAt(s.tail);
      match ApplyAt(e, at)
      case Err(error) => Failed(error)
      case Ok(e') => ParsePostfix(e', s1)
    else Done(e, s)
  }

  // ----- Expressions -----

  function ParseExpr(regex: Regex, s: Stream, minPrec: nat): (r: Parsed<Expr>)
    ensures r.Done? ==> Size(r.rest) < Size(s)
    decreases Size(s), 3
  {
    var (lhs, s1) :- ParseUnary(regex, s);
    ParseBinaryLoop(regex, lhs, s1, minPrec)
  }

  function ParseBinaryLoop(regex: Regex, lhs: Expr, s: Stream, minPrec: nat): (r: Parsed<Expr>)
    ensures r.Done? ==> Size(r.rest) <= Size(s)
    decreases Size(s), 2
  {
    match BinaryOpOf(Peek(s))
    case None => Done(lhs, s)
    case Some(op) =>
      if Precedence(op) < minPrec then Done(lhs, s)
      else
        var (right, s1) :- ParseRightOperand(regex, op, s.tail);
        ParseBinaryLoop(regex, Binary(op, lhs, right.2, right.0, right.1), s1, minPrec)
  }

  /** The modifiers after an operator, and then its right operand. */
  function ParseRightOperand(regex: Regex, op: BinaryOp, s: Stream)
    : (r: Parsed<(bool, Option<VectorMatching>, Expr)>)
    ensures r.Done? ==> Size(r.rest) < Size(s)
    decreases Size(s), 4
  {
    var (modifiers, s1) :- ParseBinaryModifiers(op, s);
    var (rhs, s2) :- ParseExpr(regex, s1, RightMin(op));
    Done((modifiers.0, modifiers.1, rhs), s2)
  }

  function ParseUnary(regex: Regex, s: Stream): (r: Parsed<Expr>)
    ensures r.Done? ==> Size(r.rest) < Size(s)
    decreases Size(s), 2
  {
    if Peek(s).Plus? then
      var (e, s1) :- ParseUnary(regex, s.tail);
      Done(Unary(Pos, e), s1)
    else if Peek(s).Minus? then
      var (e, s1) :- ParseUnary(regex, s.tail);
      Done(Unary(Neg, e), s1)
    else
      var (e, s1) :- ParsePrimary(regex, s);
      ParsePostfix(e, s1)
  }

  predicate StartsAggregation(t: Token) {
    t.By? || t.Without? || t.LParen?
  }

  function ParsePrimary(regex: Regex, s: Stream): (r: Parsed<Expr>)
    ensures r.Done? ==> Size(r.rest) < Size(s)
    decreases Size(s), 1
  {
    var t := Peek(s);
    if t.Number? then Done(NumberLiteral(Num(false, t.number)), s.tail)
    else if t.String? then Done(StringLiteral(t.str), s.tail)
    else if t.InfKw? then Done(NumberLiteral(Num(false, Infinity)), s.tail)
    else if t.NanKw? then Done(NumberLiteral(NaN), s.tail)
    else if t.LParen? then
      var (e, s1) :- ParseExpr(regex, s.tail, 0);
      var (_, s2) :- Expect(RParen, s1);
      Done(Paren(e), s2)
    else if t.LBrace? then ParseVectorSelector(regex, None, s)
    else if t.Ident? then
      var op := AggregationFromIdent(t.name);
      if op.Some? && StartsAggregation(Peek(s.tail)) then ParseAggregation(regex, op.value, s.tail)
      else if Peek(s.tail).LParen? then ParseCall(regex, t.name, s.tail)
      else ParseVectorSelector(regex, Some(t.name), s.tail)
    else Failed(UnexpectedToken)
  }

  function ParseAggregation(regex: Regex, op: AggregationOp, s: Stream): (r: Parsed<Expr>)
    ensures r.Done? ==> Size(r.rest) <= Size(s)
    decreases Size(s), 1
  {
    var (leading, s1) :- ParseGrouping(s);
    var (_, s2) :- Expect(LParen, s1);
    var (args, s3) :- ParseAggregationArgs(regex, op, s2);
    var (grouping, s4) :- if leading.None? then ParseGrouping(s3) else Done(leading, s3);
    Done(Aggregation(op, args.1, args.0, grouping), s4)
  }

  /** The parameter, if the operator takes one, and the aggregated expression, up to the closing bracket. */
  function ParseAggregationArgs(regex: Regex, op: AggregationOp, s: Stream): (r: Parsed<(Option<Expr>, Expr)>)
    ensures r.Done? ==> Size(r.rest) < Size(s)
    decreases Size(s), 5
  {
    var (param, s1) :- ParseAggregationParam(regex, op, s);
    var (body, s2) :- ParseExpr(regex, s1, 0);
    var (_, s3) :- Expect(RParen, s2);
    Done((param, body), s3)
  }

  function ParseAggregationParam(regex: Regex, op: AggregationOp, s: Stream): (r: Parsed<Option<Expr>>)
    ensures r.Done? ==> Size(r.rest) <= Size(s)
    decreases Size(s), 4
  {
    if TakesParam(op) then
      var (param, s1) :- ParseExpr(regex, s, 0);
      var (_, s2) :- Expect(Comma, s1);
      Done(Some(param), s2)
    else Done(None, s)
  }

  function ParseCall(regex: Regex, func: string, s: Stream): (r: Parsed<Expr>)
    ensures r.Done? ==> Size(r.rest) < Size(s)
    decreases Size(s), 1
  {
    var (_, s1) :- Expect(LParen, s);
    var (args, s2) :- if Peek(s1).RParen? then Done([], s1) else ParseArgs(regex, [], s1);
    var (_, s3) :- Expect(RParen, s2);
    Done(Call(func, args), s3)
  }

  function ParseArgs(regex: Regex, args: seq<Expr>, s: Stream): (r: Parsed<seq<Expr>>)
    ensures r.Done? ==> Size(r.rest) < Size(s)
    decreases Size(s), 4
  {
    var (arg, s1) :- ParseExpr(regex, s, 0);
    if Peek(s1).Comma? then ParseArgs(regex, args + [arg], s1.tail) else Done(args + [arg], s1)
  }

  /** The whole input: one expression and then Eof. */
  function Parse(regex: Regex, s: Stream): Result<Expr, ParseError> {
    match ParseExpr(regex, s, 0)
    case Failed(error) => Err(error)
    case Done(e, rest) => if Peek(rest).Eof? then Ok(e) else Err(UnexpectedToken)
  }
}
