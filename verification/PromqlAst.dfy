/**
 PromQL syntax trees (src/promql/ast.rs), the tokens the lexer hands to the parser,
 the operator table, and the printer that serves as the parser's specification.
 */
module PromqlAst {
  import opened Common

  /** A number is a sign and a magnitude, or NaN; the parser never does arithmetic beyond negation. */
  datatype Magnitude = Finite(bits: nat) | Infinity
  datatype F64 = NaN | Num(negative: bool, magnitude: Magnitude)

  /** The lexer only produces durations that fit a non-negative i64. */
  type Millis = d: int | 0 <= d <= 0x7fff_ffff_ffff_ffff

  datatype Token =
    | Number(number: Magnitude) | String(str: string) | Duration(millis: Millis) | Ident(name: string)
    | By | Without | Offset | Bool | AndKw | OrKw | UnlessKw | On | Ignoring | GroupLeft | GroupRight | Atan2Kw
    | InfKw | NanKw | Plus | Minus | Star | Slash | Percent | Caret | EqEq | BangEq | Less | Greater
    | LessEq | GreaterEq | RegexEq | RegexNe | Assign | LParen | RParen | LBrace | RBrace | LBracket | RBracket
    | Comma | Colon | At | Eof

  datatype UnaryOp = Pos | Neg

  datatype BinaryOp =
    Add | Sub | Mul | Div | Mod | Atan2 | Pow | Eq | NotEq | Lt | Gt | Lte | Gte | And | Or | Unless

  datatype AggregationOp =
    | Sum | Avg | MinOp | MaxOp | Count | Group | CountValues | Quantile | Stddev | Stdvar
    | LimitK | LimitRatio | TopK | BottomK

  datatype Cardinality = OneToOne | ManyToOne | OneToMany

  datatype VectorMatching =
    VectorMatching(on: bool, labels: seq<string>, cardinality: Cardinality, includeLabels: seq<string>)

  datatype MatchOp = Equal | NotEqual | RegexMatch | RegexNoMatch
  datatype LabelMatcher = LabelMatcher(name: string, op: MatchOp, value: string)

  datatype AtModifier = Timestamp(time: F64) | Start | Finish

  datatype VectorSelector =
    VectorSelector(metricName: Option<string>, matchers: seq<LabelMatcher>, offset: int, at: Option<AtModifier>)

  datatype Grouping = Grouping(without: bool, labels: seq<string>)

  datatype Expr =
    | NumberLiteral(number: F64)
    | StringLiteral(str: string)
    | Vector(vector: VectorSelector)
    | Matrix(vector: VectorSelector, range: int)
    | Subquery(inner: Expr, range: int, step: Option<int>, offset: int, at: Option<AtModifier>)
    | Unary(unaryOp: UnaryOp, operand: Expr)
    | Binary(op: BinaryOp, lhs: Expr, rhs: Expr, returnBool: bool, matching: Option<VectorMatching>)
    | Aggregation(aggregation: AggregationOp, body: Expr, param: Option<Expr>, grouping: Option<Grouping>)
    | Call(func: string, args: seq<Expr>)
    | Paren(inner: Expr)

  predicate IsComparison(op: BinaryOp) {
    op in {Eq, NotEq, Lt, Gt, Lte, Gte}
  }

  predicate IsSet(op: BinaryOp) {
    op in {And, Or, Unless}
  }

  predicate TakesParam(op: AggregationOp) {
    op in {TopK, BottomK, Quantile, CountValues, LimitK, LimitRatio}
  }

  function AggregationFromIdent(ident: string): Option<AggregationOp> {
    if ident == "sum" then Some(Sum)
    else if ident == "avg" then Some(Avg)
    else if ident == "min" then Some(MinOp)
    else if ident == "max" then Some(MaxOp)
    else if ident == "count" then Some(Count)
    else if ident == "group" then Some(Group)
    else if ident == "count_values" then Some(CountValues)
    else if ident == "quantile" then Some(Quantile)
    else if ident == "stddev" then Some(Stddev)
    else if ident == "stdvar" then Some(Stdvar)
    else if ident == "limitk" then Some(LimitK)
    else if ident == "limit_ratio" then Some(LimitRatio)
    else if ident == "topk" then Some(TopK)
    else if ident == "bottomk" then Some(BottomK)
    else None
  }

  // ----- Operator table (parser.rs, peek_binary_op) -----

  function BinaryOpOf(t: Token): Option<BinaryOp> {
    if t.OrKw? then Some(Or)
    else if t.AndKw? then Some(And)
    else if t.UnlessKw? then Some(Unless)
    else if t.EqEq? then Some(Eq)
    else if t.BangEq? then Some(NotEq)
    else if t.Less? then Some(Lt)
    else if t.Greater? then Some(Gt)
    else if t.LessEq? then Some(Lte)
    else if t.GreaterEq? then Some(Gte)
    else if t.Plus? then Some(Add)
    else if t.Minus? then Some(Sub)
    else if t.Star? then Some(Mul)
    else if t.Slash? then Some(Div)
    else if t.Percent? then Some(Mod)
    else if t.Atan2Kw? then Some(Atan2)
    else if t.Caret? then Some(Pow)
    else None
  }

  function Precedence(op: BinaryOp): nat {
    match op
    case Or => 1
    case And | Unless => 2
    case Eq | NotEq | Lt | Gt | Lte | Gte => 3
    case Add | Sub => 4
    case Mul | Div | Mod | Atan2 => 5
    case Pow => 6
  }

  predicate RightAssociative(op: BinaryOp) {
    op.Pow?
  }

  /** The minimum precedence at which the right operand of `op` is parsed. */
  function RightMin(op: BinaryOp): nat {
    if RightAssociative(op) then Precedence(op) else Precedence(op) + 1
  }

  /** The minimum precedence a left operand of `op` must have. */
  function LeftMin(op: BinaryOp): nat {
    if RightAssociative(op) then Precedence(op) + 1 else Precedence(op)
  }

  /** One more than every precedence: only unary and postfix forms live here. */
  const UNARY_LEVEL: nat := 7

  // ----- Well-formed trees -----

  ghost predicate WellFormedMatching(op: BinaryOp, m: VectorMatching) {
    && (m.cardinality.OneToOne? ==> m.includeLabels == [])
    && (IsSet(op) ==> m.cardinality.OneToOne?)
    && (forall l :: l in m.labels ==> l !in m.includeLabels)
  }

  predicate InSignedMillis(d: int) {
    -0x7fff_ffff_ffff_ffff <= d <= 0x7fff_ffff_ffff_ffff
  }

  predicate IsMillis(d: int) {
    0 <= d <= 0x7fff_ffff_ffff_ffff
  }

  /**
   Whether a matcher accepts the empty string. `regex` stands for compiling the
   anchored pattern and matching it against "": none when it does not compile.
   */
  function MatchesEmpty(regex: string -> Option<bool>, m: LabelMatcher): Option<bool> {
    match m.op
    case Equal => Some(m.value == "")
    case NotEqual => Some(m.value != "")
    case RegexMatch => regex(m.value)
    case RegexNoMatch =>
      match regex(m.value)
      case None => None
      case Some(b) => Some(!b)
  }

  /** Scans matchers in order; none when a regex met on the way does not compile. */
  function HasNonEmptyMatcher(regex: string -> Option<bool>, ms: seq<LabelMatcher>): Option<bool> {
    if ms == [] then Some(false)
    else
      match MatchesEmpty(regex, ms[0])
      case None => None
      case Some(false) => Some(true)
      case Some(true) => HasNonEmptyMatcher(regex, ms[1..])
  }

  ghost predicate WellFormedSelector(regex: string -> Option<bool>, v: VectorSelector) {
    && (v.metricName.None? ==> HasNonEmptyMatcher(regex, v.matchers) == Some(true))
    && InSignedMillis(v.offset)
  }

  /** Only a binary operator can fail to bind at a given minimum precedence. */
  predicate FitsAt(e: Expr, level: nat) {
    e.Binary? ==> Precedence(e.op) >= level
  }

  /**
   The trees the grammar can denote: left operands bind at least as tightly as their
   operator, right operands strictly tighter (except under `^`), and every modifier
   appears only where it is legal.
   */
  ghost predicate WellFormed(regex: string -> Option<bool>, e: Expr)
    decreases e, 1
  {
    match e
    case NumberLiteral(n) => n.Num? ==> !n.negative
    case StringLiteral(_) => true
    case Vector(v) => WellFormedSelector(regex, v)
    case Matrix(v, range) => WellFormedSelector(regex, v) && IsMillis(range)
    case Subquery(inner, range, step, offset, _) =>
      && !inner.Unary? && !inner.Binary? && WellFormed(regex, inner)
      && IsMillis(range) && (step.Some? ==> IsMillis(step.value)) && InSignedMillis(offset)
    case Unary(_, operand) => WellFormed(regex, operand) && FitsAt(operand, UNARY_LEVEL)
    case Binary(op, lhs, rhs, returnBool, matching) =>
      && WellFormed(regex, lhs) && FitsAt(lhs, LeftMin(op))
      && WellFormed(regex, rhs) && FitsAt(rhs, RightMin(op))
      && (returnBool ==> IsComparison(op))
      && (matching.Some? ==> WellFormedMatching(op, matching.value))
    case Aggregation(op, body, param, _) =>
      && (param.Some? <==> TakesParam(op))
      && WellFormed(regex, body)
      && (param.Some? ==> WellFormed(regex, param.value))
    case Call(func, args) => AggregationFromIdent(func).None? && WellFormedArgs(regex, args)
    case Paren(inner) => WellFormed(regex, inner)
  }

  ghost predicate WellFormedArgs(regex: string -> Option<bool>, args: seq<Expr>)
    decreases args, 0
  {
    args == [] || (WellFormed(regex, args[0]) && WellFormedArgs(regex, args[1..]))
  }

  // ----- Token streams and the printer -----

  datatype Stream = End | Tok(head: Token, tail: Stream)

  function Size(s: Stream): nat {
    if s.End? then 0 else 1 + Size(s.tail)
  }

  /** Past the end the parser keeps seeing the final token, which is always Eof. */
  function Peek(s: Stream): Token {
    if s.End? then Eof else s.head
  }

  function OpToken(op: BinaryOp): Token {
    match op
    case Or => OrKw
    case And => AndKw
    case Unless => UnlessKw
    case Eq => EqEq
    case NotEq => BangEq
    case Lt => Less
    case Gt => Greater
    case Lte => LessEq
    case Gte => GreaterEq
    case Add => Plus
    case Sub => Minus
    case Mul => Star
    case Div => Slash
    case Mod => Percent
    case Atan2 => Atan2Kw
    case Pow => Caret
  }

  function AggregationName(op: AggregationOp): string {
    match op
    case Sum => "sum"
    case Avg => "avg"
    case MinOp => "min"
    case MaxOp => "max"
    case Count => "count"
    case Group => "group"
    case CountValues => "count_values"
    case Quantile => "quantile"
    case Stddev => "stddev"
    case Stdvar => "stdvar"
    case LimitK => "limitk"
    case LimitRatio => "limit_ratio"
    case TopK => "topk"
    case BottomK => "bottomk"
  }

  // Every printer takes the stream that follows, so no printed form needs concatenation.

  function PrintIdents(labels: seq<string>, rest: Stream): Stream
    requires labels != []
  {
    if |labels| == 1 then Tok(Ident(labels[0]), rest)
    else Tok(Ident(labels[0]), Tok(Comma, PrintIdents(labels[1..], rest)))
  }

  function PrintLabelList(labels: seq<string>, rest: Stream): Stream {
    Tok(LParen, if labels == [] then Tok(RParen, rest) else PrintIdents(labels, Tok(RParen, rest)))
  }

  function PrintMatching(matching: Option<VectorMatching>, rest: Stream): Stream {
    match matching
    case None => rest
    case Some(m) =>
      var group := match m.cardinality
        case OneToOne => rest
        case ManyToOne => Tok(GroupLeft, PrintLabelList(m.includeLabels, rest))
        case OneToMany => Tok(GroupRight, PrintLabelList(m.includeLabels, rest));
      Tok(if m.on then On else Ignoring, PrintLabelList(m.labels, group))
  }

  function PrintModifiers(returnBool: bool, matching: Option<VectorMatching>, rest: Stream): Stream {
    if returnBool then Tok(Bool, PrintMatching(matching, rest)) else PrintMatching(matching, rest)
  }

  function MatchToken(op: MatchOp): Token {
    match op
    case Equal => Assign
    case NotEqual => BangEq
    case RegexMatch => RegexEq
    case RegexNoMatch => RegexNe
  }

  function PrintMatchers(ms: seq<LabelMatcher>, rest: Stream): Stream
    requires ms != []
  {
    var tail := if |ms| == 1 then rest else Tok(Comma, PrintMatchers(ms[1..], rest));
    Tok(Ident(ms[0].name), Tok(MatchToken(ms[0].op), Tok(String(ms[0].value), tail)))
  }

  function PrintMatcherBlock(ms: seq<LabelMatcher>, rest: Stream): Stream {
    Tok(LBrace, if ms == [] then Tok(RBrace, rest) else PrintMatchers(ms, Tok(RBrace, rest)))
  }

  function PrintOffset(offset: int, rest: Stream): Stream
    requires InSignedMillis(offset)
  {
    if offset == 0 then rest
    else if offset < 0 then Tok(Offset, Tok(Minus, Tok(Duration(-offset), rest)))
    else Tok(Offset, Tok(Duration(offset), rest))
  }

  function PrintAt(at: Option<AtModifier>, rest: Stream): Stream {
    match at
    case None => rest
    case Some(Start) => Tok(At, Tok(Ident("start"), Tok(LParen, Tok(RParen, rest))))
    case Some(Finish) => Tok(At, Tok(Ident("end"), Tok(LParen, Tok(RParen, rest))))
    case Some(Timestamp(NaN)) => Tok(At, Tok(NanKw, rest))
    case Some(Timestamp(Num(negative, m))) =>
      Tok(At, if negative then Tok(Minus, Tok(Number(m), rest)) else Tok(Number(m), rest))
  }

  /** The selector itself, without its offset and @ modifiers. */
  function PrintSelector(v: VectorSelector, rest: Stream): Stream {
    match v.metricName
    case None => PrintMatcherBlock(v.matchers, rest)
    case Some(name) =>
      Tok(Ident(name), if v.matchers == [] then rest else PrintMatcherBlock(v.matchers, rest))
  }

  function PrintRange(range: int, rest: Stream): Stream
    requires IsMillis(range)
  {
    Tok(LBracket, Tok(Duration(range), Tok(RBracket, rest)))
  }

  function PrintSubrange(range: int, step: Option<int>, rest: Stream): Stream
    requires IsMillis(range) && (step.Some? ==> IsMillis(step.value))
  {
    var close := Tok(RBracket, rest);
    Tok(LBracket, Tok(Duration(range), Tok(Colon, if step.None? then close else Tok(Duration(step.value), close))))
  }

  function PrintGrouping(grouping: Option<Grouping>, rest: Stream): Stream {
    match grouping
    case None => rest
    case Some(g) => Tok(if g.without then Without else By, PrintLabelList(g.labels, rest))
  }

  /** The canonical token form of a well-formed tree, followed by `rest`. */
  ghost function Print(regex: string -> Option<bool>, e: Expr, rest: Stream): Stream
    requires WellFormed(regex, e)
    decreases e, 1
  {
    match e
    case NumberLiteral(n) => if n.NaN? then Tok(NanKw, rest) else Tok(Number(n.magnitude), rest)
    case StringLiteral(s) => Tok(String(s), rest)
    case Vector(v) => PrintSelector(v, PrintOffset(v.offset, PrintAt(v.at, rest)))
    case Matrix(v, range) => PrintSelector(v, PrintRange(range, PrintOffset(v.offset, PrintAt(v.at, rest))))
    case Subquery(inner, range, step, offset, at) =>
      Print(regex, inner, PrintSubrange(range, step, PrintOffset(offset, PrintAt(at, rest))))
    case Unary(op, operand) => Tok(if op.Pos? then Plus else Minus, Print(regex, operand, rest))
    case Binary(op, lhs, rhs, returnBool, matching) =>
      Print(regex, lhs,
            Tok(OpToken(op), PrintModifiers(returnBool, matching, Print(regex, rhs, rest))))
    case Aggregation(op, body, param, grouping) =>
      var close := Print(regex, body, Tok(RParen, rest));
      var inside := if param.None? then close else Print(regex, param.value, Tok(Comma, close));
      Tok(Ident(AggregationName(op)), PrintGrouping(grouping, Tok(LParen, inside)))
    case Call(func, args) =>
      Tok(Ident(func), Tok(LParen,
        if args == [] then Tok(RParen, rest) else PrintArgs(regex, args, Tok(RParen, rest))))
    case Paren(inner) => Tok(LParen, Print(regex, inner, Tok(RParen, rest)))
  }

  ghost function PrintArgs(regex: string -> Option<bool>, args: seq<Expr>, rest: Stream): Stream
    requires args != [] && WellFormedArgs(regex, args)
    decreases args, 0
  {
    Print(regex, args[0], if |args| == 1 then rest else Tok(Comma, PrintArgs(regex, args[1..], rest)))
  }
}
