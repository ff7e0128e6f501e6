/**
 The recursive-descent parser of src/promql/parser.rs: an object whose `pos` advances over the
 token vector.  Every method is proved to return what its PromqlGrammar function returns on the
 tokens from `pos` on, and to leave `pos` where that function stops.
 */
module PromqlParser {
  import opened Common
  import opened PromqlAst
  import opened PromqlGrammar
  import Theorems = PromqlTheorems

  function From(tokens: seq<Token>, i: nat): (s: Stream)
    requires i <= |tokens|
    ensures Size(s) == |tokens| - i
    decreases |tokens| - i
  {
    if i == |tokens| then End else Tok(tokens[i], From(tokens, i + 1))
  }

  /** A method's outcome, with the tokens it left, is the one the grammar prescribes. */
  ghost predicate Agrees<T>(r: Result<T, ParseError>, rest: Stream, spec: Parsed<T>) {
    match spec
    case Done(value, after) => r == Ok(value) && rest == after
    case Failed(error) => r == Err(error)
  }

  class Parser {
    const regex: Regex
    const tokens: seq<Token>
    var pos: nat

    constructor (regex: Regex, tokens: seq<Token>)
      requires tokens != [] && tokens[|tokens| - 1].Eof?
      ensures Valid() && this.regex == regex && this.tokens == tokens && pos == 0
    {
      this.regex := regex;
      this.tokens := tokens;
      pos := 0;
    }

    ghost predicate Valid()
      reads this
    {
      tokens != [] && tokens[|tokens| - 1].Eof? && pos <= |tokens|
    }

    ghost function Rest(): Stream
      requires Valid()
      reads this
    {
      From(tokens, pos)
    }

    /** The token at `pos`, or the last one when `pos` is past the end. */
    method PeekToken() returns (t: Token)
      requires Valid()
      ensures t == Peek(Rest())
    {
      t := if pos < |tokens| then tokens[pos] else tokens[|tokens| - 1];
    }

    method Advance()
      requires Valid() && Rest().Tok?
      modifies this
      ensures Valid() && Rest() == old(Rest()).tail
    {
      if pos < |tokens| {
        pos := pos + 1;
      }
    }

    method ExpectToken(expected: Token) returns (r: Result<(), ParseError>)
      requires Valid()
      requires !expected.Eof?
      modifies this
      ensures Valid() && Agrees(r, Rest(), Expect(expected, old(Rest())))
    {
      var t := PeekToken();
      if t == expected {
        Advance();
        return Ok(());
      }
      return Err(UnexpectedToken);
    }

    method ExpectIdentToken() returns (r: Result<string, ParseError>)
      requires Valid()
      modifies this
      ensures Valid() && Agrees(r, Rest(), ExpectIdent(old(Rest())))
    {
      var t := PeekToken();
      if t.Ident? {
        Advance();
        return Ok(t.name);
      }
      return Err(UnexpectedToken);
    }

    method ExpectStringToken() returns (r: Result<string, ParseError>)
      requires Valid()
      modifies this
      ensures Valid() && Agrees(r, Rest(), ExpectString(old(Rest())))
    {
      var t := PeekToken();
      if t.String? {
        Advance();
        return Ok(t.str);
      }
      return Err(UnexpectedToken);
    }

    method ExpectDurationToken() returns (r: Result<int, ParseError>)
      requires Valid()
      modifies this
      ensures Valid() && Agrees(r, Rest(), ExpectDuration(old(Rest())))
    {
      var t := PeekToken();
      if t.Duration? {
        Advance();
        return Ok(t.millis);
      }
      return Err(UnexpectedToken);
    }

    method ExpectSignedDurationTokens() returns (r: Result<int, ParseError>)
      requires Valid()
      modifies this
      ensures Valid() && Agrees(r, Rest(), ExpectSignedDuration(old(Rest())))
    {
      var t := PeekToken();
      if t.Minus? {
        Advance();
        var d :- ExpectDurationToken();
        return Ok(SaturatingNegate(d));
      }
      if t.Plus? {
        Advance();
      }
      r := ExpectDurationToken();
    }

    /** The loop shared by `parse_label_list` and `parse_grouping`. */
    method ParseIdentLoop() returns (r: Result<seq<string>, ParseError>)
      requires Valid()
      modifies this
      ensures Valid() && Agrees(r, Rest(), ParseIdents([], old(Rest())))
    {
      var labels := [];
      while true
        invariant Valid()
        invariant ParseIdents([], old(Rest())) == ParseIdents(labels, Rest())
        decreases Size(Rest())
      {
        var name :- ExpectIdentToken();
        labels := labels + [name];
        var t := PeekToken();
        if !t.Comma? {
          return Ok(labels);
        }
        Advance();
      }
    }

    method ParseLabels() returns (r: Result<seq<string>, ParseError>)
      requires Valid()
      modifies this
      ensures Valid() && Agrees(r, Rest(), ParseLabelList(old(Rest())))
    {
      var _ :- ExpectToken(LParen);
      var labels := [];
      var t := PeekToken();
      if !t.RParen? {
        labels :- ParseIdentLoop();
      }
      var _ :- ExpectToken(RParen);
      return Ok(labels);
    }

    method ParseGroupingClause() returns (r: Result<Option<Grouping>, ParseError>)
      requires Valid()
      modifies this
      ensures Valid() && Agrees(r, Rest(), ParseGrouping(old(Rest())))
    {
      var t := PeekToken();
      if !t.By? && !t.Without? {
        return Ok(None);
      }
      Advance();
      var labels :- ParseLabels();
      return Ok(Some(Grouping(t.Without?, labels)));
    }

    method ParseClause() returns (r: Result<VectorMatching, ParseError>)
      requires Valid() && StartsMatchingClause(Peek(Rest()))
      modifies this
      ensures Valid() && Agrees(r, Rest(), ParseMatchingClause(old(Rest())))
    {
      var t := PeekToken();
      Advance();
      if t.On? || t.Ignoring? {
        var labels :- ParseLabels();
        return Ok(VectorMatching(t.On?, labels, OneToOne, []));
      }
      var includeLabels := [];
      var next := PeekToken();
      if next.LParen? {
        includeLabels :- ParseLabels();
      }
      return Ok(VectorMatching(false, [], if t.GroupLeft? then ManyToOne else OneToMany, includeLabels));
    }

    method ParseModifiers(op: BinaryOp) returns (r: Result<(bool, Option<VectorMatching>), ParseError>)
      requires Valid()
      modifies this
      ensures Valid() && Agrees(r, Rest(), ParseBinaryModifiers(op, old(Rest())))
    {
      var returnBool := false;
      var matching: Option<VectorMatching> := None;
      var t := PeekToken();
      while t.Bool? || StartsMatchingClause(t)
        invariant Valid() && t == Peek(Rest())
        invariant ParseModifierLoop(false, None, old(Rest())) == ParseModifierLoop(returnBool, matching, Rest())
        decreases Size(Rest())
      {
        if t.Bool? {
          Advance();
          returnBool := true;
        } else {
          var parsed :- ParseClause();
          var merged :- MergeVectorMatching(matching, parsed);
          matching := Some(merged);
        }
        t := PeekToken();
      }
      if returnBool && !IsComparison(op) {
        return Err(ParseFailure);
      }
      if matching.Some? && !matching.value.cardinality.OneToOne? && IsSet(op) {
        return Err(ParseFailure);
      }
      return Ok((returnBool, matching));
    }

    method ParseMatchOperator() returns (r: Result<MatchOp, ParseError>)
      requires Valid()
      modifies this
      ensures Valid() && Agrees(r, Rest(), ParseMatchOp(old(Rest())))
    {
      var t := PeekToken();
      var op;
      if t.Assign? {
        op := Equal;
      } else if t.BangEq? {
        op := NotEqual;
      } else if t.RegexEq? {
        op := RegexMatch;
      } else if t.RegexNe? {
        op := RegexNoMatch;
      } else {
        return Err(UnexpectedToken);
      }
      Advance();
      return Ok(op);
    }

    method ParseMatchers() returns (r: Result<seq<LabelMatcher>, ParseError>)
      requires Valid()
      modifies this
      ensures Valid() && Agrees(r, Rest(), ParseLabelMatchers(old(Rest())))
    {
      var _ :- ExpectToken(LBrace);
      var out: seq<LabelMatcher> := [];
      var t := PeekToken();
      if t.RBrace? {
        Advance();
        return Ok(out);
      }
      ghost var inside := Rest();
      var more := true;
      while more
        invariant Valid()
        invariant if more then ParseMatcherLoop([], inside) == ParseMatcherLoop(out, Rest())
                  else ParseMatcherLoop([], inside) == Done(out, Rest())
        decreases more, Size(Rest())
      {
        var name :- ExpectIdentToken();
        var op :- ParseMatchOperator();
        var value :- ExpectStringToken();
        out := out + [LabelMatcher(name, op, value)];
        t := PeekToken();
        if t.Comma? {
          Advance();
          t := PeekToken();
          more := !t.RBrace?;
        } else {
          more := false;
        }
      }
      var _ :- ExpectToken(RBrace);
      return Ok(out);
    }

    method ParseSelector(name: Option<string>) returns (r: Result<Expr, ParseError>)
      requires Valid()
      modifies this
      ensures Valid() && Agrees(r, Rest(), ParseVectorSelector(regex, name, old(Rest())))
    {
      var matchers: seq<LabelMatcher> := [];
      var t := PeekToken();
      if t.LBrace? {
        matchers :- ParseMatchers();
      }
      if name.None? {
        var nonEmpty := FindNonEmptyMatcher(regex, matchers);
        if nonEmpty.None? {
          return Err(RegexFailure);
        }
        if !nonEmpty.value {
          return Err(ParseFailure);
        }
      }
      return Ok(Vector(VectorSelector(name, matchers, 0, None)));
    }

    method ParseAtModifier() returns (r: Result<AtModifier, ParseError>)
      requires Valid()
      modifies this
      ensures Valid() && Agrees(r, Rest(), ParseAt(old(Rest())))
    {
      var t := PeekToken();
      var negative := t.Minus?;
      if t.Minus? || t.Plus? {
        Advance();
        t := PeekToken();
      }
      if t.Number? || t.InfKw? || t.NanKw? {
        Advance();
        return Ok(Timestamp(
          if t.NanKw? then NaN else Num(negative, if t.InfKw? then Infinity else t.number)));
      }
      if t.Ident? && !negative && (t.name == "start" || t.name == "end") {
        Advance();
        var _ :- ExpectToken(LParen);
        var _ :- ExpectToken(RParen);
        r := Ok(if t.name == "start" then Start else Finish);
      } else {
        r := Err(UnexpectedToken);
      }
    }

    method ParseBracket(e: Expr) returns (r: Result<Expr, ParseError>)
      requires Valid() && Peek(Rest()).LBracket?
      modifies this
      ensures Valid() && Agrees(r, Rest(), ParseBracketPostfix(e, old(Rest())))
    {
      Advance();
      var range :- ExpectDurationToken();
      var t := PeekToken();
      if t.Colon? {
        Advance();
        var step: Option<int> := None;
        t := PeekToken();
        if !t.RBracket? {
          var d :- ExpectDurationToken();
          step := Some(d);
        }
        var _ :- ExpectToken(RBracket);
        return Ok(Subquery(e, range, step, 0, None));
      }
      var _ :- ExpectToken(RBracket);
      if e.Vector? {
        return Ok(Matrix(e.vector, range));
      }
      return Err(TypeFailure);
    }

    method ParsePostfixForms(primary: Expr) returns (r: Result<Expr, ParseError>)
      requires Valid()
      modifies this
      ensures Valid() && Agrees(r, Rest(), ParsePostfix(primary, old(Rest())))
    {
      var e := primary;
      var t := PeekToken();
      while t.LBracket? || t.Offset? || t.At?
        invariant Valid() && t == Peek(Rest())
        invariant ParsePostfix(primary, old(Rest())) == ParsePostfix(e, Rest())
        decreases Size(Rest())
      {
        if t.LBracket? {
          e :- ParseBracket(e);
        } else if t.Offset? {
          Advance();
          var offset :- ExpectSignedDurationTokens();
          e :- ApplyOffset(e, offset);
        } else {
          Advance();
          var at :- ParseAtModifier();
          e :- ApplyAt(e, at);
        }
        t := PeekToken();
      }
      return Ok(e);
    }

    method ParseExpression(minPrec: nat) returns (r: Result<Expr, ParseError>)
      requires Valid()
      modifies this
      ensures Valid() && Agrees(r, Rest(), ParseExpr(regex, old(Rest()), minPrec))
      decreases Size(Rest()), 3
    {
      var lhs :- ParseUnaryExpression();
      r := ParseOperators(lhs, minPrec);
    }

    /** The operator loop of `parse_expr`, from its first operand on. */
    method ParseOperators(first: Expr, minPrec: nat) returns (r: Result<Expr, ParseError>)
      requires Valid()
      modifies this
      ensures Valid() && Agrees(r, Rest(), ParseBinaryLoop(regex, first, old(Rest()), minPrec))
      decreases Size(Rest()), 2
    {
      var lhs := first;
      var found := PeekBinaryOp();
      while found.Some? && Precedence(found.value) >= minPrec
        invariant Valid() && found == BinaryOpOf(Peek(Rest())) && Size(Rest()) <= Size(old(Rest()))
        invariant ParseBinaryLoop(regex, first, old(Rest()), minPrec) == ParseBinaryLoop(regex, lhs, Rest(), minPrec)
        decreases Size(Rest())
      {
        var op := found.value;
        ghost var before := Rest();
        Theorems.OperatorIsToken(before);
        Advance();
        var right := ParseRight(op);
        if right.Err? {
          Theorems.LoopFails(regex, lhs, op, before, minPrec);
          return Err(right.error);
        }
        var (returnBool, matching, rhs) := right.value;
        var next := Binary(op, lhs, rhs, returnBool, matching);
        Theorems.LoopStep(regex, next, before, Rest(), minPrec);
        lhs := next;
        found := PeekBinaryOp();
      }
      Theorems.LoopStops(regex, lhs, Rest(), minPrec);
      return Ok(lhs);
    }

    method PeekBinaryOp() returns (op: Option<BinaryOp>)
      requires Valid()
      ensures op == BinaryOpOf(Peek(Rest()))
    {
      var t := PeekToken();
      op := BinaryOpOf(t);
    }

    method ParseRight(op: BinaryOp) returns (r: Result<(bool, Option<VectorMatching>, Expr), ParseError>)
      requires Valid()
      modifies this
      ensures Valid() && Agrees(r, Rest(), ParseRightOperand(regex, op, old(Rest())))
      decreases Size(Rest()), 4
    {
      var modifiers :- ParseModifiers(op);
      var rhs :- ParseExpression(RightMin(op));
      return Ok((modifiers.0, modifiers.1, rhs));
    }

    method ParseUnaryExpression() returns (r: Result<Expr, ParseError>)
      requires Valid()
      modifies this
      ensures Valid() && Agrees(r, Rest(), ParseUnary(regex, old(Rest())))
      decreases Size(Rest()), 2
    {
      var t := PeekToken();
      if t.Plus? {
        Advance();
        var e :- ParseUnaryExpression();
        return Ok(Unary(Pos, e));
      }
      if t.Minus? {
        Advance();
        var e :- ParseUnaryExpression();
        return Ok(Unary(Neg, e));
      }
      var e :- ParsePrimaryExpression();
      r := ParsePostfixForms(e);
    }

    method ParsePrimaryExpression() returns (r: Result<Expr, ParseError>)
      requires Valid()
      modifies this
      ensures Valid() && Agrees(r, Rest(), ParsePrimary(regex, old(Rest())))
      decreases Size(Rest()), 1
    {
      var t := PeekToken();
      if t.Number? || t.InfKw? {
        Advance();
        return Ok(NumberLiteral(Num(false, if t.Number? then t.number else Infinity)));
      }
      if t.NanKw? {
        Advance();
        return Ok(NumberLiteral(NaN));
      }
      if t.String? {
        Advance();
        return Ok(StringLiteral(t.str));
      }
      if t.LParen? {
        Advance();
        var e :- ParseExpression(0);
        var _ :- ExpectToken(RParen);
        return Ok(Paren(e));
      }
      if t.LBrace? {
        r := ParseSelector(None);
        return;
      }
      if t.Ident? {
        Advance();
        r := ParseNamed(t.name);
        return;
      }
      return Err(UnexpectedToken);
    }

    /** The identifier cases of `parse_primary`, after the identifier itself. */
    method ParseNamed(name: string) returns (r: Result<Expr, ParseError>)
      requires Valid()
      modifies this
      ensures Valid() && Agrees(r, Rest(), ParsePrimary(regex, Tok(Ident(name), old(Rest()))))
      decreases Size(Rest()), 5
    {
      var next := PeekToken();
      var op := AggregationFromIdent(name);
      if op.Some? && StartsAggregation(next) {
        r := ParseAggregationExpression(op.value);
      } else if next.LParen? {
        r := ParseCallExpression(name);
      } else {
        r := ParseSelector(Some(name));
      }
    }

    method ParseAggregationExpression(op: AggregationOp) returns (r: Result<Expr, ParseError>)
      requires Valid()
      modifies this
      ensures Valid() && Agrees(r, Rest(), ParseAggregation(regex, op, old(Rest())))
      decreases Size(Rest()), 4
    {
      var grouping :- ParseGroupingClause();
      var _ :- ExpectToken(LParen);
      var args :- ParseAggregationArguments(op);
      if grouping.None? {
        grouping :- ParseGroupingClause();
      }
      return Ok(Aggregation(op, args.1, args.0, grouping));
    }

    method ParseAggregationArguments(op: AggregationOp) returns (r: Result<(Option<Expr>, Expr), ParseError>)
      requires Valid()
      modifies this
      ensures Valid() && Agrees(r, Rest(), ParseAggregationArgs(regex, op, old(Rest())))
      decreases Size(Rest()), 8
    {
      var param :- ParseAggregationParameter(op);
      var body :- ParseExpression(0);
      var _ :- ExpectToken(RParen);
      return Ok((param, body));
    }

    method ParseAggregationParameter(op: AggregationOp) returns (r: Result<Option<Expr>, ParseError>)
      requires Valid()
      modifies this
      ensures Valid() && Agrees(r, Rest(), ParseAggregationParam(regex, op, old(Rest())))
      decreases Size(Rest()), 7
    {
      if !TakesParam(op) {
        return Ok(None);
      }
      var param :- ParseExpression(0);
      var _ :- ExpectToken(Comma);
      return Ok(Some(param));
    }

    method ParseCallExpression(func: string) returns (r: Result<Expr, ParseError>)
      requires Valid()
      modifies this
      ensures Valid() && Agrees(r, Rest(), ParseCall(regex, func, old(Rest())))
      decreases Size(Rest()), 4
    {
      var _ :- ExpectToken(LParen);
      var args: seq<Expr> := [];
      var t := PeekToken();
      if !t.RParen? {
        args :- ParseArgumentLoop();
      }
      var _ :- ExpectToken(RParen);
      return Ok(Call(func, args));
    }

    method ParseArgumentLoop() returns (r: Result<seq<Expr>, ParseError>)
      requires Valid()
      modifies this
      ensures Valid() && Agrees(r, Rest(), ParseArgs(regex, [], old(Rest())))
      decreases Size(Rest()), 4
    {
      var args: seq<Expr> := [];
      while true
        invariant Valid() && Size(Rest()) <= Size(old(Rest()))
        invariant ParseArgs(regex, [], old(Rest())) == ParseArgs(regex, args, Rest())
        decreases Size(Rest())
      {
        var arg :- ParseExpression(0);
        args := args + [arg];
        var t := PeekToken();
        if !t.Comma? {
          return Ok(args);
        }
        Advance();
      }
    }
  }

  /** `merge_vector_matching`: folds one parsed clause into what has been gathered. */
  method MergeVectorMatching(matching: Option<VectorMatching>, parsed: VectorMatching)
    returns (r: Result<VectorMatching, ParseError>)
    ensures r == MergeMatching(matching, parsed)
  {
    if matching.None? {
      return Ok(parsed);
    }
    var current := matching.value;
    if !parsed.cardinality.OneToOne? {
      if !current.cardinality.OneToOne? {
        return Err(ParseFailure);
      }
      current := current.(cardinality := parsed.cardinality, includeLabels := parsed.includeLabels);
    } else {
      if current.labels != [] || current.on {
        return Err(ParseFailure);
      }
      current := current.(on := parsed.on, labels := parsed.labels);
    }
    for i := 0 to |current.labels|
      invariant forall j :: 0 <= j < i ==> current.labels[j] !in current.includeLabels
    {
      if current.labels[i] in current.includeLabels {
        return Err(ParseFailure);
      }
    }
    return Ok(current);
  }

  /** `has_non_empty_matcher`: stops at the first matcher that rejects the empty string. */
  method FindNonEmptyMatcher(regex: Regex, matchers: seq<LabelMatcher>) returns (r: Option<bool>)
    ensures r == HasNonEmptyMatcher(regex, matchers)
  {
    for i := 0 to |matchers|
      invariant HasNonEmptyMatcher(regex, matchers) == HasNonEmptyMatcher(regex, matchers[i..])
    {
      var empty := MatchesEmpty(regex, matchers[i]);
      if empty.None? {
        return None;
      }
      if !empty.value {
        return Some(true);
      }
      assert matchers[i..][1..] == matchers[i + 1..];
    }
    return Some(false);
  }

  /**
   `parse`: the tree it accepts is well formed and is the one its own printed form denotes,
   and it accepts the printed form of every well-formed tree.
   */
  method ParseTokens(regex: Regex, tokens: seq<Token>) returns (r: Result<Expr, ParseError>)
    requires tokens != [] && tokens[|tokens| - 1].Eof?
    ensures r == Parse(regex, From(tokens, 0))
    ensures r.Ok? ==> WellFormed(regex, r.value)
    ensures forall e :: WellFormed(regex, e) && From(tokens, 0) == Print(regex, e, Tok(Eof, End)) ==> r == Ok(e)
  {
    var parser := new Parser(regex, tokens);
    var e := parser.ParseExpression(0);
    if e.Err? {
      r := Err(e.error);
    } else {
      var t := parser.PeekToken();
      r := if t.Eof? then e else Err(UnexpectedToken);
    }
    Theorems.ParseSound(regex, From(tokens, 0));
    forall e | WellFormed(regex, e) && From(tokens, 0) == Print(regex, e, Tok(Eof, End))
      ensures r == Ok(e)
    {
      Theorems.ParsePrinted(regex, e);
    }
  }
}
