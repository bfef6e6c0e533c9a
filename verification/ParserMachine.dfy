/** The parser as the program runs it: one cursor and one depth counter, moved by every nonterminal. */
module ParserMachine {
  import opened Syntax
  import opened Options
  import opened Parser
  import Lexer

  class Cursor {
    const tokens: seq<Token>
    var cursor: nat
    var depth: nat

    ghost predicate Ready()
      reads this
    {
      At(tokens, cursor)
    }

    /** The machine answered what the specification answers, and stands where it says. */
    ghost predicate Agrees<T>(r: Result<T>, wanted: Parse<T>)
      reads this
    {
      match wanted
      case Fail(e) => r == Err(e)
      case Done(value, next) => r == Ok(value) && cursor == next
    }

    constructor (tokens: seq<Token>)
      ensures this.tokens == tokens && cursor == 0 && depth == 0
    {
      this.tokens := tokens;
      cursor, depth := 0, 0;
    }

    method Take() returns (t: Token)
      requires cursor < |tokens|
      modifies this`cursor
      ensures t == tokens[old(cursor)] && cursor == old(cursor) + 1
    {
      t := tokens[cursor];
      cursor := cursor + 1;
    }

    method ParseOr() returns (r: Result<Node>)
      requires Ready()
      modifies this
      ensures Agrees(r, POr(tokens, old(cursor), old(depth))) && depth == old(depth)
      decreases |tokens| - cursor, 9
    {
      depth := depth + 1;
      if depth > MAX_DEPTH {
        depth := depth - 1;
        return Err(ExpressionError(TooDeep, tokens[cursor].position));
      }
      r := ParseAnd();
      while r.Ok? && IsOp(tokens[cursor], "||")
        invariant depth == old(depth) + 1
        invariant r.Ok? ==>
                  Ready() && old(cursor) < cursor &&
                      POr(tokens, old(cursor), old(depth)) == OrLoop(tokens, cursor, depth, r.value)
        invariant r.Err? ==> POr(tokens, old(cursor), old(depth)) == Fail(r.error)
        decreases r.Ok?, |tokens| - cursor
      {
        var _ := Take();
        var right := ParseAnd();
        r := if right.Err? then right else Ok(Binary(Or, r.value, right.value));
      }
      depth := depth - 1;
    }

    method ParseAnd() returns (r: Result<Node>)
      requires Ready()
      modifies this
      ensures Agrees(r, PAnd(tokens, old(cursor), old(depth))) && depth == old(depth)
      decreases |tokens| - cursor, 8
    {
      r := ParseNot();
      while r.Ok? && IsOp(tokens[cursor], "&&")
        invariant depth == old(depth)
        invariant r.Ok? ==>
                  Ready() && old(cursor) < cursor &&
                      PAnd(tokens, old(cursor), depth) == AndLoop(tokens, cursor, depth, r.value)
        invariant r.Err? ==> PAnd(tokens, old(cursor), depth) == Fail(r.error)
        decreases r.Ok?, |tokens| - cursor
      {
        var _ := Take();
        var right := ParseNot();
        r := if right.Err? then right else Ok(Binary(And, r.value, right.value));
      }
    }

    method ParseNot() returns (r: Result<Node>)
      requires Ready()
      modifies this
      ensures Agrees(r, PNot(tokens, old(cursor), old(depth))) && depth == old(depth)
      decreases |tokens| - cursor, 7
    {
      if IsOp(tokens[cursor], "!") {
        var _ := Take();
        depth := depth + 1;
        if depth > MAX_DEPTH {
          depth := depth - 1;
          return Err(ExpressionError(TooDeep, tokens[cursor].position));
        }
        r := ParseNot();
        depth := depth - 1;
        if r.Ok? { r := Ok(Unary(Not, r.value)); }
      } else {
        r := ParseComparison();
      }
    }

    method ParseComparison() returns (r: Result<Node>)
      requires Ready()
      modifies this
      ensures Agrees(r, PComparison(tokens, old(cursor), old(depth))) && depth == old(depth)
      decreases |tokens| - cursor, 6
    {
      var left := ParseSum();
      if left.Err? { return left; }
      var relation := RelationOf(tokens[cursor]);
      if relation.Some? {
        var _ := Take();
        r := ParseSum();
        if r.Ok? { r := Ok(Binary(Relate(relation.value), left.value, r.value)); }
        return;
      }
      if IsWord(tokens[cursor], "in") {
        var _ := Take();
        r := ParseSum();
        if r.Ok? { r := Ok(Binary(Relate(In), left.value, r.value)); }
        return;
      }
      if IsNotIn(tokens, cursor) {
        var _ := Take();
        var _ := Take();
        r := ParseSum();
        if r.Ok? { r := Ok(Unary(Not, Binary(Relate(In), left.value, r.value))); }
        return;
      }
      return left;
    }

    method ParseSum() returns (r: Result<Node>)
      requires Ready()
      modifies this
      ensures Agrees(r, PSum(tokens, old(cursor), old(depth))) && depth == old(depth)
      decreases |tokens| - cursor, 5
    {
      r := ParseProduct();
      while r.Ok? && SumOpOf(tokens[cursor]).Some?
        invariant depth == old(depth)
        invariant r.Ok? ==>
                  Ready() && old(cursor) < cursor &&
                      PSum(tokens, old(cursor), depth) == SumLoop(tokens, cursor, depth, r.value)
        invariant r.Err? ==> PSum(tokens, old(cursor), depth) == Fail(r.error)
        decreases r.Ok?, |tokens| - cursor
      {
        var op := Take();
        var right := ParseProduct();
        r := if right.Err? then right else Ok(Binary(Additive(SumOpOf(op).value), r.value, right.value));
      }
    }

    method ParseProduct() returns (r: Result<Node>)
      requires Ready()
      modifies this
      ensures Agrees(r, PProduct(tokens, old(cursor), old(depth))) && depth == old(depth)
      decreases |tokens| - cursor, 4
    {
      r := ParseUnary();
      while r.Ok? && ProductOpOf(tokens[cursor]).Some?
        invariant depth == old(depth)
        invariant r.Ok? ==>
                  Ready() && old(cursor) < cursor &&
                      PProduct(tokens, old(cursor), depth) == ProductLoop(tokens, cursor, depth, r.value)
        invariant r.Err? ==> PProduct(tokens, old(cursor), depth) == Fail(r.error)
        decreases r.Ok?, |tokens| - cursor
      {
        var op := Take();
        var right := ParseUnary();
        r := if right.Err? then right else Ok(Binary(Multiplicative(ProductOpOf(op).value), r.value, right.value));
      }
    }

    method ParseUnary() returns (r: Result<Node>)
      requires Ready()
      modifies this
      ensures Agrees(r, PUnary(tokens, old(cursor), old(depth))) && depth == old(depth)
      decreases |tokens| - cursor, 3
    {
      if IsOp(tokens[cursor], "-") {
        var _ := Take();
        depth := depth + 1;
        if depth > MAX_DEPTH {
          depth := depth - 1;
          return Err(ExpressionError(TooDeep, tokens[cursor].position));
        }
        r := ParseUnary();
        depth := depth - 1;
        if r.Ok? { r := Ok(Unary(Negate, r.value)); }
      } else {
        r := ParsePrimary();
      }
    }

    method ParseItems(close: string) returns (r: Result<seq<Node>>)
      requires Ready()
      modifies this
      ensures Agrees(r, PItems(tokens, old(cursor), old(depth), close)) && depth == old(depth)
      decreases |tokens| - cursor, 10
    {
      var items: seq<Node> := [];
      if !IsOp(tokens[cursor], close) {
        var item := ParseOr();
        if item.Err? { return Err(item.error); }
        items := [item.value];
        while IsOp(tokens[cursor], ",")
          invariant depth == old(depth) && Ready() && old(cursor) < cursor
          invariant PItems(tokens, old(cursor), depth, close) == ItemsLoop(tokens, cursor, depth, close, items)
          decreases |tokens| - cursor
        {
          var _ := Take();
          item := ParseOr();
          if item.Err? { return Err(item.error); }
          items := items + [item.value];
        }
        if !IsOp(tokens[cursor], close) { return Err(ExpressionError(Expected(close), tokens[cursor].position)); }
      }
      var _ := Take();
      return Ok(items);
    }

    method ParsePath(head: string) returns (r: Result<Node>)
      requires Ready()
      modifies this`cursor
      ensures Agrees(r, PathLoop(tokens, old(cursor), [head]))
    {
      var path := [head];
      while IsOp(tokens[cursor], ".")
        invariant Ready()
        invariant PathLoop(tokens, old(cursor), [head]) == PathLoop(tokens, cursor, path)
        decreases |tokens| - cursor
      {
        var _ := Take();
        var part := Take();
        if part.lexeme.kind != Word && part.lexeme.kind != Num {
          return Err(ExpressionError(ExpectedName, part.position));
        }
        path := path + [part.lexeme.value];
      }
      return Ok(Name(path));
    }

    method ParsePrimary() returns (r: Result<Node>)
      requires Ready()
      modifies this
      ensures Agrees(r, PPrimary(tokens, old(cursor), old(depth))) && depth == old(depth)
      decreases |tokens| - cursor, 2
    {
      var token := Take();
      var value := token.lexeme.value;
      match token.lexeme.kind {
        case Num => return Ok(Lit(LNum(NumberValue(value))));
        case Str => return Ok(Lit(LText(value)));
        case Op =>
          if value == "(" {
            r := ParseOr();
            if r.Err? { return; }
            if !IsOp(tokens[cursor], ")") { return Err(ExpressionError(Expected(")"), tokens[cursor].position)); }
            var _ := Take();
            return;
          }
          if value == "[" {
            var items := ParseItems("]");
            return if items.Err? then Err(items.error) else Ok(List(items.value));
          }
        case Word =>
          if value == "true" { return Ok(Lit(LBool(true))); }
          if value == "false" { return Ok(Lit(LBool(false))); }
          if value == "null" { return Ok(Lit(LNull)); }
          if IsOp(tokens[cursor], "(") {
            var _ := Take();
            if value !in FUNCTIONS { return Err(ExpressionError(UnknownFunction(value), token.position)); }
            var args := ParseItems(")");
            return if args.Err? then Err(args.error) else Ok(Call(value, args.value, token.position));
          }
          r := ParsePath(value);
          return;
        case End =>
      }
      return Err(Unexpected(token));
    }
  }

  method Parse(source: string) returns (r: Result<Node>)
    ensures r == ParseSource(source)
  {
    var tokens := Lexer.Tokenize(source);
    if tokens.Err? { return Err(tokens.error); }
    Lexer.LexWithin(source, 0);
    var parser := new Cursor(tokens.value);
    r := parser.ParseOr();
    if r.Err? { return; }
    var rest := parser.tokens[parser.cursor];
    if rest.lexeme.kind != End { return Err(ExpressionError(UnexpectedToken(rest.lexeme.value), rest.position)); }
  }
}
