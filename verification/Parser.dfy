/** The recursive-descent parser: what each nonterminal answers, and the cursor machine that computes it. */
module Parser {
  import opened Syntax
  import opened Options
  import Lexer

  /** A nonterminal either gives a value and the index of the next token, or an error. */
  datatype Parse<+T> = Done(value: T, next: nat) | Fail(error: ExpressionError)

  predicate IsOp(t: Token, text: string) { t.lexeme == Lexeme(Op, text) }

  predicate IsWord(t: Token, text: string) { t.lexeme == Lexeme(Word, text) }

  function RelationOf(t: Token): Option<Relation>
  {
    if t.lexeme.kind == Op then
      (match t.lexeme.value
       case "==" => Some(Eq) case "!=" => Some(Ne) case "<=" => Some(Le) case ">=" => Some(Ge)
       case "<" => Some(Lt) case ">" => Some(Gt) case _ => None)
    else None
  }

  function SumOpOf(t: Token): Option<SumOp>
  {
    if IsOp(t, "+") then Some(Plus) else if IsOp(t, "-") then Some(Minus) else None
  }

  function ProductOpOf(t: Token): Option<ProductOp>
  {
    if IsOp(t, "*") then Some(Times) else if IsOp(t, "/") then Some(Over) else None
  }

  predicate IsNotIn(ts: seq<Token>, at: nat)
    requires at < |ts|
  {
    IsWord(ts[at], "not") && at + 1 < |ts| && IsWord(ts[at + 1], "in")
  }

  // ---- the numbers that literals stand for ----------------------------------------------------

  function FractionValue(w: string): real
  {
    if w == "" then 0.0
    else ((if Lexer.IsDigit(w[0]) then w[0] as nat - '0' as nat else 0) as real + FractionValue(w[1..])) / 10.0
  }

  /** The decimal number a digit text with an optional fraction stands for. */
  function NumberValue(w: string): real
  {
    var whole := Lexer.DigitsEnd(w, 0);
    Lexer.WholeValue(w[..whole]) as real + (if whole < |w| then FractionValue(w[whole + 1..]) else 0.0)
  }

  // ---- what each nonterminal answers ----------------------------------------------------------

  ghost predicate At(ts: seq<Token>, at: nat) { Lexer.Ended(ts) && at < |ts| }

  /** The position of some token from `at` on. */
  ghost predicate Blames(ts: seq<Token>, at: nat, e: ExpressionError)
  {
    exists i :: at <= i < |ts| && ts[i].position == e.position
  }

  function Unexpected(t: Token): ExpressionError
  {
    ExpressionError(if t.lexeme.kind == End then EndsUnexpectedly else UnexpectedToken(t.lexeme.value), t.position)
  }

  function POr(ts: seq<Token>, at: nat, depth: int): (r: Parse<Node>)
    requires At(ts, at)
    ensures r.Done? ==> at < r.next < |ts|
    ensures r.Fail? ==> Blames(ts, at, r.error)
    decreases |ts| - at, 9
  {
    if depth + 1 > MAX_DEPTH then Fail(ExpressionError(TooDeep, ts[at].position))
    else
      match PAnd(ts, at, depth + 1)
      case Fail(e) => Fail(e)
      case Done(left, next) => OrLoop(ts, next, depth + 1, left)
  }

  function OrLoop(ts: seq<Token>, at: nat, depth: int, left: Node): (r: Parse<Node>)
    requires At(ts, at)
    ensures r.Done? ==> at <= r.next < |ts|
    ensures r.Fail? ==> Blames(ts, at, r.error)
    decreases |ts| - at, 0
  {
    if IsOp(ts[at], "||") then
      match PAnd(ts, at + 1, depth)
      case Fail(e) => Fail(e)
      case Done(right, next) => OrLoop(ts, next, depth, Binary(Or, left, right))
    else Done(left, at)
  }

  function PAnd(ts: seq<Token>, at: nat, depth: int): (r: Parse<Node>)
    requires At(ts, at)
    ensures r.Done? ==> at < r.next < |ts|
    ensures r.Fail? ==> Blames(ts, at, r.error)
    decreases |ts| - at, 8
  {
    match PNot(ts, at, depth)
    case Fail(e) => Fail(e)
    case Done(left, next) => AndLoop(ts, next, depth, left)
  }

  function AndLoop(ts: seq<Token>, at: nat, depth: int, left: Node): (r: Parse<Node>)
    requires At(ts, at)
    ensures r.Done? ==> at <= r.next < |ts|
    ensures r.Fail? ==> Blames(ts, at, r.error)
    decreases |ts| - at, 0
  {
    if IsOp(ts[at], "&&") then
      match PNot(ts, at + 1, depth)
      case Fail(e) => Fail(e)
      case Done(right, next) => AndLoop(ts, next, depth, Binary(And, left, right))
    else Done(left, at)
  }

  function PNot(ts: seq<Token>, at: nat, depth: int): (r: Parse<Node>)
    requires At(ts, at)
    ensures r.Done? ==> at < r.next < |ts|
    ensures r.Fail? ==> Blames(ts, at, r.error)
    decreases |ts| - at, 7
  {
    if IsOp(ts[at], "!") then
      if depth + 1 > MAX_DEPTH then Fail(ExpressionError(TooDeep, ts[at + 1].position))
      else
        match PNot(ts, at + 1, depth + 1)
        case Fail(e) => Fail(e)
        case Done(arg, next) => Done(Unary(Not, arg), next)
    else PComparison(ts, at, depth)
  }

  function PComparison(ts: seq<Token>, at: nat, depth: int): (r: Parse<Node>)
    requires At(ts, at)
    ensures r.Done? ==> at < r.next < |ts|
    ensures r.Fail? ==> Blames(ts, at, r.error)
    decreases |ts| - at, 6
  {
    match PSum(ts, at, depth)
    case Fail(e) => Fail(e)
    case Done(left, next) =>
      if RelationOf(ts[next]).Some? then
        match PSum(ts, next + 1, depth)
        case Fail(e) => Fail(e)
        case Done(right, after) => Done(Binary(Relate(RelationOf(ts[next]).value), left, right), after)
      else if IsWord(ts[next], "in") then
        match PSum(ts, next + 1, depth)
        case Fail(e) => Fail(e)
        case Done(right, after) => Done(Binary(Relate(In), left, right), after)
      else if IsNotIn(ts, next) then
        match PSum(ts, next + 2, depth)
        case Fail(e) => Fail(e)
        case Done(right, after) => Done(Unary(Not, Binary(Relate(In), left, right)), after)
      else Done(left, next)
  }

  function PSum(ts: seq<Token>, at: nat, depth: int): (r: Parse<Node>)
    requires At(ts, at)
    ensures r.Done? ==> at < r.next < |ts|
    ensures r.Fail? ==> Blames(ts, at, r.error)
    decreases |ts| - at, 5
  {
    match PProduct(ts, at, depth)
    case Fail(e) => Fail(e)
    case Done(left, next) => SumLoop(ts, next, depth, left)
  }

  function SumLoop(ts: seq<Token>, at: nat, depth: int, left: Node): (r: Parse<Node>)
    requires At(ts, at)
    ensures r.Done? ==> at <= r.next < |ts|
    ensures r.Fail? ==> Blames(ts, at, r.error)
    decreases |ts| - at, 0
  {
    if SumOpOf(ts[at]).Some? then
      match PProduct(ts, at + 1, depth)
      case Fail(e) => Fail(e)
      case Done(right, next) => SumLoop(ts, next, depth, Binary(Additive(SumOpOf(ts[at]).value), left, right))
    else Done(left, at)
  }

  function PProduct(ts: seq<Token>, at: nat, depth: int): (r: Parse<Node>)
    requires At(ts, at)
    ensures r.Done? ==> at < r.next < |ts|
    ensures r.Fail? ==> Blames(ts, at, r.error)
    decreases |ts| - at, 4
  {
    match PUnary(ts, at, depth)
    case Fail(e) => Fail(e)
    case Done(left, next) => ProductLoop(ts, next, depth, left)
  }

  function ProductLoop(ts: seq<Token>, at: nat, depth: int, left: Node): (r: Parse<Node>)
    requires At(ts, at)
    ensures r.Done? ==> at <= r.next < |ts|
    ensures r.Fail? ==> Blames(ts, at, r.error)
    decreases |ts| - at, 0
  {
    if ProductOpOf(ts[at]).Some? then
      match PUnary(ts, at + 1, depth)
      case Fail(e) => Fail(e)
      case Done(right, next) =>
        ProductLoop(ts, next, depth, Binary(Multiplicative(ProductOpOf(ts[at]).value), left, right))
    else Done(left, at)
  }

  function PUnary(ts: seq<Token>, at: nat, depth: int): (r: Parse<Node>)
    requires At(ts, at)
    ensures r.Done? ==> at < r.next < |ts|
    ensures r.Fail? ==> Blames(ts, at, r.error)
    decreases |ts| - at, 3
  {
    if IsOp(ts[at], "-") then
      if depth + 1 > MAX_DEPTH then Fail(ExpressionError(TooDeep, ts[at + 1].position))
      else
        match PUnary(ts, at + 1, depth + 1)
        case Fail(e) => Fail(e)
        case Done(arg, next) => Done(Unary(Negate, arg), next)
    else PPrimary(ts, at, depth)
  }

  /** The items of a list or call, from just after its opening bracket to just after its closing one. */
  function PItems(ts: seq<Token>, at: nat, depth: int, close: string): (r: Parse<seq<Node>>)
    requires At(ts, at)
    ensures r.Done? ==> at < r.next < |ts|
    ensures r.Fail? ==> Blames(ts, at, r.error)
    decreases |ts| - at, 10
  {
    if IsOp(ts[at], close) then Done([], at + 1)
    else
      match POr(ts, at, depth)
      case Fail(e) => Fail(e)
      case Done(item, next) => ItemsLoop(ts, next, depth, close, [item])
  }

  function ItemsLoop(ts: seq<Token>, at: nat, depth: int, close: string, items: seq<Node>): (r: Parse<seq<Node>>)
    requires At(ts, at)
    ensures r.Done? ==> at < r.next < |ts|
    ensures r.Fail? ==> Blames(ts, at, r.error)
    decreases |ts| - at, 0
  {
    if IsOp(ts[at], ",") then
      match POr(ts, at + 1, depth)
      case Fail(e) => Fail(e)
      case Done(item, next) => ItemsLoop(ts, next, depth, close, items + [item])
    else if IsOp(ts[at], close) then Done(items, at + 1)
    else Fail(ExpressionError(Expected(close), ts[at].position))
  }

  function PathLoop(ts: seq<Token>, at: nat, path: seq<string>): (r: Parse<Node>)
    requires At(ts, at)
    ensures r.Done? ==> at <= r.next < |ts|
    ensures r.Fail? ==> Blames(ts, at, r.error)
    decreases |ts| - at
  {
    if IsOp(ts[at], ".") then
      if ts[at + 1].lexeme.kind == Word || ts[at + 1].lexeme.kind == Num
      then PathLoop(ts, at + 2, path + [ts[at + 1].lexeme.value])
      else Fail(ExpressionError(ExpectedName, ts[at + 1].position))
    else Done(Name(path), at)
  }

  function PPrimary(ts: seq<Token>, at: nat, depth: int): (r: Parse<Node>)
    requires At(ts, at)
    ensures r.Done? ==> at < r.next < |ts|
    ensures r.Fail? ==> Blames(ts, at, r.error)
    decreases |ts| - at, 2
  {
    var t := ts[at];
    match t.lexeme.kind
    case Num => Done(Lit(LNum(NumberValue(t.lexeme.value))), at + 1)
    case Str => Done(Lit(LText(t.lexeme.value)), at + 1)
    case Op =>
      if IsOp(t, "(") then
        match POr(ts, at + 1, depth)
        case Fail(e) => Fail(e)
        case Done(inner, next) =>
          if IsOp(ts[next], ")") then Done(inner, next + 1) else Fail(ExpressionError(Expected(")"), ts[next].position))
      else if IsOp(t, "[") then
        match PItems(ts, at + 1, depth, "]")
        case Fail(e) => Fail(e)
        case Done(items, next) => Done(List(items), next)
      else Fail(Unexpected(t))
    case Word =>
      if t.lexeme.value == "true" then Done(Lit(LBool(true)), at + 1)
      else if t.lexeme.value == "false" then Done(Lit(LBool(false)), at + 1)
      else if t.lexeme.value == "null" then Done(Lit(LNull), at + 1)
      else if IsOp(ts[at + 1], "(") then
        if t.lexeme.value !in FUNCTIONS then Fail(ExpressionError(UnknownFunction(t.lexeme.value), t.position))
        else
          match PItems(ts, at + 2, depth, ")")
          case Fail(e) => Fail(e)
          case Done(args, next) => Done(Call(t.lexeme.value, args, t.position), next)
      else PathLoop(ts, at + 1, [t.lexeme.value])
    case End => Fail(Unexpected(t))
  }

  /** What parsing a whole token list answers. */
  function ParseTokens(ts: seq<Token>): Result<Node>
    requires Lexer.Ended(ts)
  {
    match POr(ts, 0, 0)
    case Fail(e) => Err(e)
    case Done(root, next) =>
      if ts[next].lexeme.kind == End then Ok(root)
      else Err(ExpressionError(UnexpectedToken(ts[next].lexeme.value), ts[next].position))
  }

  /** What parsing a source text answers. */
  function ParseSource(source: string): Result<Node>
  {
    match Lexer.LexFrom(source, 0)
    case Err(e) => Err(e)
    case Ok(ts) => Lexer.LexWithin(source, 0); ParseTokens(ts)
  }
}
