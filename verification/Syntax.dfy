/** A value that may be missing. */
module Options {
  datatype Option<+T> = None | Some(value: T)
}

/** Tokens and trees of the rule expression language. */
module Syntax {
  import opened Options

  datatype Kind = Num | Str | Word | Op | End

  /** What a token says, without where it stands. */
  datatype Lexeme = Lexeme(kind: Kind, value: string)

  datatype Token = Token(lexeme: Lexeme, position: nat)

  datatype Problem =
    | MissingQuote
    | UnexpectedCharacter(c: char)
    | Expected(text: string)
    | TooDeep
    | UnknownFunction(name: string)
    | ExpectedName
    | EndsUnexpectedly
    | UnexpectedToken(value: string)
    | WrongArity(name: string)
    | EmptySource
    | TooLong

  datatype ExpressionError = ExpressionError(problem: Problem, position: nat)

  datatype Result<+T> = Ok(value: T) | Err(error: ExpressionError)

  datatype Literal = LNum(number: real) | LText(text: string) | LBool(flag: bool) | LNull

  datatype Relation = Eq | Ne | Le | Ge | Lt | Gt | In
  datatype SumOp = Plus | Minus
  datatype ProductOp = Times | Over
  datatype BinaryOp =
    | Or
    | And
    | Relate(relation: Relation)
    | Additive(sumOp: SumOp)
    | Multiplicative(productOp: ProductOp)
  datatype UnaryOp = Not | Negate

  datatype Node =
    | Lit(literal: Literal)
    | Name(path: seq<string>)
    | List(items: seq<Node>)
    | Unary(op: UnaryOp, arg: Node)
    | Binary(binary: BinaryOp, left: Node, right: Node)
    | Call(name: string, args: seq<Node>, position: nat)

  const MAX_LENGTH: nat := 1000
  const MAX_DEPTH: nat := 40

  datatype Arity = Arity(min: nat, max: nat)

  /** The functions of the language with the number of values each takes. */
  const FUNCTIONS: map<string, Arity> := map[
    "count" := Arity(1, 1), "sum" := Arity(2, 2), "lookup" := Arity(3, 3), "isSet" := Arity(1, 1),
    "isEmpty" := Arity(1, 1), "len" := Arity(1, 1), "min" := Arity(1, 20), "max" := Arity(1, 20),
    "abs" := Arity(1, 1), "round" := Arity(1, 2), "lower" := Arity(1, 1), "upper" := Arity(1, 1),
    "contains" := Arity(2, 2), "startsWith" := Arity(2, 2), "number" := Arity(1, 1), "today" := Arity(0, 0),
    "daysBetween" := Arity(2, 2)]

  /** The tree with the source positions of its calls erased. */
  function Shape(t: Node): Node
  {
    match t
    case Lit(_) => t
    case Name(_) => t
    case List(items) => List(seq(|items|, i requires 0 <= i < |items| => Shape(items[i])))
    case Unary(op, arg) => Unary(op, Shape(arg))
    case Binary(op, left, right) => Binary(op, Shape(left), Shape(right))
    case Call(name, args, _) => Call(name, seq(|args|, i requires 0 <= i < |args| => Shape(args[i])), 0)
  }

  function Shapes(ts: seq<Node>): seq<Node> { seq(|ts|, i requires 0 <= i < |ts| => Shape(ts[i])) }

  /** Number of nodes of a tree. */
  function Size(t: Node): nat
    decreases t, 0
  {
    match t
    case Lit(_) => 1
    case Name(_) => 1
    case List(items) => 1 + Sizes(items)
    case Unary(_, arg) => 1 + Size(arg)
    case Binary(_, left, right) => 1 + Size(left) + Size(right)
    case Call(_, args, _) => 1 + Sizes(args)
  }

  function Sizes(ts: seq<Node>): nat
    decreases ts, 1
  {
    if ts == [] then 0 else Size(ts[0]) + Sizes(ts[1..])
  }
}
