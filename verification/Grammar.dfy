/**
 * The grammar of the rule language as derivation trees, independent of any parsing strategy: what a derivation
 * spells, which tree it stands for, and how deeply it nests. The parser accepts exactly the derivations that
 * nest at most MAX_DEPTH deep.
 */
module Grammar {
  import opened Syntax
  import opened Parser
  import Lexer

  datatype OrE = OrE(first: AndE, rest: OrTail)
  datatype OrTail = OrEnd | OrMore(next: AndE, rest: OrTail)
  datatype AndE = AndE(first: NotE, rest: AndTail)
  datatype AndTail = AndEnd | AndMore(next: NotE, rest: AndTail)
  datatype NotE = Bang(arg: NotE) | Plain(comparison: CompareE)
  datatype CompareE =
    | Bare(sum: SumE)
    | Compare(relation: Relation, left: SumE, right: SumE)
    | NotIn(left: SumE, right: SumE)
  datatype SumE = SumE(first: ProductE, rest: SumTail)
  datatype SumTail = SumEnd | SumMore(op: SumOp, next: ProductE, rest: SumTail)
  datatype ProductE = ProductE(first: UnaryE, rest: ProductTail)
  datatype ProductTail = ProductEnd | ProductMore(op: ProductOp, next: UnaryE, rest: ProductTail)
  datatype UnaryE = Minus(arg: UnaryE) | Primary(primary: PrimaryE)
  datatype PrimaryE =
    | NumberE(text: string)
    | TextE(text: string)
    | Keyword(literal: Literal)
    | Paren(inner: OrE)
    | ListE(items: Items)
    | CallE(name: string, args: Items)
    | PathE(head: string, parts: Parts)
  datatype Items = NoItems | SomeItems(first: OrE, rest: ItemTail)
  datatype ItemTail = ItemEnd | ItemMore(next: OrE, rest: ItemTail)
  datatype Parts = PartEnd | PartMore(part: Lexeme, rest: Parts)

  // ---- what a derivation spells ---------------------------------------------------------------

  function Sym(text: string): Lexeme { Lexeme(Op, text) }

  function Wrd(text: string): Lexeme { Lexeme(Word, text) }

  function RelationLexeme(r: Relation): Lexeme
  {
    match r
    case Eq => Sym("==") case Ne => Sym("!=") case Le => Sym("<=") case Ge => Sym(">=")
    case Lt => Sym("<") case Gt => Sym(">") case In => Wrd("in")
  }

  function SumLexeme(op: SumOp): Lexeme { Sym(if op == Plus then "+" else "-") }

  function ProductLexeme(op: ProductOp): Lexeme { Sym(if op == Times then "*" else "/") }

  function KeywordText(l: Literal): string
  {
    match l case LBool(true) => "true" case LBool(false) => "false" case _ => "null"
  }

  /** Nonempty, and not starting with a closing bracket. */
  predicate Opens(ys: seq<Lexeme>) { |ys| > 0 && ys[0] != Sym(")") && ys[0] != Sym("]") }

  function YOr(e: OrE): (r: seq<Lexeme>)
    ensures Opens(r)
  { YAnd(e.first) + YOrTail(e.rest) }

  function YOrTail(t: OrTail): seq<Lexeme>
  {
    match t case OrEnd => [] case OrMore(e, rest) => [Sym("||")] + YAnd(e) + YOrTail(rest)
  }

  function YAnd(e: AndE): (r: seq<Lexeme>)
    ensures Opens(r)
  { YNot(e.first) + YAndTail(e.rest) }

  function YAndTail(t: AndTail): seq<Lexeme>
  {
    match t case AndEnd => [] case AndMore(e, rest) => [Sym("&&")] + YNot(e) + YAndTail(rest)
  }

  function YNot(e: NotE): (r: seq<Lexeme>)
    ensures Opens(r)
  {
    match e case Bang(arg) => [Sym("!")] + YNot(arg) case Plain(c) => YCompare(c)
  }

  function YCompare(e: CompareE): (r: seq<Lexeme>)
    ensures Opens(r)
  {
    match e
    case Bare(s) => YSum(s)
    case Compare(r, left, right) => YSum(left) + [RelationLexeme(r)] + YSum(right)
    case NotIn(left, right) => YSum(left) + [Wrd("not"), Wrd("in")] + YSum(right)
  }

  function YSum(e: SumE): (r: seq<Lexeme>)
    ensures Opens(r)
  { YProduct(e.first) + YSumTail(e.rest) }

  function YSumTail(t: SumTail): seq<Lexeme>
  {
    match t case SumEnd => [] case SumMore(op, e, rest) => [SumLexeme(op)] + YProduct(e) + YSumTail(rest)
  }

  function YProduct(e: ProductE): (r: seq<Lexeme>)
    ensures Opens(r)
  { YUnary(e.first) + YProductTail(e.rest) }

  function YProductTail(t: ProductTail): seq<Lexeme>
  {
    match t case ProductEnd => [] case ProductMore(op, e, rest) => [ProductLexeme(op)] + YUnary(e) + YProductTail(rest)
  }

  function YUnary(e: UnaryE): (r: seq<Lexeme>)
    ensures Opens(r)
  {
    match e case Minus(arg) => [Sym("-")] + YUnary(arg) case Primary(p) => YPrimary(p)
  }

  function YPrimary(e: PrimaryE): (r: seq<Lexeme>)
    ensures Opens(r)
  {
    match e
    case NumberE(text) => [Lexeme(Num, text)]
    case TextE(text) => [Lexeme(Str, text)]
    case Keyword(l) => [Wrd(KeywordText(l))]
    case Paren(inner) => [Sym("(")] + YOr(inner) + [Sym(")")]
    case ListE(items) => [Sym("[")] + YItems(items) + [Sym("]")]
    case CallE(name, args) => [Wrd(name), Sym("(")] + YItems(args) + [Sym(")")]
    case PathE(head, parts) => [Wrd(head)] + YParts(parts)
  }

  function YItems(e: Items): seq<Lexeme>
  {
    match e case NoItems => [] case SomeItems(first, rest) => YOr(first) + YItemTail(rest)
  }

  function YItemTail(t: ItemTail): seq<Lexeme>
  {
    match t case ItemEnd => [] case ItemMore(e, rest) => [Sym(",")] + YOr(e) + YItemTail(rest)
  }

  function YParts(t: Parts): seq<Lexeme>
  {
    match t case PartEnd => [] case PartMore(part, rest) => [Sym("."), part] + YParts(rest)
  }

  // ---- which tree a derivation stands for -----------------------------------------------------

  function TOr(e: OrE): Node { TOrTail(TAnd(e.first), e.rest) }

  function TOrTail(left: Node, t: OrTail): Node
    decreases t
  {
    match t case OrEnd => left case OrMore(e, rest) => TOrTail(Binary(Or, left, TAnd(e)), rest)
  }

  function TAnd(e: AndE): Node { TAndTail(TNot(e.first), e.rest) }

  function TAndTail(left: Node, t: AndTail): Node
    decreases t
  {
    match t case AndEnd => left case AndMore(e, rest) => TAndTail(Binary(And, left, TNot(e)), rest)
  }

  function TNot(e: NotE): Node
  {
    match e case Bang(arg) => Unary(Not, TNot(arg)) case Plain(c) => TCompare(c)
  }

  function TCompare(e: CompareE): Node
  {
    match e
    case Bare(s) => TSum(s)
    case Compare(r, left, right) => Binary(Relate(r), TSum(left), TSum(right))
    case NotIn(left, right) => Unary(Not, Binary(Relate(In), TSum(left), TSum(right)))
  }

  function TSum(e: SumE): Node { TSumTail(TProduct(e.first), e.rest) }

  function TSumTail(left: Node, t: SumTail): Node
    decreases t
  {
    match t case SumEnd => left case SumMore(op, e, rest) => TSumTail(Binary(Additive(op), left, TProduct(e)), rest)
  }

  function TProduct(e: ProductE): Node { TProductTail(TUnary(e.first), e.rest) }

  function TProductTail(left: Node, t: ProductTail): Node
    decreases t
  {
    match t
    case ProductEnd => left
    case ProductMore(op, e, rest) => TProductTail(Binary(Multiplicative(op), left, TUnary(e)), rest)
  }

  function TUnary(e: UnaryE): Node
  {
    match e case Minus(arg) => Unary(Negate, TUnary(arg)) case Primary(p) => TPrimary(p)
  }

  function TenTo(n: nat): (r: nat)
    ensures r > 0
  {
    if n == 0 then 1 else 10 * TenTo(n - 1)
  }

  /** What a digit text with an optional fraction stands for: its digits, over a ten for each digit after the point. */
  function DecimalValue(w: string): real
  {
    var whole := Lexer.DigitsEnd(w, 0);
    if whole == |w| then Lexer.WholeValue(w) as real
    else Lexer.WholeValue(w[..whole] + w[whole + 1..]) as real / TenTo(|w| - whole - 1) as real
  }

  function TPrimary(e: PrimaryE): Node
  {
    match e
    case NumberE(text) => Lit(LNum(DecimalValue(text)))
    case TextE(text) => Lit(LText(text))
    case Keyword(l) => Lit(l)
    case Paren(inner) => TOr(inner)
    case ListE(items) => List(TItems(items))
    case CallE(name, args) => Call(name, TItems(args), 0)
    case PathE(head, parts) => Name([head] + PartTexts(parts))
  }

  function TItems(e: Items): seq<Node>
  {
    match e case NoItems => [] case SomeItems(first, rest) => [TOr(first)] + TItemTail(rest)
  }

  function TItemTail(t: ItemTail): seq<Node>
  {
    match t case ItemEnd => [] case ItemMore(e, rest) => [TOr(e)] + TItemTail(rest)
  }

  function PartTexts(t: Parts): seq<string>
  {
    match t case PartEnd => [] case PartMore(part, rest) => [part.value] + PartTexts(rest)
  }

  // ---- how deeply a derivation nests: whole expressions, `!` and `-` each open a level -----------

  function Max(a: nat, b: nat): nat { if a < b then b else a }

  function DOr(e: OrE): nat { 1 + Max(DAnd(e.first), DOrTail(e.rest)) }

  function DOrTail(t: OrTail): nat
  {
    match t case OrEnd => 0 case OrMore(e, rest) => Max(DAnd(e), DOrTail(rest))
  }

  function DAnd(e: AndE): nat { Max(DNot(e.first), DAndTail(e.rest)) }

  function DAndTail(t: AndTail): nat
  {
    match t case AndEnd => 0 case AndMore(e, rest) => Max(DNot(e), DAndTail(rest))
  }

  function DNot(e: NotE): nat
  {
    match e case Bang(arg) => 1 + DNot(arg) case Plain(c) => DCompare(c)
  }

  function DCompare(e: CompareE): nat
  {
    match e
    case Bare(s) => DSum(s)
    case Compare(_, left, right) => Max(DSum(left), DSum(right))
    case NotIn(left, right) => Max(DSum(left), DSum(right))
  }

  function DSum(e: SumE): nat { Max(DProduct(e.first), DSumTail(e.rest)) }

  function DSumTail(t: SumTail): nat
  {
    match t case SumEnd => 0 case SumMore(_, e, rest) => Max(DProduct(e), DSumTail(rest))
  }

  function DProduct(e: ProductE): nat { Max(DUnary(e.first), DProductTail(e.rest)) }

  function DProductTail(t: ProductTail): nat
  {
    match t case ProductEnd => 0 case ProductMore(_, e, rest) => Max(DUnary(e), DProductTail(rest))
  }

  function DUnary(e: UnaryE): nat
  {
    match e case Minus(arg) => 1 + DUnary(arg) case Primary(p) => DPrimary(p)
  }

  function DPrimary(e: PrimaryE): nat
  {
    match e
    case Paren(inner) => DOr(inner)
    case ListE(items) => DItems(items)
    case CallE(_, args) => DItems(args)
    case _ => 0
  }

  function DItems(e: Items): nat
  {
    match e case NoItems => 0 case SomeItems(first, rest) => Max(DOr(first), DItemTail(rest))
  }

  function DItemTail(t: ItemTail): nat
  {
    match t case ItemEnd => 0 case ItemMore(e, rest) => Max(DOr(e), DItemTail(rest))
  }

  // ---- which derivations are proper -----------------------------------------------------------

  const RESERVED: set<string> := {"true", "false", "null"}

  predicate WOr(e: OrE) { WAnd(e.first) && WOrTail(e.rest) }

  predicate WOrTail(t: OrTail)
  {
    match t case OrEnd => true case OrMore(e, rest) => WAnd(e) && WOrTail(rest)
  }

  predicate WAnd(e: AndE) { WNot(e.first) && WAndTail(e.rest) }

  predicate WAndTail(t: AndTail)
  {
    match t case AndEnd => true case AndMore(e, rest) => WNot(e) && WAndTail(rest)
  }

  predicate WNot(e: NotE)
  {
    match e case Bang(arg) => WNot(arg) case Plain(c) => WCompare(c)
  }

  predicate WCompare(e: CompareE)
  {
    match e
    case Bare(s) => WSum(s)
    case Compare(_, left, right) => WSum(left) && WSum(right)
    case NotIn(left, right) => WSum(left) && WSum(right)
  }

  predicate WSum(e: SumE) { WProduct(e.first) && WSumTail(e.rest) }

  predicate WSumTail(t: SumTail)
  {
    match t case SumEnd => true case SumMore(_, e, rest) => WProduct(e) && WSumTail(rest)
  }

  predicate WProduct(e: ProductE) { WUnary(e.first) && WProductTail(e.rest) }

  predicate WProductTail(t: ProductTail)
  {
    match t case ProductEnd => true case ProductMore(_, e, rest) => WUnary(e) && WProductTail(rest)
  }

  predicate WUnary(e: UnaryE)
  {
    match e case Minus(arg) => WUnary(arg) case Primary(p) => WPrimary(p)
  }

  /** Keywords are true, false and null; calls name a known function; a path starts with a plain name. */
  predicate WPrimary(e: PrimaryE)
  {
    match e
    case NumberE(_) => true
    case TextE(_) => true
    case Keyword(l) => l.LBool? || l.LNull?
    case Paren(inner) => WOr(inner)
    case ListE(items) => WItems(items)
    case CallE(name, args) => name in FUNCTIONS && WItems(args)
    case PathE(head, parts) => head !in RESERVED && WParts(parts)
  }

  predicate WItems(e: Items)
  {
    match e case NoItems => true case SomeItems(first, rest) => WOr(first) && WItemTail(rest)
  }

  predicate WItemTail(t: ItemTail)
  {
    match t case ItemEnd => true case ItemMore(e, rest) => WOr(e) && WItemTail(rest)
  }

  predicate WParts(t: Parts)
  {
    match t case PartEnd => true case PartMore(part, rest) => (part.kind == Word || part.kind == Num) && WParts(rest)
  }
}
