/**
 * A precedence-aware printer for expression trees that opens a bracket only where the tree needs one, and the
 * nesting its text has. The printer is the inverse the parser is measured against.
 */
module Printer {
  import opened Syntax
  import opened Parser
  import opened Grammar
  import Lexer

  ghost predicate HasText(r: real) { exists w :: Lexer.IsNumberText(w) && DecimalValue(w) == r }

  ghost predicate IsPart(w: string) { Lexer.IsWordText(w) || Lexer.IsNumberText(w) }

  /** Trees whose leaves can be written: decimal numbers, known functions, paths of names and numbers. */
  ghost predicate Printable(t: Node)
  {
    match t
    case Lit(LNum(r)) => HasText(r)
    case Lit(_) => true
    case Name(path) =>
      path != [] && path[0] !in RESERVED && Lexer.IsWordText(path[0]) && forall i :: 0 <= i < |path| ==> IsPart(path[i])
    case List(items) => forall i :: 0 <= i < |items| ==> Printable(items[i])
    case Unary(_, arg) => Printable(arg)
    case Binary(_, left, right) => Printable(left) && Printable(right)
    case Call(name, args, _) => name in FUNCTIONS && forall i :: 0 <= i < |args| ==> Printable(args[i])
  }

  predicate IsIn(t: Node) { t.Binary? && t.binary == Relate(In) }

  /**
   * The nonterminal that writes the root of t: 0 `||`, 1 `&&`, 2 `!`, 3 comparisons, 4 sums, 5 products, 6 `-`, 7 the
   * rest.
   */
  function Level(t: Node): nat
  {
    match t
    case Binary(Or, _, _) => 0
    case Binary(And, _, _) => 1
    case Unary(Not, arg) => if IsIn(arg) then 3 else 2
    case Binary(Relate(_), _, _) => 3
    case Binary(Additive(_), _, _) => 4
    case Binary(Multiplicative(_), _, _) => 5
    case Unary(Negate, _) => 6
    case _ => 7
  }

  // ---- nesting of the printed text, from the tree alone -----------------------------------------

  /** Nesting of the text of t where nonterminal k is wanted: as it stands, or as a bracketed expression. */
  function Nest(t: Node, k: nat): nat
    decreases t, 1
  {
    if 0 < k <= Level(t) || Level(t) == 0 then Own(t) else 1 + Own(t)
  }

  function Own(t: Node): nat
    decreases t, 0
  {
    match t
    case Binary(Or, left, right) => Max(Nest(left, 0), 1 + Nest(right, 1))
    case Binary(And, left, right) => Max(Nest(left, 1), Nest(right, 2))
    case Unary(Not, Binary(Relate(In), left, right)) => Max(Nest(left, 4), Nest(right, 4))
    case Unary(Not, arg) => 1 + Nest(arg, 2)
    case Binary(Relate(_), left, right) => Max(Nest(left, 4), Nest(right, 4))
    case Binary(Additive(_), left, right) => Max(Nest(left, 4), Nest(right, 5))
    case Binary(Multiplicative(_), left, right) => Max(Nest(left, 5), Nest(right, 6))
    case Unary(Negate, arg) => 1 + Nest(arg, 6)
    case List(items) => NestAll(items)
    case Call(_, args, _) => NestAll(args)
    case _ => 0
  }

  function NestAll(ts: seq<Node>): nat
    decreases ts, 2
  {
    if ts == [] then 0 else Max(Nest(ts[0], 0), NestAll(ts[1..]))
  }

  // ---- the printed derivation -----------------------------------------------------------------

  function SnocOr(t: OrTail, e: AndE): OrTail
  {
    match t case OrEnd => OrMore(e, OrEnd) case OrMore(x, rest) => OrMore(x, SnocOr(rest, e))
  }

  function SnocAnd(t: AndTail, e: NotE): AndTail
  {
    match t case AndEnd => AndMore(e, AndEnd) case AndMore(x, rest) => AndMore(x, SnocAnd(rest, e))
  }

  function SnocSum(t: SumTail, op: SumOp, e: ProductE): SumTail
  {
    match t case SumEnd => SumMore(op, e, SumEnd) case SumMore(o, x, rest) => SumMore(o, x, SnocSum(rest, op, e))
  }

  function SnocProduct(t: ProductTail, op: ProductOp, e: UnaryE): ProductTail
  {
    match t
    case ProductEnd => ProductMore(op, e, ProductEnd)
    case ProductMore(o, x, rest) => ProductMore(o, x, SnocProduct(rest, op, e))
  }

  /** Distance still to go down the levels, for a nonterminal k entered with t. */
  function Steps(t: Node, k: nat): nat { if k <= Level(t) then Level(t) - k else if k <= 8 then 20 - k else 0 }

  ghost function PrOr(t: Node): OrE
    requires Printable(t)
    decreases t, Steps(t, 0)
  {
    match t
    case Binary(Or, left, right) => var l := PrOr(left); OrE(l.first, SnocOr(l.rest, PrAnd(right)))
    case _ => OrE(PrAnd(t), OrEnd)
  }

  ghost function PrAnd(t: Node): AndE
    requires Printable(t)
    decreases t, Steps(t, 1)
  {
    match t
    case Binary(And, left, right) => var l := PrAnd(left); AndE(l.first, SnocAnd(l.rest, PrNot(right)))
    case _ => AndE(PrNot(t), AndEnd)
  }

  ghost function PrNot(t: Node): NotE
    requires Printable(t)
    decreases t, Steps(t, 2)
  {
    if t.Unary? && t.op == Not && !IsIn(t.arg) then Bang(PrNot(t.arg)) else Plain(PrCompare(t))
  }

  ghost function PrCompare(t: Node): CompareE
    requires Printable(t)
    decreases t, Steps(t, 3)
  {
    match t
    case Unary(Not, arg) =>
      if IsIn(arg) then assert Printable(arg); NotIn(PrSum(arg.left), PrSum(arg.right)) else Bare(PrSum(t))
    case Binary(Relate(r), left, right) => Compare(r, PrSum(left), PrSum(right))
    case _ => Bare(PrSum(t))
  }

  ghost function PrSum(t: Node): SumE
    requires Printable(t)
    decreases t, Steps(t, 4)
  {
    match t
    case Binary(Additive(op), left, right) => var l := PrSum(left); SumE(l.first, SnocSum(l.rest, op, PrProduct(right)))
    case _ => SumE(PrProduct(t), SumEnd)
  }

  ghost function PrProduct(t: Node): ProductE
    requires Printable(t)
    decreases t, Steps(t, 5)
  {
    match t
    case Binary(Multiplicative(op), left, right) =>
      var l := PrProduct(left); ProductE(l.first, SnocProduct(l.rest, op, PrUnary(right)))
    case _ => ProductE(PrUnary(t), ProductEnd)
  }

  ghost function PrUnary(t: Node): UnaryE
    requires Printable(t)
    decreases t, Steps(t, 6)
  {
    match t
    case Unary(Negate, arg) => UnaryE.Minus(PrUnary(arg))
    case _ => Primary(PrPrimary(t))
  }

  ghost function PrPrimary(t: Node): PrimaryE
    requires Printable(t)
    decreases t, Steps(t, 7)
  {
    match t
    case Lit(LNum(r)) => var w :| Lexer.IsNumberText(w) && DecimalValue(w) == r; NumberE(w)
    case Lit(LText(s)) => TextE(s)
    case Lit(l) => Keyword(l)
    case Name(path) => PathE(path[0], PrParts(path[1..]))
    case List(items) => ListE(PrItems(items))
    case Call(name, args, _) => CallE(name, PrItems(args))
    case _ => Paren(PrOr(t))
  }

  ghost function PrParts(path: seq<string>): Parts
  {
    if path == [] then PartEnd
    else PartMore(Lexeme(if Lexer.IsWordText(path[0]) then Word else Num, path[0]), PrParts(path[1..]))
  }

  ghost function PrItems(ts: seq<Node>): Items
    requires forall i :: 0 <= i < |ts| ==> Printable(ts[i])
    decreases ts, 30
  {
    if ts == [] then NoItems else SomeItems(PrOr(ts[0]), PrItemTail(ts[1..]))
  }

  ghost function PrItemTail(ts: seq<Node>): ItemTail
    requires forall i :: 0 <= i < |ts| ==> Printable(ts[i])
    decreases ts, 30
  {
    if ts == [] then ItemEnd else ItemMore(PrOr(ts[0]), PrItemTail(ts[1..]))
  }

  // ---- what the chains' last links add ----------------------------------------------------------

  lemma {:induction false} SnocOrMeans(t: OrTail, e: AndE, left: Node)
    ensures YOrTail(SnocOr(t, e)) == YOrTail(t) + [Sym("||")] + YAnd(e)
    ensures TOrTail(left, SnocOr(t, e)) == Binary(Or, TOrTail(left, t), TAnd(e))
    ensures DOrTail(SnocOr(t, e)) == Max(DOrTail(t), DAnd(e)) && (WOrTail(SnocOr(t, e)) <==> WOrTail(t) && WAnd(e))
    decreases t
  {
    hide YAnd, TAnd, DAnd, WAnd;
    match t
    case OrEnd =>
    case OrMore(x, rest) => SnocOrMeans(rest, e, Binary(Or, left, TAnd(x)));
  }

  lemma {:induction false} SnocAndMeans(t: AndTail, e: NotE, left: Node)
    ensures YAndTail(SnocAnd(t, e)) == YAndTail(t) + [Sym("&&")] + YNot(e)
    ensures TAndTail(left, SnocAnd(t, e)) == Binary(And, TAndTail(left, t), TNot(e))
    ensures DAndTail(SnocAnd(t, e)) == Max(DAndTail(t), DNot(e)) &&
            (WAndTail(SnocAnd(t, e)) <==> WAndTail(t) && WNot(e))
    decreases t
  {
    hide YNot, TNot, DNot, WNot;
    match t
    case AndEnd =>
    case AndMore(x, rest) => SnocAndMeans(rest, e, Binary(And, left, TNot(x)));
  }

  lemma {:induction false} SnocSumMeans(t: SumTail, op: SumOp, e: ProductE, left: Node)
    ensures YSumTail(SnocSum(t, op, e)) == YSumTail(t) + [SumLexeme(op)] + YProduct(e)
    ensures TSumTail(left, SnocSum(t, op, e)) == Binary(Additive(op), TSumTail(left, t), TProduct(e))
    ensures DSumTail(SnocSum(t, op, e)) == Max(DSumTail(t), DProduct(e)) &&
            (WSumTail(SnocSum(t, op, e)) <==> WSumTail(t) && WProduct(e))
    decreases t
  {
    hide YProduct, TProduct, DProduct, WProduct;
    match t
    case SumEnd =>
    case SumMore(o, x, rest) => SnocSumMeans(rest, op, e, Binary(Additive(o), left, TProduct(x)));
  }

  lemma {:induction false} SnocProductMeans(t: ProductTail, op: ProductOp, e: UnaryE, left: Node)
    ensures YProductTail(SnocProduct(t, op, e)) == YProductTail(t) + [ProductLexeme(op)] + YUnary(e)
    ensures TProductTail(left, SnocProduct(t, op, e)) == Binary(Multiplicative(op), TProductTail(left, t), TUnary(e))
    ensures DProductTail(SnocProduct(t, op, e)) == Max(DProductTail(t), DUnary(e))
    ensures WProductTail(SnocProduct(t, op, e)) <==> WProductTail(t) && WUnary(e)
    decreases t
  {
    hide YUnary, TUnary, DUnary, WUnary;
    match t
    case ProductEnd =>
    case ProductMore(o, x, rest) => SnocProductMeans(rest, op, e, Binary(Multiplicative(o), left, TUnary(x)));
  }

  // ---- the printed derivation is proper, spells lexemes, stands for the tree, nests as computed -----

  ghost predicate Spellable(ys: seq<Lexeme>) { forall i :: 0 <= i < |ys| ==> Lexer.Lexable(ys[i]) }

  lemma SymbolsLexable(op: SumOp, po: ProductOp, r: Relation)
    ensures Spellable([Sym("||")]) && Spellable([Sym("&&")]) && Spellable([Sym("!")]) && Spellable([Sym("-")])
    ensures Spellable([Sym("(")]) && Spellable([Sym(")")]) && Spellable([Sym("[")]) && Spellable([Sym("]")])
    ensures Spellable([Sym(",")]) && Spellable([Sym(".")]) && Spellable([Wrd("not"), Wrd("in")])
    ensures Spellable([SumLexeme(op)]) && Spellable([ProductLexeme(po)]) && Spellable([RelationLexeme(r)])
  {
    var ops := Lexer.OPERATORS;
    assert ops[0] == "||" && ops[1] == "&&" && ops[2] == "==" && ops[3] == "!=" && ops[4] == "<=" && ops[5] == ">=";
    assert ops[6] == "<" && ops[7] == ">" && ops[8] == "!" && ops[9] == "+" && ops[10] == "-" && ops[11] == "*" &&
        ops[12] == "/";
    assert ops[13] == "(" && ops[14] == ")" && ops[15] == "[" && ops[16] == "]" && ops[17] == "," && ops[18] == ".";
  }

  lemma OperandsPrintable(t: Node)
    requires Printable(t) && t.Binary?
    ensures Printable(t.left) && Printable(t.right)
  {
  }

  lemma SpellableJoin(xs: seq<Lexeme>, ys: seq<Lexeme>)
    requires Spellable(xs) && Spellable(ys)
    ensures Spellable(xs + ys)
  {
    hide Lexer.Lexable;
  }

  lemma SpellableChain(xs: seq<Lexeme>, x: Lexeme, ys: seq<Lexeme>)
    requires Spellable(xs) && Spellable([x]) && Spellable(ys)
    ensures Spellable(xs + [x] + ys)
  {
    SpellableJoin(xs, [x]);
    SpellableJoin(xs + [x], ys);
  }

  lemma {:induction false} PrintedOr(t: Node)
    requires Printable(t)
    ensures WOr(PrOr(t)) && TOr(PrOr(t)) == Shape(t) && DOr(PrOr(t)) == Nest(t, 0) && Spellable(YOr(PrOr(t)))
    decreases t, Steps(t, 0)
  {
    hide YAnd, TAnd, DAnd, WAnd, PrAnd, Printable, Spellable;
    if t.Binary? && t.binary == Or {
      OperandsPrintable(t);
      PrintedOr(t.left);
      PrintedAnd(t.right);
      var l := PrOr(t.left);
      SnocOrMeans(l.rest, PrAnd(t.right), TAnd(l.first));
      SymbolsLexable(Plus, Times, Eq);
      SpellableChain(YOr(l), Sym("||"), YAnd(PrAnd(t.right)));
      assert YOr(PrOr(t)) == YOr(l) + [Sym("||")] + YAnd(PrAnd(t.right));
    } else {
      PrintedAnd(t);
      assert YOr(PrOr(t)) == YAnd(PrAnd(t));
    }
  }

  lemma {:induction false} PrintedAnd(t: Node)
    requires Printable(t)
    ensures WAnd(PrAnd(t)) && TAnd(PrAnd(t)) == Shape(t) && DAnd(PrAnd(t)) == Nest(t, 1) && Spellable(YAnd(PrAnd(t)))
    decreases t, Steps(t, 1)
  {
    hide YNot, TNot, DNot, WNot, PrNot, Printable, Spellable;
    if t.Binary? && t.binary == And {
      OperandsPrintable(t);
      PrintedAnd(t.left);
      PrintedNot(t.right);
      var l := PrAnd(t.left);
      SnocAndMeans(l.rest, PrNot(t.right), TNot(l.first));
      SymbolsLexable(Plus, Times, Eq);
      SpellableChain(YAnd(l), Sym("&&"), YNot(PrNot(t.right)));
      assert YAnd(PrAnd(t)) == YAnd(l) + [Sym("&&")] + YNot(PrNot(t.right));
    } else {
      PrintedNot(t);
      assert YAnd(PrAnd(t)) == YNot(PrNot(t));
    }
  }

  lemma {:induction false} PrintedNot(t: Node)
    requires Printable(t)
    ensures WNot(PrNot(t)) && TNot(PrNot(t)) == Shape(t) && DNot(PrNot(t)) == Nest(t, 2) && Spellable(YNot(PrNot(t)))
    decreases t, Steps(t, 2)
  {
    hide YCompare, TCompare, DCompare, WCompare, PrCompare;
    if t.Unary? && t.op == Not && !IsIn(t.arg) {
      PrintedNot(t.arg);
      SymbolsLexable(Plus, Times, Eq);
      SpellableJoin([Sym("!")], YNot(PrNot(t.arg)));
    } else {
      PrintedCompare(t);
    }
  }

  lemma {:induction false} PrintedCompare(t: Node)
    requires Printable(t)
    ensures WCompare(PrCompare(t)) && TCompare(PrCompare(t)) == Shape(t) && DCompare(PrCompare(t)) == Nest(t, 3) &&
            Spellable(YCompare(PrCompare(t)))
    decreases t, Steps(t, 3)
  {
    hide YSum, TSum, DSum, WSum, PrSum;
    if t.Unary? && t.op == Not && IsIn(t.arg) {
      assert Printable(t.arg);
      PrintedSum(t.arg.left);
      PrintedSum(t.arg.right);
      SymbolsLexable(Plus, Times, Eq);
      SpellableJoin(YSum(PrSum(t.arg.left)), [Wrd("not"), Wrd("in")]);
      SpellableJoin(YSum(PrSum(t.arg.left)) + [Wrd("not"), Wrd("in")], YSum(PrSum(t.arg.right)));
    } else if t.Binary? && t.binary.Relate? {
      PrintedSum(t.left);
      PrintedSum(t.right);
      SymbolsLexable(Plus, Times, t.binary.relation);
      SpellableJoin(YSum(PrSum(t.left)), [RelationLexeme(t.binary.relation)]);
      SpellableJoin(YSum(PrSum(t.left)) + [RelationLexeme(t.binary.relation)], YSum(PrSum(t.right)));
    } else {
      PrintedSum(t);
    }
  }

  lemma {:induction false} PrintedSum(t: Node)
    requires Printable(t)
    ensures WSum(PrSum(t)) && TSum(PrSum(t)) == Shape(t) && DSum(PrSum(t)) == Nest(t, 4) && Spellable(YSum(PrSum(t)))
    decreases t, Steps(t, 4)
  {
    hide YProduct, TProduct, DProduct, WProduct, PrProduct, Printable, Spellable;
    if t.Binary? && t.binary.Additive? {
      OperandsPrintable(t);
      PrintedSum(t.left);
      PrintedProduct(t.right);
      var l := PrSum(t.left);
      SnocSumMeans(l.rest, t.binary.sumOp, PrProduct(t.right), TProduct(l.first));
      SymbolsLexable(t.binary.sumOp, Times, Eq);
      SpellableChain(YSum(l), SumLexeme(t.binary.sumOp), YProduct(PrProduct(t.right)));
      assert YSum(PrSum(t)) == YSum(l) + [SumLexeme(t.binary.sumOp)] + YProduct(PrProduct(t.right));
    } else {
      PrintedProduct(t);
      assert YSum(PrSum(t)) == YProduct(PrProduct(t));
    }
  }

  lemma {:induction false} PrintedProduct(t: Node)
    requires Printable(t)
    ensures WProduct(PrProduct(t)) && TProduct(PrProduct(t)) == Shape(t) && DProduct(PrProduct(t)) == Nest(t, 5) &&
            Spellable(YProduct(PrProduct(t)))
    decreases t, Steps(t, 5)
  {
    hide YUnary, TUnary, DUnary, WUnary, PrUnary, Printable, Spellable;
    if t.Binary? && t.binary.Multiplicative? {
      OperandsPrintable(t);
      PrintedProduct(t.left);
      PrintedUnary(t.right);
      var l := PrProduct(t.left);
      SnocProductMeans(l.rest, t.binary.productOp, PrUnary(t.right), TUnary(l.first));
      SymbolsLexable(Plus, t.binary.productOp, Eq);
      SpellableChain(YProduct(l), ProductLexeme(t.binary.productOp), YUnary(PrUnary(t.right)));
      assert YProduct(PrProduct(t)) == YProduct(l) + [ProductLexeme(t.binary.productOp)] + YUnary(PrUnary(t.right));
    } else {
      PrintedUnary(t);
      assert YProduct(PrProduct(t)) == YUnary(PrUnary(t));
    }
  }

  lemma {:induction false} PrintedUnary(t: Node)
    requires Printable(t)
    ensures WUnary(PrUnary(t)) && TUnary(PrUnary(t)) == Shape(t) && DUnary(PrUnary(t)) == Nest(t, 6) &&
            Spellable(YUnary(PrUnary(t)))
    decreases t, Steps(t, 6)
  {
    hide YPrimary, TPrimary, DPrimary, WPrimary, PrPrimary;
    if t.Unary? && t.op == Negate {
      PrintedUnary(t.arg);
      SymbolsLexable(Plus, Times, Eq);
      SpellableJoin([Sym("-")], YUnary(PrUnary(t.arg)));
    } else {
      PrintedPrimary(t);
    }
  }

  lemma {:induction false} PrintedPrimary(t: Node)
    requires Printable(t)
    ensures WPrimary(PrPrimary(t)) && TPrimary(PrPrimary(t)) == Shape(t) && DPrimary(PrPrimary(t)) == Nest(t, 7) &&
            Spellable(YPrimary(PrPrimary(t)))
    decreases t, Steps(t, 7)
  {
    hide YOr, TOr, DOr, WOr, PrOr, YItems, TItems, DItems, WItems, PrItems;
    match t
    case Lit(LNum(r)) =>
    case Lit(_) =>
    case Name(path) =>
      PrintedParts(path[1..]);
      SpellableJoin([Wrd(path[0])], YParts(PrParts(path[1..])));
      assert path == [path[0]] + path[1..];
    case List(items) =>
      PrintedItems(items);
      SymbolsLexable(Plus, Times, Eq);
      SpellableJoin([Sym("[")], YItems(PrItems(items)));
      SpellableJoin([Sym("[")] + YItems(PrItems(items)), [Sym("]")]);
    case Call(name, args, _) =>
      PrintedItems(args);
      FunctionsAreWords(name);
      SymbolsLexable(Plus, Times, Eq);
      SpellableJoin([Wrd(name)], [Sym("(")]);
      SpellableJoin([Wrd(name), Sym("(")], YItems(PrItems(args)));
      SpellableJoin([Wrd(name), Sym("(")] + YItems(PrItems(args)), [Sym(")")]);
    case _ =>
      PrintedOr(t);
      SymbolsLexable(Plus, Times, Eq);
      SpellableJoin([Sym("(")], YOr(PrOr(t)));
      SpellableJoin([Sym("(")] + YOr(PrOr(t)), [Sym(")")]);
  }

  lemma FunctionsAreWords(name: string)
    requires name in FUNCTIONS
    ensures Lexer.IsWordText(name)
  {
  }

  lemma {:induction false} PrintedParts(path: seq<string>)
    requires forall i :: 0 <= i < |path| ==> IsPart(path[i])
    ensures WParts(PrParts(path)) && PartTexts(PrParts(path)) == path && Spellable(YParts(PrParts(path)))
    decreases |path|
  {
    if path != [] {
      PrintedParts(path[1..]);
      SymbolsLexable(Plus, Times, Eq);
      var part := PrParts(path).part;
      SpellableJoin([Sym(".")], [part]);
      SpellableJoin([Sym("."), part], YParts(PrParts(path[1..])));
    }
  }

  lemma {:induction false} PrintedItems(ts: seq<Node>)
    requires forall i :: 0 <= i < |ts| ==> Printable(ts[i])
    ensures WItems(PrItems(ts)) && TItems(PrItems(ts)) == Shapes(ts)
    ensures DItems(PrItems(ts)) == NestAll(ts) && Spellable(YItems(PrItems(ts)))
    decreases ts, 30
  {
    hide YOr, TOr, DOr, WOr, PrOr;
    if ts != [] {
      PrintedOr(ts[0]);
      PrintedItemTail(ts[1..]);
      SpellableJoin(YOr(PrOr(ts[0])), YItemTail(PrItemTail(ts[1..])));
      assert Shapes(ts) == [Shape(ts[0])] + Shapes(ts[1..]);
    }
  }

  lemma {:induction false} PrintedItemTail(ts: seq<Node>)
    requires forall i :: 0 <= i < |ts| ==> Printable(ts[i])
    ensures WItemTail(PrItemTail(ts)) && TItemTail(PrItemTail(ts)) == Shapes(ts)
    ensures DItemTail(PrItemTail(ts)) == NestAll(ts) && Spellable(YItemTail(PrItemTail(ts)))
    decreases ts, 30
  {
    hide YOr, TOr, DOr, WOr, PrOr;
    if ts != [] {
      PrintedOr(ts[0]);
      PrintedItemTail(ts[1..]);
      SymbolsLexable(Plus, Times, Eq);
      SpellableJoin([Sym(",")], YOr(PrOr(ts[0])));
      SpellableJoin([Sym(",")] + YOr(PrOr(ts[0])), YItemTail(PrItemTail(ts[1..])));
      assert Shapes(ts) == [Shape(ts[0])] + Shapes(ts[1..]);
    }
  }
}
