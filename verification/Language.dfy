/**
 * What the parser as a whole promises: it accepts exactly the shallow derivations of the grammar, printing undoes
 * parsing, and every outcome is well placed and no larger than its source.
 */
module Language {
  import opened Syntax
  import opened Options
  import opened Parser
  import opened Grammar
  import opened Printer
  import opened ParserSound
  import opened ParserComplete
  import Lexer

  // ---- a printed tree nests no deeper than any derivation of the same tree ------------------------

  lemma {:induction false} MinOr(e: OrE)
    ensures Nest(TOr(e), 0) <= DOr(e)
    decreases e
  {
    MinAnd(e.first);
    MinOrTail(TAnd(e.first), e.rest, DOr(e));
  }

  lemma {:induction false} MinOrTail(left: Node, t: OrTail, bound: nat)
    requires Nest(left, 0) <= bound && 1 + DOrTail(t) <= bound
    ensures Nest(TOrTail(left, t), 0) <= bound
    decreases t
  {
    if t.OrMore? {
      MinAnd(t.next);
      MinOrTail(Binary(Or, left, TAnd(t.next)), t.rest, bound);
    }
  }

  lemma {:induction false} MinAnd(e: AndE)
    ensures Nest(TAnd(e), 1) <= DAnd(e)
    decreases e
  {
    MinNot(e.first);
    MinAndTail(TNot(e.first), e.rest, DAnd(e));
  }

  lemma {:induction false} MinAndTail(left: Node, t: AndTail, bound: nat)
    requires Nest(left, 1) <= bound && DAndTail(t) <= bound
    ensures Nest(TAndTail(left, t), 1) <= bound
    decreases t
  {
    if t.AndMore? {
      MinNot(t.next);
      MinAndTail(Binary(And, left, TNot(t.next)), t.rest, bound);
    }
  }

  lemma {:induction false} MinNot(e: NotE)
    ensures Nest(TNot(e), 2) <= DNot(e)
    decreases e
  {
    match e
    case Bang(arg) => MinNot(arg);
    case Plain(c) => MinCompare(c);
  }

  lemma {:induction false} MinCompare(e: CompareE)
    ensures Nest(TCompare(e), 3) <= DCompare(e)
    decreases e
  {
    match e
    case Bare(s) => MinSum(s);
    case Compare(_, left, right) => MinSum(left); MinSum(right);
    case NotIn(left, right) => MinSum(left); MinSum(right);
  }

  lemma {:induction false} MinSum(e: SumE)
    ensures Nest(TSum(e), 4) <= DSum(e)
    decreases e
  {
    MinProduct(e.first);
    MinSumTail(TProduct(e.first), e.rest, DSum(e));
  }

  lemma {:induction false} MinSumTail(left: Node, t: SumTail, bound: nat)
    requires Nest(left, 4) <= bound && DSumTail(t) <= bound
    ensures Nest(TSumTail(left, t), 4) <= bound
    decreases t
  {
    if t.SumMore? {
      MinProduct(t.next);
      MinSumTail(Binary(Additive(t.op), left, TProduct(t.next)), t.rest, bound);
    }
  }

  lemma {:induction false} MinProduct(e: ProductE)
    ensures Nest(TProduct(e), 5) <= DProduct(e)
    decreases e
  {
    MinUnary(e.first);
    MinProductTail(TUnary(e.first), e.rest, DProduct(e));
  }

  lemma {:induction false} MinProductTail(left: Node, t: ProductTail, bound: nat)
    requires Nest(left, 5) <= bound && DProductTail(t) <= bound
    ensures Nest(TProductTail(left, t), 5) <= bound
    decreases t
  {
    if t.ProductMore? {
      MinUnary(t.next);
      MinProductTail(Binary(Multiplicative(t.op), left, TUnary(t.next)), t.rest, bound);
    }
  }

  lemma {:induction false} MinUnary(e: UnaryE)
    ensures Nest(TUnary(e), 6) <= DUnary(e)
    decreases e
  {
    match e
    case Minus(arg) => MinUnary(arg);
    case Primary(p) => MinPrimary(p);
  }

  lemma {:induction false} MinPrimary(e: PrimaryE)
    ensures Nest(TPrimary(e), 7) <= DPrimary(e)
    decreases e
  {
    match e
    case Paren(inner) => MinOr(inner);
    case ListE(items) => MinItems(items);
    case CallE(_, args) => MinItems(args);
    case _ =>
  }

  lemma {:induction false} MinItems(e: Items)
    ensures NestAll(TItems(e)) <= DItems(e)
    decreases e
  {
    if e.SomeItems? { MinOr(e.first); MinItemTail(e.rest); }
  }

  lemma {:induction false} MinItemTail(t: ItemTail)
    ensures NestAll(TItemTail(t)) <= DItemTail(t)
    decreases t
  {
    if t.ItemMore? { MinOr(t.next); MinItemTail(t.rest); }
  }

  // ---- a derivation's tree can be written again, and has at most one node per lexeme ----------------

  lemma SpellableParts(xs: seq<Lexeme>, ys: seq<Lexeme>)
    requires Spellable(xs + ys)
    ensures Spellable(xs) && Spellable(ys)
  {
    hide Lexer.Lexable;
    assert forall i :: 0 <= i < |xs| ==> xs[i] == (xs + ys)[i];
    assert forall i :: 0 <= i < |ys| ==> ys[i] == (xs + ys)[|xs| + i];
  }

  lemma {:induction false} FitOr(e: OrE)
    requires WOr(e) && Spellable(YOr(e))
    ensures Printable(TOr(e)) && Size(TOr(e)) <= |YOr(e)|
    decreases e
  {
    hide WAnd, YAnd, TAnd;
    SpellableParts(YAnd(e.first), YOrTail(e.rest));
    FitAnd(e.first);
    FitOrTail(TAnd(e.first), e.rest, |YAnd(e.first)|);
  }

  lemma {:induction false} FitOrTail(left: Node, t: OrTail, room: nat)
    requires WOrTail(t) && Spellable(YOrTail(t)) && Printable(left) && Size(left) <= room
    ensures Printable(TOrTail(left, t)) && Size(TOrTail(left, t)) <= room + |YOrTail(t)|
    decreases t
  {
    hide WAnd, YAnd, TAnd;
    if t.OrMore? {
      SpellableParts([Sym("||")] + YAnd(t.next), YOrTail(t.rest));
      SpellableParts([Sym("||")], YAnd(t.next));
      FitAnd(t.next);
      FitOrTail(Binary(Or, left, TAnd(t.next)), t.rest, room + 1 + |YAnd(t.next)|);
    }
  }

  lemma {:induction false} FitAnd(e: AndE)
    requires WAnd(e) && Spellable(YAnd(e))
    ensures Printable(TAnd(e)) && Size(TAnd(e)) <= |YAnd(e)|
    decreases e
  {
    hide WNot, YNot, TNot;
    SpellableParts(YNot(e.first), YAndTail(e.rest));
    FitNot(e.first);
    FitAndTail(TNot(e.first), e.rest, |YNot(e.first)|);
  }

  lemma {:induction false} FitAndTail(left: Node, t: AndTail, room: nat)
    requires WAndTail(t) && Spellable(YAndTail(t)) && Printable(left) && Size(left) <= room
    ensures Printable(TAndTail(left, t)) && Size(TAndTail(left, t)) <= room + |YAndTail(t)|
    decreases t
  {
    hide WNot, YNot, TNot;
    if t.AndMore? {
      SpellableParts([Sym("&&")] + YNot(t.next), YAndTail(t.rest));
      SpellableParts([Sym("&&")], YNot(t.next));
      FitNot(t.next);
      FitAndTail(Binary(And, left, TNot(t.next)), t.rest, room + 1 + |YNot(t.next)|);
    }
  }

  lemma {:induction false} FitNot(e: NotE)
    requires WNot(e) && Spellable(YNot(e))
    ensures Printable(TNot(e)) && Size(TNot(e)) <= |YNot(e)|
    decreases e
  {
    match e
    case Bang(arg) => SpellableParts([Sym("!")], YNot(arg)); FitNot(arg);
    case Plain(c) => FitCompare(c);
  }

  lemma {:induction false} FitCompare(e: CompareE)
    requires WCompare(e) && Spellable(YCompare(e))
    ensures Printable(TCompare(e)) && Size(TCompare(e)) <= |YCompare(e)|
    decreases e
  {
    hide WSum, YSum, TSum;
    match e
    case Bare(s) => FitSum(s);
    case Compare(r, left, right) =>
      SpellableParts(YSum(left) + [RelationLexeme(r)], YSum(right));
      SpellableParts(YSum(left), [RelationLexeme(r)]);
      FitSum(left); FitSum(right);
    case NotIn(left, right) =>
      SpellableParts(YSum(left) + [Wrd("not"), Wrd("in")], YSum(right));
      SpellableParts(YSum(left), [Wrd("not"), Wrd("in")]);
      FitSum(left); FitSum(right);
  }

  lemma {:induction false} FitSum(e: SumE)
    requires WSum(e) && Spellable(YSum(e))
    ensures Printable(TSum(e)) && Size(TSum(e)) <= |YSum(e)|
    decreases e
  {
    hide WProduct, YProduct, TProduct;
    SpellableParts(YProduct(e.first), YSumTail(e.rest));
    FitProduct(e.first);
    FitSumTail(TProduct(e.first), e.rest, |YProduct(e.first)|);
  }

  lemma {:induction false} FitSumTail(left: Node, t: SumTail, room: nat)
    requires WSumTail(t) && Spellable(YSumTail(t)) && Printable(left) && Size(left) <= room
    ensures Printable(TSumTail(left, t)) && Size(TSumTail(left, t)) <= room + |YSumTail(t)|
    decreases t
  {
    hide WProduct, YProduct, TProduct;
    if t.SumMore? {
      SpellableParts([SumLexeme(t.op)] + YProduct(t.next), YSumTail(t.rest));
      SpellableParts([SumLexeme(t.op)], YProduct(t.next));
      FitProduct(t.next);
      FitSumTail(Binary(Additive(t.op), left, TProduct(t.next)), t.rest, room + 1 + |YProduct(t.next)|);
    }
  }

  lemma {:induction false} FitProduct(e: ProductE)
    requires WProduct(e) && Spellable(YProduct(e))
    ensures Printable(TProduct(e)) && Size(TProduct(e)) <= |YProduct(e)|
    decreases e
  {
    hide WUnary, YUnary, TUnary;
    SpellableParts(YUnary(e.first), YProductTail(e.rest));
    FitUnary(e.first);
    FitProductTail(TUnary(e.first), e.rest, |YUnary(e.first)|);
  }

  lemma {:induction false} FitProductTail(left: Node, t: ProductTail, room: nat)
    requires WProductTail(t) && Spellable(YProductTail(t)) && Printable(left) && Size(left) <= room
    ensures Printable(TProductTail(left, t)) && Size(TProductTail(left, t)) <= room + |YProductTail(t)|
    decreases t
  {
    hide WUnary, YUnary, TUnary;
    if t.ProductMore? {
      SpellableParts([ProductLexeme(t.op)] + YUnary(t.next), YProductTail(t.rest));
      SpellableParts([ProductLexeme(t.op)], YUnary(t.next));
      FitUnary(t.next);
      FitProductTail(Binary(Multiplicative(t.op), left, TUnary(t.next)), t.rest, room + 1 + |YUnary(t.next)|);
    }
  }

  lemma {:induction false} FitUnary(e: UnaryE)
    requires WUnary(e) && Spellable(YUnary(e))
    ensures Printable(TUnary(e)) && Size(TUnary(e)) <= |YUnary(e)|
    decreases e
  {
    match e
    case Minus(arg) => SpellableParts([Sym("-")], YUnary(arg)); FitUnary(arg);
    case Primary(p) => FitPrimary(p);
  }

  lemma {:induction false} FitPrimary(e: PrimaryE)
    requires WPrimary(e) && Spellable(YPrimary(e))
    ensures Printable(TPrimary(e)) && Size(TPrimary(e)) <= |YPrimary(e)|
    decreases e
  {
    hide WOr, YOr, TOr, WItems, YItems, TItems, DecimalValue;
    match e
    case NumberE(text) => assert Lexer.Lexable(YPrimary(e)[0]);
    case TextE(_) =>
    case Keyword(_) =>
    case Paren(inner) =>
      SpellableParts([Sym("(")] + YOr(inner), [Sym(")")]);
      SpellableParts([Sym("(")], YOr(inner));
      FitOr(inner);
    case ListE(items) =>
      SpellableParts([Sym("[")] + YItems(items), [Sym("]")]);
      SpellableParts([Sym("[")], YItems(items));
      FitItems(items);
    case CallE(name, args) =>
      SpellableParts([Wrd(name), Sym("(")] + YItems(args), [Sym(")")]);
      SpellableParts([Wrd(name), Sym("(")], YItems(args));
      FitItems(args);
    case PathE(head, parts) =>
      SpellableParts([Wrd(head)], YParts(parts));
      assert Lexer.Lexable([Wrd(head)][0]);
      FitParts(parts);
  }

  lemma {:induction false} FitParts(t: Parts)
    requires WParts(t) && Spellable(YParts(t))
    ensures forall i :: 0 <= i < |PartTexts(t)| ==> IsPart(PartTexts(t)[i])
    decreases t
  {
    if t.PartMore? {
      SpellableParts([Sym("."), t.part], YParts(t.rest));
      assert Lexer.Lexable([Sym("."), t.part][1]);
      FitParts(t.rest);
    }
  }

  lemma {:induction false} FitItems(e: Items)
    requires WItems(e) && Spellable(YItems(e))
    ensures (forall i :: 0 <= i < |TItems(e)| ==> Printable(TItems(e)[i])) && Sizes(TItems(e)) <= |YItems(e)|
    decreases e
  {
    hide WOr, YOr, TOr, Printable;
    if e.SomeItems? {
      SpellableParts(YOr(e.first), YItemTail(e.rest));
      FitOr(e.first);
      FitItemTail(e.rest);
      assert TItems(e)[1..] == TItemTail(e.rest);
    }
  }

  lemma {:induction false} FitItemTail(t: ItemTail)
    requires WItemTail(t) && Spellable(YItemTail(t))
    ensures (forall i :: 0 <= i < |TItemTail(t)| ==> Printable(TItemTail(t)[i])) &&
            Sizes(TItemTail(t)) <= |YItemTail(t)|
    decreases t
  {
    hide WOr, YOr, TOr, Printable;
    if t.ItemMore? {
      SpellableParts([Sym(",")] + YOr(t.next), YItemTail(t.rest));
      SpellableParts([Sym(",")], YOr(t.next));
      FitOr(t.next);
      FitItemTail(t.rest);
      assert TItemTail(t)[1..] == TItemTail(t.rest);
    }
  }

  // ---- main results -----------------------------------------------------------------------------

  /** ts are the lexemes ys with the end token after them. */
  ghost predicate Spells(ts: seq<Token>, ys: seq<Lexeme>)
  {
    Lexer.Ended(ts) && L(ts, 0, |ts| - 1) == ys
  }

  ghost predicate DerivesTree(e: OrE, ys: seq<Lexeme>, t: Node)
  {
    WOr(e) && DOr(e) <= MAX_DEPTH && YOr(e) == ys && TOr(e) == t
  }

  /** The grammar derives the tree from these lexemes within the depth limit. */
  ghost predicate Derivable(ys: seq<Lexeme>, t: Node) { exists e :: DerivesTree(e, ys, t) }

  /**
   * The parser accepts a token list as a tree exactly when the grammar derives that tree from its lexemes within the
   * depth limit.
   */
  lemma ParserIsGrammar(ts: seq<Token>, ys: seq<Lexeme>, t: Node)
    requires Spells(ts, ys)
    ensures (ParseTokens(ts).Ok? && Shape(ParseTokens(ts).value) == t) <==> Derivable(ys, t)
  {
    if ParseTokens(ts).Ok? && Shape(ParseTokens(ts).value) == t {
      var e := SoundOr(ts, 0, 0);
      assert POr(ts, 0, 0).next == |ts| - 1;
      assert DerivesTree(e, ys, t);
    }
    if Derivable(ys, t) {
      var e :| DerivesTree(e, ys, t);
      DerivedIsParsed(e, ts, ys);
    }
  }

  lemma DerivedIsParsed(e: OrE, ts: seq<Token>, ys: seq<Lexeme>)
    requires Spells(ts, ys) && WOr(e) && YOr(e) == ys && DOr(e) <= MAX_DEPTH
    ensures ParseTokens(ts).Ok? && Shape(ParseTokens(ts).value) == TOr(e)
  {
    assert |ys| == |ts| - 1;
    CompleteOr(e, ts, 0, 0);
  }

  /** No lexeme is the one that ends a source. */
  ghost predicate Endless(ys: seq<Lexeme>) { forall i :: 0 <= i < |ys| ==> ys[i].kind != End }

  lemma {:induction false} EndlessOr(e: OrE)
    requires WOr(e)
    ensures Endless(YOr(e))
    decreases e
  {
    hide YAnd, WAnd;
    EndlessAnd(e.first);
    EndlessOrTail(e.rest);
  }

  lemma {:induction false} EndlessOrTail(t: OrTail)
    requires WOrTail(t)
    ensures Endless(YOrTail(t))
    decreases t
  {
    hide YAnd, WAnd;
    if t.OrMore? { EndlessAnd(t.next); EndlessOrTail(t.rest); }
  }

  lemma {:induction false} EndlessAnd(e: AndE)
    requires WAnd(e)
    ensures Endless(YAnd(e))
    decreases e
  {
    hide YNot, WNot;
    EndlessNot(e.first);
    EndlessAndTail(e.rest);
  }

  lemma {:induction false} EndlessAndTail(t: AndTail)
    requires WAndTail(t)
    ensures Endless(YAndTail(t))
    decreases t
  {
    hide YNot, WNot;
    if t.AndMore? { EndlessNot(t.next); EndlessAndTail(t.rest); }
  }

  lemma {:induction false} EndlessNot(e: NotE)
    requires WNot(e)
    ensures Endless(YNot(e))
    decreases e
  {
    hide YCompare, WCompare;
    match e case Bang(arg) => EndlessNot(arg); case Plain(c) => EndlessCompare(c);
  }

  lemma {:induction false} EndlessCompare(e: CompareE)
    requires WCompare(e)
    ensures Endless(YCompare(e))
    decreases e
  {
    hide YSum, WSum;
    match e
    case Bare(s) => EndlessSum(s);
    case Compare(_, left, right) => EndlessSum(left); EndlessSum(right);
    case NotIn(left, right) => EndlessSum(left); EndlessSum(right);
  }

  lemma {:induction false} EndlessSum(e: SumE)
    requires WSum(e)
    ensures Endless(YSum(e))
    decreases e
  {
    hide YProduct, WProduct;
    EndlessProduct(e.first);
    EndlessSumTail(e.rest);
  }

  lemma {:induction false} EndlessSumTail(t: SumTail)
    requires WSumTail(t)
    ensures Endless(YSumTail(t))
    decreases t
  {
    hide YProduct, WProduct;
    if t.SumMore? { EndlessProduct(t.next); EndlessSumTail(t.rest); }
  }

  lemma {:induction false} EndlessProduct(e: ProductE)
    requires WProduct(e)
    ensures Endless(YProduct(e))
    decreases e
  {
    hide YUnary, WUnary;
    EndlessUnary(e.first);
    EndlessProductTail(e.rest);
  }

  lemma {:induction false} EndlessProductTail(t: ProductTail)
    requires WProductTail(t)
    ensures Endless(YProductTail(t))
    decreases t
  {
    hide YUnary, WUnary;
    if t.ProductMore? { EndlessUnary(t.next); EndlessProductTail(t.rest); }
  }

  lemma {:induction false} EndlessUnary(e: UnaryE)
    requires WUnary(e)
    ensures Endless(YUnary(e))
    decreases e
  {
    hide YPrimary, WPrimary;
    match e case Minus(arg) => EndlessUnary(arg); case Primary(p) => EndlessPrimary(p);
  }

  lemma {:induction false} EndlessPrimary(e: PrimaryE)
    requires WPrimary(e)
    ensures Endless(YPrimary(e))
    decreases e
  {
    hide YOr, WOr;
    match e
    case Paren(inner) => EndlessOr(inner);
    case ListE(items) => EndlessItems(items);
    case CallE(_, args) => EndlessItems(args);
    case PathE(_, parts) => EndlessParts(parts);
    case _ =>
  }

  lemma {:induction false} EndlessItems(e: Items)
    requires WItems(e)
    ensures Endless(YItems(e))
    decreases e
  {
    hide YOr, WOr;
    if e.SomeItems? { EndlessOr(e.first); EndlessItemTail(e.rest); }
  }

  lemma {:induction false} EndlessItemTail(t: ItemTail)
    requires WItemTail(t)
    ensures Endless(YItemTail(t))
    decreases t
  {
    hide YOr, WOr;
    if t.ItemMore? { EndlessOr(t.next); EndlessItemTail(t.rest); }
  }

  lemma {:induction false} EndlessParts(t: Parts)
    requires WParts(t)
    ensures Endless(YParts(t))
    decreases t
  {
    if t.PartMore? { EndlessParts(t.rest); }
  }

  /** Lexemes have one tree: any two derivations of them, however deep, stand for the same one. */
  lemma GrammarUnambiguous(e: OrE, f: OrE)
    requires WOr(e) && WOr(f) && YOr(e) == YOr(f)
    ensures TOr(e) == TOr(f)
  {
    hide WOr, YOr, TOr, DOr, POr;
    var ys := YOr(e);
    EndlessOr(e);
    var ts := seq(|ys|, i requires 0 <= i < |ys| => Token(ys[i], i)) + [Token(Lexeme(End, ""), |ys|)];
    assert Spans(ts, 0, ys) by { assert forall i :: 0 <= i < |ys| ==> L(ts, 0, |ys|)[i] == ys[i]; }
    // The parser decides with its depth counter set low enough for both.
    var d := MAX_DEPTH - DOr(e) - DOr(f);
    CompleteOr(e, ts, 0, d);
    CompleteOr(f, ts, 0, d);
  }

  lemma TokensOf(ys: seq<Lexeme>)
    requires Spellable(ys)
    ensures Lexer.LexFrom(Lexer.Render(ys), 0).Ok? && Spells(Lexer.LexFrom(Lexer.Render(ys), 0).value, ys)
  {
    var s := Lexer.Render(ys);
    assert s[0..] == s;
    Lexer.LexRendered(s, 0, ys);
    Lexer.LexWithin(s, 0);
    var ts := Lexer.LexFrom(s, 0).value;
    assert |ts| == |Lexer.Lexemes(ts)| == |ys| + 1;
    assert forall i :: 0 <= i < |ys| ==> L(ts, 0, |ts| - 1)[i] == Lexer.Lexemes(ts)[i] == ys[i];
  }

  /** The source text of a tree: the printed derivation, one blank after each lexeme. */
  ghost function SourceOf(t: Node): string
    requires Printable(t)
  {
    Lexer.Render(YOr(PrOr(t)))
  }

  /** The source text of a tree parses, and as that tree, whenever it nests within the limit. */
  lemma PrintedParses(t: Node)
    requires Printable(t) && Nest(t, 0) <= MAX_DEPTH
    ensures ParseSource(SourceOf(t)).Ok? && Shape(ParseSource(SourceOf(t)).value) == Shape(t)
  {
    PrintedOr(t);
    TokensOf(YOr(PrOr(t)));
    DerivedIsParsed(PrOr(t), Lexer.LexFrom(SourceOf(t), 0).value, YOr(PrOr(t)));
  }

  /** What is true of a source the parser accepts: a derivation spells its lexemes and stands for its tree. */
  lemma AcceptedDerives(s: string) returns (e: OrE)
    requires ParseSource(s).Ok?
    ensures WOr(e) && DOr(e) <= MAX_DEPTH && Spellable(YOr(e)) && TOr(e) == Shape(ParseSource(s).value)
    ensures |YOr(e)| + 1 == |Lexer.LexFrom(s, 0).value|
  {
    Lexer.LexWithin(s, 0);
    Lexer.LexedLexable(s, 0);
    var ts := Lexer.LexFrom(s, 0).value;
    e := SoundOr(ts, 0, 0);
    assert POr(ts, 0, 0).next == |ts| - 1;
    assert forall i :: 0 <= i < |YOr(e)| ==> YOr(e)[i] == ts[0..|ts| - 1][i].lexeme == ts[i].lexeme;
  }

  /**
   * The trees that some source text parses to are exactly the writable ones whose minimal text nests at most
   * 40 deep.
   */
  lemma BuildableTrees(t: Node)
    requires t == Shape(t)
    ensures (exists s :: ParseSource(s).Ok? && Shape(ParseSource(s).value) == t) <==>
            Printable(t) && Nest(t, 0) <= 40
  {
    if exists s :: ParseSource(s).Ok? && Shape(ParseSource(s).value) == t {
      var s :| ParseSource(s).Ok? && Shape(ParseSource(s).value) == t;
      var e := AcceptedDerives(s);
      FitOr(e);
      MinOr(e);
    }
    if Printable(t) && Nest(t, 0) <= MAX_DEPTH { PrintedParses(t); }
  }

  /** Printing a parsed tree and parsing the text again gives the same tree, for every source the parser accepts. */
  lemma RoundTrip(s: string)
    requires ParseSource(s).Ok?
    ensures var t := Shape(ParseSource(s).value);
            Printable(t) && ParseSource(SourceOf(t)).Ok? && Shape(ParseSource(SourceOf(t)).value) == t
  {
    var t := Shape(ParseSource(s).value);
    var e := AcceptedDerives(s);
    FitOr(e);
    MinOr(e);
    PrintedParses(t);
    ShapeTwice(ParseSource(s).value);
  }

  lemma {:induction false} ShapeTwice(t: Node)
    ensures Shape(Shape(t)) == Shape(t)
  {
    match t
    case List(items) =>
      forall i | 0 <= i < |items| ensures Shape(Shape(items[i])) == Shape(items[i]) { ShapeTwice(items[i]); }
    case Unary(_, arg) => ShapeTwice(arg);
    case Binary(_, left, right) => ShapeTwice(left); ShapeTwice(right);
    case Call(_, args, _) =>
      forall i | 0 <= i < |args| ensures Shape(Shape(args[i])) == Shape(args[i]) { ShapeTwice(args[i]); }
    case _ =>
  }

  /** Every source either gives a tree with fewer nodes than tokens, or an error that stands within the source. */
  lemma EveryParseEndsWell(s: string)
    ensures match ParseSource(s)
            case Ok(t) => Lexer.LexFrom(s, 0).Ok? && Size(Shape(t)) < |Lexer.LexFrom(s, 0).value| <= |s| + 1
            case Err(e) => e.position <= |s|
  {
    Lexer.LexWithin(s, 0);
    match ParseSource(s)
    case Ok(t) =>
      var e := AcceptedDerives(s);
      FitOr(e);
      FewTokens(s, 0);
    case Err(e) =>
  }

  lemma {:induction false} FewTokens(s: string, i: nat)
    requires i <= |s| && Lexer.LexFrom(s, i).Ok?
    ensures |Lexer.LexFrom(s, i).value| <= |s| - i + 1
    decreases |s| - i
  {
    hide Lexer.Scan, Lexer.IsSpace;
    if i == |s| {
    } else if Lexer.IsSpace(s[i]) {
      FewTokens(s, i + 1);
    } else {
      FewTokens(s, Lexer.Scan(s, i).value.1);
    }
  }
}
