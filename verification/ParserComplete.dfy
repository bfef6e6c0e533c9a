/** Every derivation of the grammar nested at most MAX_DEPTH deep is accepted, and as the tree it stands for. */
module ParserComplete {
  import opened Syntax
  import opened Options
  import opened Parser
  import opened Grammar
  import opened ParserSound
  import Lexer
  import Numerals

  /** The tokens from `at` spell ys, and a token follows them. */
  ghost predicate Spans(ts: seq<Token>, at: nat, ys: seq<Lexeme>)
  {
    Lexer.Ended(ts) && at + |ys| < |ts| && L(ts, at, at + |ys|) == ys
  }

  lemma Split(ts: seq<Token>, at: nat, xs: seq<Lexeme>, ys: seq<Lexeme>)
    requires Spans(ts, at, xs + ys)
    ensures Spans(ts, at, xs) && Spans(ts, at + |xs|, ys)
  {
    var b := at + |xs|;
    var c := b + |ys|;
    assert |xs + ys| == |xs| + |ys|;
    Join(ts, at, b, c);
    assert L(ts, at, b) == (xs + ys)[..|xs|] == xs;
    assert L(ts, b, c) == (xs + ys)[|xs|..] == ys;
  }

  lemma Head(ts: seq<Token>, at: nat, x: Lexeme, ys: seq<Lexeme>)
    requires Spans(ts, at, [x] + ys)
    ensures ts[at].lexeme == x && Spans(ts, at + 1, ys)
  {
    Split(ts, at, [x], ys);
    One(ts, at);
  }

  lemma First(ts: seq<Token>, at: nat, ys: seq<Lexeme>)
    requires Spans(ts, at, ys) && |ys| > 0
    ensures ts[at].lexeme == ys[0]
  {
    assert ys == [ys[0]] + ys[1..];
    Head(ts, at, ys[0], ys[1..]);
  }

  /** Token n would be taken as a continuation by the nonterminal of level k or a looser one below it. */
  predicate Continues(ts: seq<Token>, n: nat, k: nat)
    requires n < |ts|
  {
    (k <= 0 && IsOp(ts[n], "||"))
    || (k <= 1 && IsOp(ts[n], "&&"))
    || (k <= 2 && (RelationOf(ts[n]).Some? || IsWord(ts[n], "in") || IsNotIn(ts, n)))
    || (k <= 3 && SumOpOf(ts[n]).Some?)
    || (k <= 4 && ProductOpOf(ts[n]).Some?)
    || IsOp(ts[n], ".") || IsOp(ts[n], "(")
  }

  lemma CompleteOr(e: OrE, ts: seq<Token>, at: nat, d: int)
    requires WOr(e) && Spans(ts, at, YOr(e)) && d + DOr(e) <= MAX_DEPTH && !Continues(ts, at + |YOr(e)|, 0)
    ensures POr(ts, at, d).Done? && POr(ts, at, d).next == at + |YOr(e)| && Shape(POr(ts, at, d).value) == TOr(e)
    decreases e
  {
    hide YAnd, PAnd, TAnd, DAnd, WAnd, L, Lexer.Ended, Opens;
    Split(ts, at, YAnd(e.first), YOrTail(e.rest));
    var next := at + |YAnd(e.first)|;
    OrTailStarts(e.rest, ts, next);
    CompleteAnd(e.first, ts, at, d + 1);
    CompleteOrTail(e.rest, ts, next, d + 1, PAnd(ts, at, d + 1).value);
  }

  lemma OrTailStarts(t: OrTail, ts: seq<Token>, at: nat)
    requires Spans(ts, at, YOrTail(t)) && !Continues(ts, at + |YOrTail(t)|, 0)
    ensures !Continues(ts, at, 1)
  {
    if t.OrMore? { First(ts, at, YOrTail(t)); }
  }

  lemma CompleteOrTail(t: OrTail, ts: seq<Token>, at: nat, d: int, left: Node)
    requires WOrTail(t) && Spans(ts, at, YOrTail(t)) && d + DOrTail(t) <= MAX_DEPTH &&
             !Continues(ts, at + |YOrTail(t)|, 0)
    ensures OrLoop(ts, at, d, left).Done? && OrLoop(ts, at, d, left).next == at + |YOrTail(t)|
    ensures Shape(OrLoop(ts, at, d, left).value) == TOrTail(Shape(left), t)
    decreases t
  {
    hide YAnd, PAnd, TAnd, DAnd, WAnd, L, Lexer.Ended, Opens;
    match t
    case OrEnd =>
    case OrMore(e, rest) =>
      assert YOrTail(t) == [Sym("||")] + (YAnd(e) + YOrTail(rest));
      Head(ts, at, Sym("||"), YAnd(e) + YOrTail(rest));
      Split(ts, at + 1, YAnd(e), YOrTail(rest));
      var next := at + 1 + |YAnd(e)|;
      OrTailStarts(rest, ts, next);
      CompleteAnd(e, ts, at + 1, d);
      CompleteOrTail(rest, ts, next, d, Binary(Or, left, PAnd(ts, at + 1, d).value));
  }

  lemma CompleteAnd(e: AndE, ts: seq<Token>, at: nat, d: int)
    requires WAnd(e) && Spans(ts, at, YAnd(e)) && d + DAnd(e) <= MAX_DEPTH && !Continues(ts, at + |YAnd(e)|, 1)
    ensures PAnd(ts, at, d).Done? && PAnd(ts, at, d).next == at + |YAnd(e)| && Shape(PAnd(ts, at, d).value) == TAnd(e)
    decreases e
  {
    hide YNot, PNot, TNot, DNot, WNot, L, Lexer.Ended, Opens;
    Split(ts, at, YNot(e.first), YAndTail(e.rest));
    var next := at + |YNot(e.first)|;
    AndTailStarts(e.rest, ts, next);
    CompleteNot(e.first, ts, at, d);
    CompleteAndTail(e.rest, ts, next, d, PNot(ts, at, d).value);
  }

  lemma AndTailStarts(t: AndTail, ts: seq<Token>, at: nat)
    requires Spans(ts, at, YAndTail(t)) && !Continues(ts, at + |YAndTail(t)|, 1)
    ensures !Continues(ts, at, 2)
  {
    if t.AndMore? { First(ts, at, YAndTail(t)); }
  }

  lemma CompleteAndTail(t: AndTail, ts: seq<Token>, at: nat, d: int, left: Node)
    requires WAndTail(t) && Spans(ts, at, YAndTail(t)) && d + DAndTail(t) <= MAX_DEPTH &&
             !Continues(ts, at + |YAndTail(t)|, 1)
    ensures AndLoop(ts, at, d, left).Done? && AndLoop(ts, at, d, left).next == at + |YAndTail(t)|
    ensures Shape(AndLoop(ts, at, d, left).value) == TAndTail(Shape(left), t)
    decreases t
  {
    hide YNot, PNot, TNot, DNot, WNot, L, Lexer.Ended, Opens;
    match t
    case AndEnd =>
    case AndMore(e, rest) =>
      assert YAndTail(t) == [Sym("&&")] + (YNot(e) + YAndTail(rest));
      Head(ts, at, Sym("&&"), YNot(e) + YAndTail(rest));
      Split(ts, at + 1, YNot(e), YAndTail(rest));
      var next := at + 1 + |YNot(e)|;
      AndTailStarts(rest, ts, next);
      CompleteNot(e, ts, at + 1, d);
      CompleteAndTail(rest, ts, next, d, Binary(And, left, PNot(ts, at + 1, d).value));
  }

  lemma CompleteNot(e: NotE, ts: seq<Token>, at: nat, d: int)
    requires WNot(e) && Spans(ts, at, YNot(e)) && d + DNot(e) <= MAX_DEPTH && !Continues(ts, at + |YNot(e)|, 2)
    ensures PNot(ts, at, d).Done? && PNot(ts, at, d).next == at + |YNot(e)| && Shape(PNot(ts, at, d).value) == TNot(e)
    decreases e
  {
    hide YCompare, PComparison, TCompare, DCompare, WCompare, L, Lexer.Ended, Opens;
    match e
    case Bang(arg) =>
      Head(ts, at, Sym("!"), YNot(arg));
      CompleteNot(arg, ts, at + 1, d + 1);
    case Plain(c) =>
      CompleteCompare(c, ts, at, d);
      NoBang(c);
      First(ts, at, YCompare(c));
  }

  /** A comparison never starts with `!`, and a primary never with `-`. */
  lemma NoBang(c: CompareE)
    ensures YCompare(c)[0] != Sym("!")
  {
    var s := match c case Bare(s) => s case Compare(_, left, _) => left case NotIn(left, _) => left;
    var u := s.first.first;
    assert YSum(s)[0] == YProduct(s.first)[0] == YUnary(u)[0];
    if u.Primary? { PrimaryStarts(u.primary); }
  }

  lemma PrimaryStarts(p: PrimaryE)
    ensures YPrimary(p)[0] != Sym("!") && YPrimary(p)[0] != Sym("-")
  {
  }

  lemma CompleteCompare(e: CompareE, ts: seq<Token>, at: nat, d: int)
    requires WCompare(e) && Spans(ts, at, YCompare(e)) && d + DCompare(e) <= MAX_DEPTH &&
             !Continues(ts, at + |YCompare(e)|, 2)
    ensures PComparison(ts, at, d).Done? && PComparison(ts, at, d).next == at + |YCompare(e)|
    ensures Shape(PComparison(ts, at, d).value) == TCompare(e)
    decreases e, 1
  {
    hide YSum, PSum, TSum, DSum, WSum, L, Lexer.Ended, Opens;
    match e
    case Bare(s) =>
      CompleteSum(s, ts, at, d);
    case Compare(r, left, right) =>
      assert YCompare(e) == YSum(left) + ([RelationLexeme(r)] + YSum(right));
      Split(ts, at, YSum(left), [RelationLexeme(r)] + YSum(right));
      var next := at + |YSum(left)|;
      Head(ts, next, RelationLexeme(r), YSum(right));
      CompleteSum(left, ts, at, d);
      CompleteSum(right, ts, next + 1, d);
    case NotIn(left, right) =>
      CompleteNotIn(left, right, ts, at, d);
  }

  lemma CompleteNotIn(left: SumE, right: SumE, ts: seq<Token>, at: nat, d: int)
    requires var e := NotIn(left, right);
             WCompare(e) && Spans(ts, at, YCompare(e)) && d + DCompare(e) <= MAX_DEPTH &&
                 !Continues(ts, at + |YCompare(e)|, 2)
    ensures var e := NotIn(left, right);
            PComparison(ts, at, d).Done? && PComparison(ts, at, d).next == at + |YCompare(e)| &&
                Shape(PComparison(ts, at, d).value) == TCompare(e)
    decreases NotIn(left, right), 0
  {
    hide YSum, PSum, TSum, DSum, WSum, L, Lexer.Ended, Opens;
    assert YCompare(NotIn(left, right)) == YSum(left) + ([Wrd("not")] + ([Wrd("in")] + YSum(right)));
    Split(ts, at, YSum(left), [Wrd("not")] + ([Wrd("in")] + YSum(right)));
    var next := at + |YSum(left)|;
    Head(ts, next, Wrd("not"), [Wrd("in")] + YSum(right));
    Head(ts, next + 1, Wrd("in"), YSum(right));
    CompleteSum(left, ts, at, d);
    CompleteSum(right, ts, next + 2, d);
  }

  lemma CompleteSum(e: SumE, ts: seq<Token>, at: nat, d: int)
    requires WSum(e) && Spans(ts, at, YSum(e)) && d + DSum(e) <= MAX_DEPTH && !Continues(ts, at + |YSum(e)|, 3)
    ensures PSum(ts, at, d).Done? && PSum(ts, at, d).next == at + |YSum(e)| && Shape(PSum(ts, at, d).value) == TSum(e)
    decreases e
  {
    hide YProduct, PProduct, TProduct, DProduct, WProduct, L, Lexer.Ended, Opens;
    Split(ts, at, YProduct(e.first), YSumTail(e.rest));
    var next := at + |YProduct(e.first)|;
    SumTailStarts(e.rest, ts, next);
    CompleteProduct(e.first, ts, at, d);
    CompleteSumTail(e.rest, ts, next, d, PProduct(ts, at, d).value);
  }

  lemma SumTailStarts(t: SumTail, ts: seq<Token>, at: nat)
    requires Spans(ts, at, YSumTail(t)) && !Continues(ts, at + |YSumTail(t)|, 3)
    ensures !Continues(ts, at, 4)
  {
    if t.SumMore? { First(ts, at, YSumTail(t)); }
  }

  lemma CompleteSumTail(t: SumTail, ts: seq<Token>, at: nat, d: int, left: Node)
    requires WSumTail(t) && Spans(ts, at, YSumTail(t)) && d + DSumTail(t) <= MAX_DEPTH &&
             !Continues(ts, at + |YSumTail(t)|, 3)
    ensures SumLoop(ts, at, d, left).Done? && SumLoop(ts, at, d, left).next == at + |YSumTail(t)|
    ensures Shape(SumLoop(ts, at, d, left).value) == TSumTail(Shape(left), t)
    decreases t
  {
    hide YProduct, PProduct, TProduct, DProduct, WProduct, L, Lexer.Ended, Opens;
    match t
    case SumEnd =>
    case SumMore(op, e, rest) =>
      assert YSumTail(t) == [SumLexeme(op)] + (YProduct(e) + YSumTail(rest));
      Head(ts, at, SumLexeme(op), YProduct(e) + YSumTail(rest));
      Split(ts, at + 1, YProduct(e), YSumTail(rest));
      var next := at + 1 + |YProduct(e)|;
      SumTailStarts(rest, ts, next);
      CompleteProduct(e, ts, at + 1, d);
      CompleteSumTail(rest, ts, next, d, Binary(Additive(op), left, PProduct(ts, at + 1, d).value));
  }

  lemma CompleteProduct(e: ProductE, ts: seq<Token>, at: nat, d: int)
    requires WProduct(e) && Spans(ts, at, YProduct(e)) && d + DProduct(e) <= MAX_DEPTH &&
             !Continues(ts, at + |YProduct(e)|, 4)
    ensures PProduct(ts, at, d).Done? && PProduct(ts, at, d).next == at + |YProduct(e)|
    ensures Shape(PProduct(ts, at, d).value) == TProduct(e)
    decreases e
  {
    hide YUnary, PUnary, TUnary, DUnary, WUnary, L, Lexer.Ended, Opens;
    Split(ts, at, YUnary(e.first), YProductTail(e.rest));
    var next := at + |YUnary(e.first)|;
    ProductTailStarts(e.rest, ts, next);
    CompleteUnary(e.first, ts, at, d);
    CompleteProductTail(e.rest, ts, next, d, PUnary(ts, at, d).value);
  }

  lemma ProductTailStarts(t: ProductTail, ts: seq<Token>, at: nat)
    requires Spans(ts, at, YProductTail(t)) && !Continues(ts, at + |YProductTail(t)|, 4)
    ensures !Continues(ts, at, 5)
  {
    if t.ProductMore? { First(ts, at, YProductTail(t)); }
  }

  lemma CompleteProductTail(t: ProductTail, ts: seq<Token>, at: nat, d: int, left: Node)
    requires WProductTail(t) && Spans(ts, at, YProductTail(t)) && d + DProductTail(t) <= MAX_DEPTH
    requires !Continues(ts, at + |YProductTail(t)|, 4)
    ensures ProductLoop(ts, at, d, left).Done? && ProductLoop(ts, at, d, left).next == at + |YProductTail(t)|
    ensures Shape(ProductLoop(ts, at, d, left).value) == TProductTail(Shape(left), t)
    decreases t
  {
    hide YUnary, PUnary, TUnary, DUnary, WUnary, L, Lexer.Ended, Opens;
    match t
    case ProductEnd =>
    case ProductMore(op, e, rest) =>
      assert YProductTail(t) == [ProductLexeme(op)] + (YUnary(e) + YProductTail(rest));
      Head(ts, at, ProductLexeme(op), YUnary(e) + YProductTail(rest));
      Split(ts, at + 1, YUnary(e), YProductTail(rest));
      var next := at + 1 + |YUnary(e)|;
      ProductTailStarts(rest, ts, next);
      CompleteUnary(e, ts, at + 1, d);
      CompleteProductTail(rest, ts, next, d, Binary(Multiplicative(op), left, PUnary(ts, at + 1, d).value));
  }

  lemma CompleteUnary(e: UnaryE, ts: seq<Token>, at: nat, d: int)
    requires WUnary(e) && Spans(ts, at, YUnary(e)) && d + DUnary(e) <= MAX_DEPTH && !Continues(ts, at + |YUnary(e)|, 5)
    ensures PUnary(ts, at, d).Done? && PUnary(ts, at, d).next == at + |YUnary(e)| &&
            Shape(PUnary(ts, at, d).value) == TUnary(e)
    decreases e
  {
    hide YPrimary, PPrimary, TPrimary, DPrimary, WPrimary, L, Lexer.Ended;
    match e
    case Minus(arg) =>
      Head(ts, at, Sym("-"), YUnary(arg));
      CompleteUnary(arg, ts, at + 1, d + 1);
    case Primary(p) =>
      PrimaryStarts(p);
      First(ts, at, YPrimary(p));
      CompletePrimary(p, ts, at, d);
  }

  ghost predicate Derives(e: PrimaryE, ts: seq<Token>, at: nat, d: int)
  {
    WPrimary(e) && Spans(ts, at, YPrimary(e)) && d + DPrimary(e) <= MAX_DEPTH
  }

  ghost predicate Accepts(e: PrimaryE, ts: seq<Token>, at: nat, d: int)
    requires Spans(ts, at, YPrimary(e))
  {
    PPrimary(ts, at, d).Done? && PPrimary(ts, at, d).next == at + |YPrimary(e)| &&
        Shape(PPrimary(ts, at, d).value) == TPrimary(e)
  }

  lemma CompletePrimary(e: PrimaryE, ts: seq<Token>, at: nat, d: int)
    requires Derives(e, ts, at, d) && !Continues(ts, at + |YPrimary(e)|, 5)
    ensures Accepts(e, ts, at, d)
    decreases e, 1
  {
    hide POr, YOr, TOr, DOr, WOr, PItems, YItems, TItems, DItems, WItems, PathLoop, NumberValue, DecimalValue, L,
        Lexer.Ended, Opens;
    First(ts, at, YPrimary(e));
    match e
    case NumberE(text) => Numerals.NumberMeans(text);
    case TextE(_) =>
    case Keyword(_) =>
    case Paren(inner) => CompleteParen(inner, ts, at, d);
    case ListE(items) => CompleteList(items, ts, at, d);
    case CallE(name, args) => CompleteCall(name, args, ts, at, d);
    case PathE(head, parts) =>
      Head(ts, at, Wrd(head), YParts(parts));
      if parts.PartMore? { First(ts, at + 1, YParts(parts)); }
      CompleteParts(parts, ts, at + 1, [head]);
  }

  lemma CompleteParen(inner: OrE, ts: seq<Token>, at: nat, d: int)
    requires Derives(Paren(inner), ts, at, d)
    ensures Accepts(Paren(inner), ts, at, d)
    decreases Paren(inner), 0
  {
    hide POr, YOr, TOr, DOr, WOr, PItems, YItems, TItems, DItems, WItems, PathLoop, NumberValue, DecimalValue, L,
        Lexer.Ended, Opens;
    assert YPrimary(Paren(inner)) == [Sym("(")] + (YOr(inner) + [Sym(")")]);
    Head(ts, at, Sym("("), YOr(inner) + [Sym(")")]);
    Split(ts, at + 1, YOr(inner), [Sym(")")]);
    First(ts, at + 1 + |YOr(inner)|, [Sym(")")]);
    CompleteOr(inner, ts, at + 1, d);
  }

  lemma CompleteList(items: Items, ts: seq<Token>, at: nat, d: int)
    requires Derives(ListE(items), ts, at, d)
    ensures Accepts(ListE(items), ts, at, d)
    decreases ListE(items), 0
  {
    hide POr, YOr, TOr, DOr, WOr, PItems, YItems, TItems, DItems, WItems, PathLoop, NumberValue, DecimalValue, L,
        Lexer.Ended, Opens;
    assert YPrimary(ListE(items)) == [Sym("[")] + (YItems(items) + [Sym("]")]);
    Head(ts, at, Sym("["), YItems(items) + [Sym("]")]);
    Split(ts, at + 1, YItems(items), [Sym("]")]);
    First(ts, at + 1 + |YItems(items)|, [Sym("]")]);
    CompleteItems(items, ts, at + 1, d, "]");
  }

  lemma CompleteCall(name: string, args: Items, ts: seq<Token>, at: nat, d: int)
    requires Derives(CallE(name, args), ts, at, d)
    ensures Accepts(CallE(name, args), ts, at, d)
    decreases CallE(name, args), 0
  {
    hide POr, YOr, TOr, DOr, WOr, PItems, YItems, TItems, DItems, WItems, PathLoop, NumberValue, DecimalValue, L,
        Lexer.Ended, Opens;
    assert YPrimary(CallE(name, args)) == [Wrd(name)] + ([Sym("(")] + (YItems(args) + [Sym(")")]));
    Head(ts, at, Wrd(name), [Sym("(")] + (YItems(args) + [Sym(")")]));
    Head(ts, at + 1, Sym("("), YItems(args) + [Sym(")")]);
    Split(ts, at + 2, YItems(args), [Sym(")")]);
    First(ts, at + 2 + |YItems(args)|, [Sym(")")]);
    CompleteItems(args, ts, at + 2, d, ")");
  }

  lemma CompleteParts(t: Parts, ts: seq<Token>, at: nat, path: seq<string>)
    requires WParts(t) && Spans(ts, at, YParts(t)) && !Continues(ts, at + |YParts(t)|, 5)
    ensures PathLoop(ts, at, path) == Done(Name(path + PartTexts(t)), at + |YParts(t)|)
    decreases t
  {
    match t
    case PartEnd =>
      assert path + [] == path;
    case PartMore(part, rest) =>
      assert YParts(t) == [Sym(".")] + ([part] + YParts(rest));
      Head(ts, at, Sym("."), [part] + YParts(rest));
      Head(ts, at + 1, part, YParts(rest));
      CompleteParts(rest, ts, at + 2, path + [part.value]);
      assert path + [part.value] + PartTexts(rest) == path + PartTexts(t);
  }

  lemma CompleteItems(e: Items, ts: seq<Token>, at: nat, d: int, close: string)
    requires WItems(e) && Spans(ts, at, YItems(e)) && d + DItems(e) <= MAX_DEPTH
    requires close in {")", "]"} && IsOp(ts[at + |YItems(e)|], close)
    ensures PItems(ts, at, d, close).Done? && PItems(ts, at, d, close).next == at + |YItems(e)| + 1
    ensures Shapes(PItems(ts, at, d, close).value) == TItems(e)
    decreases e
  {
    hide POr, YOr, TOr, DOr, WOr, L, Lexer.Ended;
    match e
    case NoItems =>
    case SomeItems(first, rest) =>
      Split(ts, at, YOr(first), YItemTail(rest));
      First(ts, at, YOr(first));
      var next := at + |YOr(first)|;
      ItemTailStarts(rest, ts, next, close);
      CompleteOr(first, ts, at, d);
      var item := POr(ts, at, d).value;
      CompleteItemTail(rest, ts, next, d, close, [item]);
      assert Shapes([item]) == [TOr(first)];
  }

  lemma ItemTailStarts(t: ItemTail, ts: seq<Token>, at: nat, close: string)
    requires Spans(ts, at, YItemTail(t)) && close in {")", "]"} && IsOp(ts[at + |YItemTail(t)|], close)
    ensures !Continues(ts, at, 0)
  {
    if t.ItemMore? { First(ts, at, YItemTail(t)); }
  }

  lemma CompleteItemTail(t: ItemTail, ts: seq<Token>, at: nat, d: int, close: string, items: seq<Node>)
    requires WItemTail(t) && Spans(ts, at, YItemTail(t)) && d + DItemTail(t) <= MAX_DEPTH
    requires close in {")", "]"} && IsOp(ts[at + |YItemTail(t)|], close)
    ensures ItemsLoop(ts, at, d, close, items).Done? &&
            ItemsLoop(ts, at, d, close, items).next == at + |YItemTail(t)| + 1
    ensures Shapes(ItemsLoop(ts, at, d, close, items).value) == Shapes(items) + TItemTail(t)
    decreases t
  {
    hide POr, YOr, TOr, DOr, WOr, L, Lexer.Ended, Opens;
    match t
    case ItemEnd =>
      assert Shapes(items) + [] == Shapes(items);
    case ItemMore(e, rest) =>
      assert YItemTail(t) == [Sym(",")] + (YOr(e) + YItemTail(rest));
      Head(ts, at, Sym(","), YOr(e) + YItemTail(rest));
      Split(ts, at + 1, YOr(e), YItemTail(rest));
      var next := at + 1 + |YOr(e)|;
      ItemTailStarts(rest, ts, next, close);
      CompleteOr(e, ts, at + 1, d);
      var item := POr(ts, at + 1, d).value;
      CompleteItemTail(rest, ts, next, d, close, items + [item]);
      ShapesGrow(items, item, TItemTail(rest));
  }

  lemma ShapesGrow(items: seq<Node>, item: Node, rest: seq<Node>)
    ensures Shapes(items + [item]) + rest == Shapes(items) + ([Shape(item)] + rest)
  {
  }
}
