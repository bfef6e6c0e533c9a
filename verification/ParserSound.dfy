/** Everything the parser accepts is a derivation of the grammar, nested at most MAX_DEPTH deep. */
module ParserSound {
  import opened Syntax
  import opened Options
  import opened Parser
  import opened Grammar
  import Lexer
  import Numerals

  /** The lexemes of the tokens from a up to b. */
  function L(ts: seq<Token>, a: nat, b: nat): seq<Lexeme>
    requires a <= b <= |ts|
  {
    Lexer.Lexemes(ts[a..b])
  }

  lemma Join(ts: seq<Token>, a: nat, b: nat, c: nat)
    requires a <= b <= c <= |ts|
    ensures L(ts, a, c) == L(ts, a, b) + L(ts, b, c)
  {
  }

  lemma One(ts: seq<Token>, a: nat)
    requires a < |ts|
    ensures L(ts, a, a + 1) == [ts[a].lexeme]
  {
  }

  lemma Nothing(ts: seq<Token>, a: nat)
    requires a <= |ts|
    ensures L(ts, a, a) == []
  {
  }

  lemma SoundOr(ts: seq<Token>, at: nat, d: int) returns (e: OrE)
    requires At(ts, at) && POr(ts, at, d).Done?
    ensures WOr(e) && YOr(e) == L(ts, at, POr(ts, at, d).next)
    ensures TOr(e) == Shape(POr(ts, at, d).value) && d + DOr(e) <= MAX_DEPTH
    decreases |ts| - at, 9
  {
    hide PAnd, YAnd, TAnd, DAnd, WAnd, L;
    var Done(left, next) := PAnd(ts, at, d + 1);
    var first := SoundAnd(ts, at, d + 1);
    var rest := SoundOrTail(ts, next, d + 1, left);
    e := OrE(first, rest);
    Join(ts, at, next, POr(ts, at, d).next);
  }

  lemma SoundOrTail(ts: seq<Token>, at: nat, d: int, left: Node) returns (t: OrTail)
    requires At(ts, at) && OrLoop(ts, at, d, left).Done? && d <= MAX_DEPTH
    ensures WOrTail(t) && YOrTail(t) == L(ts, at, OrLoop(ts, at, d, left).next)
    ensures TOrTail(Shape(left), t) == Shape(OrLoop(ts, at, d, left).value) && d + DOrTail(t) <= MAX_DEPTH
    decreases |ts| - at, 0
  {
    hide PAnd, YAnd, TAnd, DAnd, WAnd, L;
    if IsOp(ts[at], "||") {
      var Done(right, next) := PAnd(ts, at + 1, d);
      var e := SoundAnd(ts, at + 1, d);
      var rest := SoundOrTail(ts, next, d, Binary(Or, left, right));
      t := OrMore(e, rest);
      One(ts, at); Join(ts, at, at + 1, next); Join(ts, at, next, OrLoop(ts, at, d, left).next);
    } else {
      t := OrEnd;
      Nothing(ts, at);
    }
  }

  lemma SoundAnd(ts: seq<Token>, at: nat, d: int) returns (e: AndE)
    requires At(ts, at) && PAnd(ts, at, d).Done? && d <= MAX_DEPTH
    ensures WAnd(e) && YAnd(e) == L(ts, at, PAnd(ts, at, d).next)
    ensures TAnd(e) == Shape(PAnd(ts, at, d).value) && d + DAnd(e) <= MAX_DEPTH
    decreases |ts| - at, 8
  {
    hide PNot, YNot, TNot, DNot, WNot, L;
    var Done(left, next) := PNot(ts, at, d);
    var first := SoundNot(ts, at, d);
    var rest := SoundAndTail(ts, next, d, left);
    e := AndE(first, rest);
    Join(ts, at, next, PAnd(ts, at, d).next);
  }

  lemma SoundAndTail(ts: seq<Token>, at: nat, d: int, left: Node) returns (t: AndTail)
    requires At(ts, at) && AndLoop(ts, at, d, left).Done? && d <= MAX_DEPTH
    ensures WAndTail(t) && YAndTail(t) == L(ts, at, AndLoop(ts, at, d, left).next)
    ensures TAndTail(Shape(left), t) == Shape(AndLoop(ts, at, d, left).value) && d + DAndTail(t) <= MAX_DEPTH
    decreases |ts| - at, 0
  {
    hide PNot, YNot, TNot, DNot, WNot, L;
    if IsOp(ts[at], "&&") {
      var Done(right, next) := PNot(ts, at + 1, d);
      var e := SoundNot(ts, at + 1, d);
      var rest := SoundAndTail(ts, next, d, Binary(And, left, right));
      t := AndMore(e, rest);
      One(ts, at); Join(ts, at, at + 1, next); Join(ts, at, next, AndLoop(ts, at, d, left).next);
    } else {
      t := AndEnd;
      Nothing(ts, at);
    }
  }

  lemma SoundNot(ts: seq<Token>, at: nat, d: int) returns (e: NotE)
    requires At(ts, at) && PNot(ts, at, d).Done? && d <= MAX_DEPTH
    ensures WNot(e) && YNot(e) == L(ts, at, PNot(ts, at, d).next)
    ensures TNot(e) == Shape(PNot(ts, at, d).value) && d + DNot(e) <= MAX_DEPTH
    decreases |ts| - at, 7
  {
    hide PComparison, YCompare, TCompare, DCompare, WCompare, L;
    if IsOp(ts[at], "!") {
      var arg := SoundNot(ts, at + 1, d + 1);
      e := Bang(arg);
      One(ts, at); Join(ts, at, at + 1, PNot(ts, at, d).next);
    } else {
      var c := SoundComparison(ts, at, d);
      e := Plain(c);
    }
  }

  lemma SoundComparison(ts: seq<Token>, at: nat, d: int) returns (e: CompareE)
    requires At(ts, at) && PComparison(ts, at, d).Done? && d <= MAX_DEPTH
    ensures WCompare(e) && YCompare(e) == L(ts, at, PComparison(ts, at, d).next)
    ensures TCompare(e) == Shape(PComparison(ts, at, d).value) && d + DCompare(e) <= MAX_DEPTH
    decreases |ts| - at, 6
  {
    hide PSum, YSum, TSum, DSum, WSum, L;
    var Done(_, next) := PSum(ts, at, d);
    var end := PComparison(ts, at, d).next;
    var left := SoundSum(ts, at, d);
    One(ts, next);
    if RelationOf(ts[next]).Some? {
      var right := SoundSum(ts, next + 1, d);
      e := Compare(RelationOf(ts[next]).value, left, right);
      Join(ts, at, next, next + 1); Join(ts, at, next + 1, end);
    } else if IsWord(ts[next], "in") {
      var right := SoundSum(ts, next + 1, d);
      e := Compare(In, left, right);
      Join(ts, at, next, next + 1); Join(ts, at, next + 1, end);
    } else if IsNotIn(ts, next) {
      var right := SoundSum(ts, next + 2, d);
      e := NotIn(left, right);
      One(ts, next + 1); Join(ts, next, next + 1, next + 2); Join(ts, at, next, next + 2); Join(ts, at, next + 2, end);
    } else {
      e := Bare(left);
    }
  }

  lemma SoundSum(ts: seq<Token>, at: nat, d: int) returns (e: SumE)
    requires At(ts, at) && PSum(ts, at, d).Done? && d <= MAX_DEPTH
    ensures WSum(e) && YSum(e) == L(ts, at, PSum(ts, at, d).next)
    ensures TSum(e) == Shape(PSum(ts, at, d).value) && d + DSum(e) <= MAX_DEPTH
    decreases |ts| - at, 5
  {
    hide PProduct, YProduct, TProduct, DProduct, WProduct, L;
    var Done(left, next) := PProduct(ts, at, d);
    var first := SoundProduct(ts, at, d);
    var rest := SoundSumTail(ts, next, d, left);
    e := SumE(first, rest);
    Join(ts, at, next, PSum(ts, at, d).next);
  }

  lemma SoundSumTail(ts: seq<Token>, at: nat, d: int, left: Node) returns (t: SumTail)
    requires At(ts, at) && SumLoop(ts, at, d, left).Done? && d <= MAX_DEPTH
    ensures WSumTail(t) && YSumTail(t) == L(ts, at, SumLoop(ts, at, d, left).next)
    ensures TSumTail(Shape(left), t) == Shape(SumLoop(ts, at, d, left).value) && d + DSumTail(t) <= MAX_DEPTH
    decreases |ts| - at, 0
  {
    hide PProduct, YProduct, TProduct, DProduct, WProduct, L;
    if SumOpOf(ts[at]).Some? {
      var op := SumOpOf(ts[at]).value;
      var Done(right, next) := PProduct(ts, at + 1, d);
      var e := SoundProduct(ts, at + 1, d);
      var rest := SoundSumTail(ts, next, d, Binary(Additive(op), left, right));
      t := SumMore(op, e, rest);
      One(ts, at); Join(ts, at, at + 1, next); Join(ts, at, next, SumLoop(ts, at, d, left).next);
    } else {
      t := SumEnd;
      Nothing(ts, at);
    }
  }

  lemma SoundProduct(ts: seq<Token>, at: nat, d: int) returns (e: ProductE)
    requires At(ts, at) && PProduct(ts, at, d).Done? && d <= MAX_DEPTH
    ensures WProduct(e) && YProduct(e) == L(ts, at, PProduct(ts, at, d).next)
    ensures TProduct(e) == Shape(PProduct(ts, at, d).value) && d + DProduct(e) <= MAX_DEPTH
    decreases |ts| - at, 4
  {
    hide PUnary, YUnary, TUnary, DUnary, WUnary, L;
    var Done(left, next) := PUnary(ts, at, d);
    var first := SoundUnary(ts, at, d);
    var rest := SoundProductTail(ts, next, d, left);
    e := ProductE(first, rest);
    Join(ts, at, next, PProduct(ts, at, d).next);
  }

  lemma SoundProductTail(ts: seq<Token>, at: nat, d: int, left: Node) returns (t: ProductTail)
    requires At(ts, at) && ProductLoop(ts, at, d, left).Done? && d <= MAX_DEPTH
    ensures WProductTail(t) && YProductTail(t) == L(ts, at, ProductLoop(ts, at, d, left).next)
    ensures TProductTail(Shape(left), t) == Shape(ProductLoop(ts, at, d, left).value) &&
            d + DProductTail(t) <= MAX_DEPTH
    decreases |ts| - at, 0
  {
    hide PUnary, YUnary, TUnary, DUnary, WUnary, L;
    if ProductOpOf(ts[at]).Some? {
      var op := ProductOpOf(ts[at]).value;
      var Done(right, next) := PUnary(ts, at + 1, d);
      var e := SoundUnary(ts, at + 1, d);
      var rest := SoundProductTail(ts, next, d, Binary(Multiplicative(op), left, right));
      t := ProductMore(op, e, rest);
      One(ts, at); Join(ts, at, at + 1, next); Join(ts, at, next, ProductLoop(ts, at, d, left).next);
    } else {
      t := ProductEnd;
      Nothing(ts, at);
    }
  }

  lemma SoundUnary(ts: seq<Token>, at: nat, d: int) returns (e: UnaryE)
    requires At(ts, at) && PUnary(ts, at, d).Done? && d <= MAX_DEPTH
    ensures WUnary(e) && YUnary(e) == L(ts, at, PUnary(ts, at, d).next)
    ensures TUnary(e) == Shape(PUnary(ts, at, d).value) && d + DUnary(e) <= MAX_DEPTH
    decreases |ts| - at, 3
  {
    hide PPrimary, YPrimary, TPrimary, DPrimary, WPrimary, L;
    if IsOp(ts[at], "-") {
      var arg := SoundUnary(ts, at + 1, d + 1);
      e := UnaryE.Minus(arg);
      One(ts, at); Join(ts, at, at + 1, PUnary(ts, at, d).next);
    } else {
      var p := SoundPrimary(ts, at, d);
      e := Primary(p);
    }
  }

  lemma SoundPrimary(ts: seq<Token>, at: nat, d: int) returns (e: PrimaryE)
    requires At(ts, at) && PPrimary(ts, at, d).Done? && d <= MAX_DEPTH
    ensures WPrimary(e) && YPrimary(e) == L(ts, at, PPrimary(ts, at, d).next)
    ensures TPrimary(e) == Shape(PPrimary(ts, at, d).value) && d + DPrimary(e) <= MAX_DEPTH
    decreases |ts| - at, 2
  {
    hide POr, YOr, TOr, DOr, WOr, PItems, YItems, TItems, DItems, WItems, PathLoop, NumberValue, DecimalValue, L;
    var t := ts[at];
    var end := PPrimary(ts, at, d).next;
    One(ts, at);
    match t.lexeme.kind
    case Num =>
      e := NumberE(t.lexeme.value);
      Numerals.NumberMeans(t.lexeme.value);
    case Str => e := TextE(t.lexeme.value);
    case Op =>
      if IsOp(t, "(") {
        var Done(_, next) := POr(ts, at + 1, d);
        var inner := SoundOr(ts, at + 1, d);
        e := Paren(inner);
        One(ts, next); Join(ts, at, at + 1, next); Join(ts, at, next, end);
      } else {
        var items := SoundItems(ts, at + 1, d, "]");
        e := ListE(items);
        One(ts, end - 1); Join(ts, at, at + 1, end - 1); Join(ts, at, end - 1, end);
      }
    case Word =>
      if t.lexeme.value == "true" { e := Keyword(LBool(true)); }
      else if t.lexeme.value == "false" { e := Keyword(LBool(false)); }
      else if t.lexeme.value == "null" { e := Keyword(LNull); }
      else if IsOp(ts[at + 1], "(") {
        var args := SoundItems(ts, at + 2, d, ")");
        e := CallE(t.lexeme.value, args);
        One(ts, at + 1); One(ts, end - 1);
        Join(ts, at, at + 1, at + 2); Join(ts, at, at + 2, end - 1); Join(ts, at, end - 1, end);
      } else {
        var parts := SoundParts(ts, at + 1, [t.lexeme.value]);
        e := PathE(t.lexeme.value, parts);
        Join(ts, at, at + 1, end);
      }
  }

  lemma SoundParts(ts: seq<Token>, at: nat, path: seq<string>) returns (t: Parts)
    requires At(ts, at) && PathLoop(ts, at, path).Done?
    ensures WParts(t) && YParts(t) == L(ts, at, PathLoop(ts, at, path).next)
    ensures PathLoop(ts, at, path).value == Name(path + PartTexts(t))
    decreases |ts| - at
  {
    if IsOp(ts[at], ".") {
      var part := ts[at + 1].lexeme;
      var rest := SoundParts(ts, at + 2, path + [part.value]);
      t := PartMore(part, rest);
      One(ts, at); One(ts, at + 1); Join(ts, at, at + 1, at + 2); Join(ts, at, at + 2, PathLoop(ts, at, path).next);
      assert path + [part.value] + PartTexts(rest) == path + PartTexts(t);
    } else {
      t := PartEnd;
      Nothing(ts, at);
      assert path + [] == path;
    }
  }

  lemma SoundItems(ts: seq<Token>, at: nat, d: int, close: string) returns (e: Items)
    requires At(ts, at) && PItems(ts, at, d, close).Done? && d <= MAX_DEPTH
    ensures IsOp(ts[PItems(ts, at, d, close).next - 1], close)
    ensures WItems(e) && YItems(e) == L(ts, at, PItems(ts, at, d, close).next - 1)
    ensures TItems(e) == Shapes(PItems(ts, at, d, close).value) && d + DItems(e) <= MAX_DEPTH
    decreases |ts| - at, 10
  {
    hide POr, YOr, TOr, DOr, WOr, L;
    if IsOp(ts[at], close) {
      e := NoItems;
      Nothing(ts, at);
    } else {
      var Done(item, next) := POr(ts, at, d);
      var first := SoundOr(ts, at, d);
      var rest := SoundItemTail(ts, next, d, close, [item]);
      e := SomeItems(first, rest);
      Join(ts, at, next, PItems(ts, at, d, close).next - 1);
    }
  }

  lemma SoundItemTail(ts: seq<Token>, at: nat, d: int, close: string, items: seq<Node>) returns (t: ItemTail)
    requires At(ts, at) && ItemsLoop(ts, at, d, close, items).Done? && d <= MAX_DEPTH
    ensures IsOp(ts[ItemsLoop(ts, at, d, close, items).next - 1], close)
    ensures WItemTail(t) && YItemTail(t) == L(ts, at, ItemsLoop(ts, at, d, close, items).next - 1)
    ensures Shapes(items) + TItemTail(t) == Shapes(ItemsLoop(ts, at, d, close, items).value) &&
            d + DItemTail(t) <= MAX_DEPTH
    decreases |ts| - at, 0
  {
    hide POr, YOr, TOr, DOr, WOr, L;
    var end := ItemsLoop(ts, at, d, close, items).next - 1;
    if IsOp(ts[at], ",") {
      var Done(item, next) := POr(ts, at + 1, d);
      var e := SoundOr(ts, at + 1, d);
      var rest := SoundItemTail(ts, next, d, close, items + [item]);
      t := ItemMore(e, rest);
      One(ts, at); Join(ts, at, at + 1, next); Join(ts, at, next, end);
      assert Shapes(items + [item]) + TItemTail(rest) == Shapes(items) + ([TOr(e)] + TItemTail(rest));
    } else {
      t := ItemEnd;
      Nothing(ts, at);
      assert Shapes(items) + [] == Shapes(items);
    }
  }
}
