/**
 * Which token a refused source is blamed on: the first at which no expression can go on, unless the source nests too
 * deeply.
 */
module ParserErrors {
  import opened Syntax
  import opened Options
  import opened Parser
  import opened Grammar
  import opened ParserReads
  import opened ParserSound
  import Language
  import Lexer
  import ParserComplete

  // ---- what was read can be gone on with --------------------------------------------------------

  /** The tokens from at to j are the first of these lexemes. */
  ghost predicate Begins(ts: seq<Token>, at: nat, j: nat, ys: seq<Lexeme>)
  {
    at <= j < |ts| && j - at <= |ys| && L(ts, at, j) == ys[..j - at]
  }

  lemma BeginsMore(ts: seq<Token>, at: nat, j: nat, ys: seq<Lexeme>, zs: seq<Lexeme>)
    requires Begins(ts, at, j, ys)
    ensures Begins(ts, at, j, ys + zs)
  {
  }

  lemma BeginsAfter(ts: seq<Token>, at: nat, b: nat, j: nat, xs: seq<Lexeme>, ys: seq<Lexeme>)
    requires at <= b <= |ts| && L(ts, at, b) == xs && Begins(ts, b, j, ys)
    ensures Begins(ts, at, j, xs + ys)
  {
    Join(ts, at, b, j);
    assert |xs| == b - at;
    assert (xs + ys)[..j - at] == xs + ys[..j - b];
  }

  lemma BeginsHere(ts: seq<Token>, at: nat, ys: seq<Lexeme>)
    requires at < |ts|
    ensures Begins(ts, at, at, ys)
  {
    Nothing(ts, at);
  }

  /** Refused, and blamed on the token j. */
  ghost predicate Blamed<T>(ts: seq<Token>, r: Parse<T>, j: nat)
  {
    r.Fail? && j < |ts| && ts[j].position == r.error.position
  }

  /** Refused, but not for nesting too deeply. */
  predicate Shallow<T>(r: Parse<T>) { r.Fail? && r.error.problem != TooDeep }

  lemma ViableOr(ts: seq<Token>, at: nat, d: int) returns (e: OrE, j: nat)
    requires At(ts, at) && Shallow(POr(ts, at, d))
    ensures WOr(e) && d + DOr(e) <= MAX_DEPTH && Begins(ts, at, j, YOr(e)) && Blamed(ts, POr(ts, at, d), j)
    decreases |ts| - at, 9
  {
    hide PAnd, OrLoop, YAnd, DAnd, WAnd, Begins, L;
    match PAnd(ts, at, d + 1)
    case Fail(_) =>
      var first, k := ViableAnd(ts, at, d + 1);
      e, j := OrE(first, OrEnd), k;
      BeginsMore(ts, at, j, YAnd(first), []);
    case Done(left, next) =>
      var first := SoundAnd(ts, at, d + 1);
      var rest, k := ViableOrLoop(ts, next, d + 1, left);
      e, j := OrE(first, rest), k;
      BeginsAfter(ts, at, next, j, YAnd(first), YOrTail(rest));
  }

  lemma ViableOrLoop(ts: seq<Token>, at: nat, d: int, left: Node) returns (t: OrTail, j: nat)
    requires At(ts, at) && d <= MAX_DEPTH && Shallow(OrLoop(ts, at, d, left))
    ensures WOrTail(t) && d + DOrTail(t) <= MAX_DEPTH && Begins(ts, at, j, YOrTail(t))
    ensures Blamed(ts, OrLoop(ts, at, d, left), j)
    decreases |ts| - at, 0
  {
    hide PAnd, YAnd, DAnd, WAnd, Begins, L;
    One(ts, at);
    match PAnd(ts, at + 1, d)
    case Fail(_) =>
      var e, k := ViableAnd(ts, at + 1, d);
      t, j := OrMore(e, OrEnd), k;
      BeginsAfter(ts, at, at + 1, j, [Sym("||")], YAnd(e));
      BeginsMore(ts, at, j, [Sym("||")] + YAnd(e), []);
    case Done(right, next) =>
      var e := SoundAnd(ts, at + 1, d);
      var rest, k := ViableOrLoop(ts, next, d, Binary(Or, left, right));
      t, j := OrMore(e, rest), k;
      Join(ts, at, at + 1, next);
      BeginsAfter(ts, at, next, j, [Sym("||")] + YAnd(e), YOrTail(rest));
  }

  lemma ViableAnd(ts: seq<Token>, at: nat, d: int) returns (e: AndE, j: nat)
    requires At(ts, at) && d <= MAX_DEPTH && Shallow(PAnd(ts, at, d))
    ensures WAnd(e) && d + DAnd(e) <= MAX_DEPTH && Begins(ts, at, j, YAnd(e)) && Blamed(ts, PAnd(ts, at, d), j)
    decreases |ts| - at, 8
  {
    hide PNot, AndLoop, YNot, DNot, WNot, Begins, L;
    match PNot(ts, at, d)
    case Fail(_) =>
      var first, k := ViableNot(ts, at, d);
      e, j := AndE(first, AndEnd), k;
      BeginsMore(ts, at, j, YNot(first), []);
    case Done(left, next) =>
      var first := SoundNot(ts, at, d);
      var rest, k := ViableAndLoop(ts, next, d, left);
      e, j := AndE(first, rest), k;
      BeginsAfter(ts, at, next, j, YNot(first), YAndTail(rest));
  }

  lemma ViableAndLoop(ts: seq<Token>, at: nat, d: int, left: Node) returns (t: AndTail, j: nat)
    requires At(ts, at) && d <= MAX_DEPTH && Shallow(AndLoop(ts, at, d, left))
    ensures WAndTail(t) && d + DAndTail(t) <= MAX_DEPTH && Begins(ts, at, j, YAndTail(t))
    ensures Blamed(ts, AndLoop(ts, at, d, left), j)
    decreases |ts| - at, 0
  {
    hide PNot, YNot, DNot, WNot, Begins, L;
    One(ts, at);
    match PNot(ts, at + 1, d)
    case Fail(_) =>
      var e, k := ViableNot(ts, at + 1, d);
      t, j := AndMore(e, AndEnd), k;
      BeginsAfter(ts, at, at + 1, j, [Sym("&&")], YNot(e));
      BeginsMore(ts, at, j, [Sym("&&")] + YNot(e), []);
    case Done(right, next) =>
      var e := SoundNot(ts, at + 1, d);
      var rest, k := ViableAndLoop(ts, next, d, Binary(And, left, right));
      t, j := AndMore(e, rest), k;
      Join(ts, at, at + 1, next);
      BeginsAfter(ts, at, next, j, [Sym("&&")] + YNot(e), YAndTail(rest));
  }

  lemma ViableNot(ts: seq<Token>, at: nat, d: int) returns (e: NotE, j: nat)
    requires At(ts, at) && d <= MAX_DEPTH && Shallow(PNot(ts, at, d))
    ensures WNot(e) && d + DNot(e) <= MAX_DEPTH && Begins(ts, at, j, YNot(e)) && Blamed(ts, PNot(ts, at, d), j)
    decreases |ts| - at, 7
  {
    hide PComparison, YCompare, DCompare, WCompare, Begins, L;
    if IsOp(ts[at], "!") {
      var arg, k := ViableNot(ts, at + 1, d + 1);
      e, j := Bang(arg), k;
      One(ts, at);
      BeginsAfter(ts, at, at + 1, j, [Sym("!")], YNot(arg));
    } else {
      var inner, k := ViableCompare(ts, at, d);
      e, j := Plain(inner), k;
    }
  }

  lemma ViableCompare(ts: seq<Token>, at: nat, d: int) returns (e: CompareE, j: nat)
    requires At(ts, at) && d <= MAX_DEPTH && Shallow(PComparison(ts, at, d))
    ensures WCompare(e) && d + DCompare(e) <= MAX_DEPTH && Begins(ts, at, j, YCompare(e))
    ensures Blamed(ts, PComparison(ts, at, d), j)
    decreases |ts| - at, 6
  {
    hide PSum, YSum, DSum, WSum, Begins, L;
    match PSum(ts, at, d) {
      case Fail(_) =>
        var sum, k := ViableSum(ts, at, d);
        e, j := Bare(sum), k;
      case Done(_, next) =>
        var left := SoundSum(ts, at, d);
        One(ts, next);
        Join(ts, at, next, next + 1);
        if RelationOf(ts[next]).Some? || IsWord(ts[next], "in") {
          var op := if RelationOf(ts[next]).Some? then RelationOf(ts[next]).value else In;
          var right, k := ViableSum(ts, next + 1, d);
          e, j := Compare(op, left, right), k;
          BeginsAfter(ts, at, next + 1, j, YSum(left) + [RelationLexeme(op)], YSum(right));
        } else {
          var right, k := ViableSum(ts, next + 2, d);
          e, j := NotIn(left, right), k;
          One(ts, next + 1); Join(ts, next, next + 1, next + 2); Join(ts, at, next, next + 2);
          BeginsAfter(ts, at, next + 2, j, YSum(left) + [Wrd("not"), Wrd("in")], YSum(right));
        }
    }
  }

  lemma ViableSum(ts: seq<Token>, at: nat, d: int) returns (e: SumE, j: nat)
    requires At(ts, at) && d <= MAX_DEPTH && Shallow(PSum(ts, at, d))
    ensures WSum(e) && d + DSum(e) <= MAX_DEPTH && Begins(ts, at, j, YSum(e)) && Blamed(ts, PSum(ts, at, d), j)
    decreases |ts| - at, 5
  {
    hide PProduct, SumLoop, YProduct, DProduct, WProduct, Begins, L;
    match PProduct(ts, at, d)
    case Fail(_) =>
      var first, k := ViableProduct(ts, at, d);
      e, j := SumE(first, SumEnd), k;
      BeginsMore(ts, at, j, YProduct(first), []);
    case Done(left, next) =>
      var first := SoundProduct(ts, at, d);
      var rest, k := ViableSumLoop(ts, next, d, left);
      e, j := SumE(first, rest), k;
      BeginsAfter(ts, at, next, j, YProduct(first), YSumTail(rest));
  }

  lemma ViableSumLoop(ts: seq<Token>, at: nat, d: int, left: Node) returns (t: SumTail, j: nat)
    requires At(ts, at) && d <= MAX_DEPTH && Shallow(SumLoop(ts, at, d, left))
    ensures WSumTail(t) && d + DSumTail(t) <= MAX_DEPTH && Begins(ts, at, j, YSumTail(t))
    ensures Blamed(ts, SumLoop(ts, at, d, left), j)
    decreases |ts| - at, 0
  {
    hide PProduct, YProduct, DProduct, WProduct, Begins, L;
    One(ts, at);
    var op := SumOpOf(ts[at]).value;
    match PProduct(ts, at + 1, d)
    case Fail(_) =>
      var e, k := ViableProduct(ts, at + 1, d);
      t, j := SumMore(op, e, SumEnd), k;
      BeginsAfter(ts, at, at + 1, j, [SumLexeme(op)], YProduct(e));
      BeginsMore(ts, at, j, [SumLexeme(op)] + YProduct(e), []);
    case Done(right, next) =>
      var e := SoundProduct(ts, at + 1, d);
      var rest, k := ViableSumLoop(ts, next, d, Binary(Additive(op), left, right));
      t, j := SumMore(op, e, rest), k;
      Join(ts, at, at + 1, next);
      BeginsAfter(ts, at, next, j, [SumLexeme(op)] + YProduct(e), YSumTail(rest));
  }

  lemma ViableProduct(ts: seq<Token>, at: nat, d: int) returns (e: ProductE, j: nat)
    requires At(ts, at) && d <= MAX_DEPTH && Shallow(PProduct(ts, at, d))
    ensures WProduct(e) && d + DProduct(e) <= MAX_DEPTH && Begins(ts, at, j, YProduct(e)) &&
            Blamed(ts, PProduct(ts, at, d), j)
    decreases |ts| - at, 4
  {
    hide PUnary, ProductLoop, YUnary, DUnary, WUnary, Begins, L;
    match PUnary(ts, at, d)
    case Fail(_) =>
      var first, k := ViableUnary(ts, at, d);
      e, j := ProductE(first, ProductEnd), k;
      BeginsMore(ts, at, j, YUnary(first), []);
    case Done(left, next) =>
      var first := SoundUnary(ts, at, d);
      var rest, k := ViableProductLoop(ts, next, d, left);
      e, j := ProductE(first, rest), k;
      BeginsAfter(ts, at, next, j, YUnary(first), YProductTail(rest));
  }

  lemma ViableProductLoop(ts: seq<Token>, at: nat, d: int, left: Node) returns (t: ProductTail, j: nat)
    requires At(ts, at) && d <= MAX_DEPTH && Shallow(ProductLoop(ts, at, d, left))
    ensures WProductTail(t) && d + DProductTail(t) <= MAX_DEPTH && Begins(ts, at, j, YProductTail(t))
    ensures Blamed(ts, ProductLoop(ts, at, d, left), j)
    decreases |ts| - at, 0
  {
    hide PUnary, YUnary, DUnary, WUnary, Begins, L;
    One(ts, at);
    var op := ProductOpOf(ts[at]).value;
    match PUnary(ts, at + 1, d)
    case Fail(_) =>
      var e, k := ViableUnary(ts, at + 1, d);
      t, j := ProductMore(op, e, ProductEnd), k;
      BeginsAfter(ts, at, at + 1, j, [ProductLexeme(op)], YUnary(e));
      BeginsMore(ts, at, j, [ProductLexeme(op)] + YUnary(e), []);
    case Done(right, next) =>
      var e := SoundUnary(ts, at + 1, d);
      var rest, k := ViableProductLoop(ts, next, d, Binary(Multiplicative(op), left, right));
      t, j := ProductMore(op, e, rest), k;
      Join(ts, at, at + 1, next);
      BeginsAfter(ts, at, next, j, [ProductLexeme(op)] + YUnary(e), YProductTail(rest));
  }

  lemma ViableUnary(ts: seq<Token>, at: nat, d: int) returns (e: UnaryE, j: nat)
    requires At(ts, at) && d <= MAX_DEPTH && Shallow(PUnary(ts, at, d))
    ensures WUnary(e) && d + DUnary(e) <= MAX_DEPTH && Begins(ts, at, j, YUnary(e)) && Blamed(ts, PUnary(ts, at, d), j)
    decreases |ts| - at, 3
  {
    hide PPrimary, YPrimary, DPrimary, WPrimary, Begins, L;
    if IsOp(ts[at], "-") {
      var arg, k := ViableUnary(ts, at + 1, d + 1);
      e, j := UnaryE.Minus(arg), k;
      One(ts, at);
      BeginsAfter(ts, at, at + 1, j, [Sym("-")], YUnary(arg));
    } else {
      var inner, k := ViablePrimary(ts, at, d);
      e, j := Primary(inner), k;
    }
  }

  lemma ViableItems(ts: seq<Token>, at: nat, d: int, close: string) returns (e: Items, j: nat)
    requires At(ts, at) && d <= MAX_DEPTH && Shallow(PItems(ts, at, d, close))
    ensures WItems(e) && d + DItems(e) <= MAX_DEPTH && Begins(ts, at, j, YItems(e))
    ensures Blamed(ts, PItems(ts, at, d, close), j)
    decreases |ts| - at, 10
  {
    hide POr, ItemsLoop, YOr, DOr, WOr, Begins, L;
    match POr(ts, at, d)
    case Fail(_) =>
      var first, k := ViableOr(ts, at, d);
      e, j := SomeItems(first, ItemEnd), k;
      BeginsMore(ts, at, j, YOr(first), []);
    case Done(item, next) =>
      var first := SoundOr(ts, at, d);
      var rest, k := ViableItemsLoop(ts, next, d, close, [item]);
      e, j := SomeItems(first, rest), k;
      BeginsAfter(ts, at, next, j, YOr(first), YItemTail(rest));
  }

  lemma ViableItemsLoop(ts: seq<Token>, at: nat, d: int, close: string, items: seq<Node>)
      returns (t: ItemTail, j: nat)
    requires At(ts, at) && d <= MAX_DEPTH && Shallow(ItemsLoop(ts, at, d, close, items))
    ensures WItemTail(t) && d + DItemTail(t) <= MAX_DEPTH && Begins(ts, at, j, YItemTail(t))
    ensures Blamed(ts, ItemsLoop(ts, at, d, close, items), j)
    decreases |ts| - at, 0
  {
    hide POr, YOr, DOr, WOr, Begins, L;
    if IsOp(ts[at], ",") {
      One(ts, at);
      match POr(ts, at + 1, d) {
        case Fail(_) =>
          var e, k := ViableOr(ts, at + 1, d);
          t, j := ItemMore(e, ItemEnd), k;
          BeginsAfter(ts, at, at + 1, j, [Sym(",")], YOr(e));
          BeginsMore(ts, at, j, [Sym(",")] + YOr(e), []);
        case Done(item, next) =>
          var e := SoundOr(ts, at + 1, d);
          var rest, k := ViableItemsLoop(ts, next, d, close, items + [item]);
          t, j := ItemMore(e, rest), k;
          Join(ts, at, at + 1, next);
          BeginsAfter(ts, at, next, j, [Sym(",")] + YOr(e), YItemTail(rest));
      }
    } else {
      t, j := ItemEnd, at;
      BeginsHere(ts, at, []);
    }
  }

  lemma ViableParts(ts: seq<Token>, at: nat, path: seq<string>) returns (t: Parts, j: nat)
    requires At(ts, at) && PathLoop(ts, at, path).Fail?
    ensures WParts(t) && Begins(ts, at, j, YParts(t)) && Blamed(ts, PathLoop(ts, at, path), j)
    ensures PathLoop(ts, at, path).error.problem != TooDeep
    decreases |ts| - at
  {
    hide Begins, L;
    One(ts, at);
    var part := ts[at + 1].lexeme;
    if part.kind == Word || part.kind == Num {
      var rest, k := ViableParts(ts, at + 2, path + [part.value]);
      t, j := PartMore(part, rest), k;
      One(ts, at + 1); Join(ts, at, at + 1, at + 2);
      BeginsAfter(ts, at, at + 2, j, [Sym("."), part], YParts(rest));
    } else {
      t, j := PartMore(Wrd("a"), PartEnd), at + 1;
      BeginsHere(ts, at + 1, [Wrd("a")]);
      BeginsAfter(ts, at, at + 1, at + 1, [Sym(".")], [Wrd("a")]);
      assert YParts(t) == [Sym(".")] + [Wrd("a")];
    }
  }

  lemma ViablePrimary(ts: seq<Token>, at: nat, d: int) returns (e: PrimaryE, j: nat)
    requires At(ts, at) && d <= MAX_DEPTH && Shallow(PPrimary(ts, at, d))
    ensures WPrimary(e) && d + DPrimary(e) <= MAX_DEPTH && Begins(ts, at, j, YPrimary(e))
    ensures Blamed(ts, PPrimary(ts, at, d), j)
    decreases |ts| - at, 2
  {
    hide POr, YOr, DOr, WOr, PItems, YItems, DItems, WItems, PathLoop, NumberValue, Begins, L;
    var t := ts[at];
    One(ts, at);
    if IsOp(t, "(") {
      var inner, k := ViableGroup(ts, at, d);
      e, j := Paren(inner), k;
    } else if IsOp(t, "[") {
      var items, k := ViableItems(ts, at + 1, d, "]");
      e, j := ListE(items), k;
      BeginsAfter(ts, at, at + 1, j, [Sym("[")], YItems(items));
      BeginsMore(ts, at, j, [Sym("[")] + YItems(items), [Sym("]")]);
    } else if t.lexeme.kind == Word && !IsOp(ts[at + 1], "(") {
      var parts, k := ViableParts(ts, at + 1, [t.lexeme.value]);
      e, j := PathE(t.lexeme.value, parts), k;
      BeginsAfter(ts, at, at + 1, j, [t.lexeme], YParts(parts));
    } else if t.lexeme.kind == Word && t.lexeme.value in FUNCTIONS {
      var args, k := ViableItems(ts, at + 2, d, ")");
      e, j := CallE(t.lexeme.value, args), k;
      One(ts, at + 1); Join(ts, at, at + 1, at + 2);
      BeginsAfter(ts, at, at + 2, j, [t.lexeme, Sym("(")], YItems(args));
      BeginsMore(ts, at, j, [t.lexeme, Sym("(")] + YItems(args), [Sym(")")]);
    } else {
      e, j := Keyword(LNull), at;
      BeginsHere(ts, at, YPrimary(e));
    }
  }

  lemma ViableGroup(ts: seq<Token>, at: nat, d: int) returns (inner: OrE, j: nat)
    requires At(ts, at) && d <= MAX_DEPTH && IsOp(ts[at], "(") && Shallow(PPrimary(ts, at, d))
    ensures WOr(inner) && d + DOr(inner) <= MAX_DEPTH && Begins(ts, at, j, YPrimary(Paren(inner)))
    ensures Blamed(ts, PPrimary(ts, at, d), j)
    decreases |ts| - at, 1
  {
    hide POr, YOr, DOr, WOr, PItems, PathLoop, NumberValue, Begins, L;
    One(ts, at);
    match POr(ts, at + 1, d) {
      case Fail(_) => inner, j := ViableOr(ts, at + 1, d);
      case Done(_, next) =>
        inner := SoundOr(ts, at + 1, d);
        j := next;
        BeginsAll(ts, at + 1, next, YOr(inner));
    }
    BeginsAfter(ts, at, at + 1, j, [Sym("(")], YOr(inner));
    BeginsMore(ts, at, j, [Sym("(")] + YOr(inner), [Sym(")")]);
  }

  lemma BeginsAll(ts: seq<Token>, at: nat, j: nat, ys: seq<Lexeme>)
    requires at <= j < |ts| && L(ts, at, j) == ys
    ensures Begins(ts, at, j, ys)
  {
  }

  // ---- nesting too deeply -----------------------------------------------------------------------

  predicate Opener(l: Lexeme) { l.kind == Op && l.value in ["(", "[", "!", "-"] }

  function Openers(ts: seq<Token>, a: nat, b: nat): nat
    requires a <= b <= |ts|
    decreases b - a
  {
    if a == b then 0 else (if Opener(ts[a].lexeme) then 1 else 0) + Openers(ts, a + 1, b)
  }

  /** So many of the tokens from a up to b open something. */
  predicate Opened(ts: seq<Token>, a: nat, b: nat, n: int) { a <= b < |ts| && Openers(ts, a, b) >= n }

  lemma {:induction false} OpenedBefore(ts: seq<Token>, a: nat, b: nat, c: nat, n: int)
    requires a <= b && Opened(ts, b, c, n)
    ensures Opened(ts, a, c, n)
    decreases b - a
  {
    if a < b { OpenedBefore(ts, a + 1, b, c, n); }
  }

  predicate TooMuch<T>(r: Parse<T>) { r.Fail? && r.error.problem == TooDeep }

  lemma DeepOr(ts: seq<Token>, at: nat, d: int) returns (j: nat)
    requires At(ts, at) && TooMuch(POr(ts, at, d)) && d <= MAX_DEPTH
    ensures Opened(ts, at, j, 40 - d) && Blamed(ts, POr(ts, at, d), j)
    decreases |ts| - at, 9
  {
    hide PAnd, OrLoop;
    if d + 1 > MAX_DEPTH { return at; }
    match PAnd(ts, at, d + 1)
    case Fail(_) => j := DeepAnd(ts, at, d + 1);
    case Done(left, next) =>
      j := DeepOrLoop(ts, next, d + 1, left);
      OpenedBefore(ts, at, next, j, 40 - d);
  }

  lemma DeepOrLoop(ts: seq<Token>, at: nat, d: int, left: Node) returns (j: nat)
    requires At(ts, at) && TooMuch(OrLoop(ts, at, d, left)) && d <= MAX_DEPTH
    ensures Opened(ts, at, j, 41 - d) && Blamed(ts, OrLoop(ts, at, d, left), j)
    decreases |ts| - at, 0
  {
    hide PAnd, Opened;
    match PAnd(ts, at + 1, d)
    case Fail(_) =>
      j := DeepAnd(ts, at + 1, d);
      OpenedBefore(ts, at, at + 1, j, 41 - d);
    case Done(right, next) =>
      j := DeepOrLoop(ts, next, d, Binary(Or, left, right));
      OpenedBefore(ts, at, next, j, 41 - d);
  }

  lemma DeepAnd(ts: seq<Token>, at: nat, d: int) returns (j: nat)
    requires At(ts, at) && TooMuch(PAnd(ts, at, d)) && d <= MAX_DEPTH
    ensures Opened(ts, at, j, 41 - d) && Blamed(ts, PAnd(ts, at, d), j)
    decreases |ts| - at, 8
  {
    hide PNot, AndLoop, Opened;
    match PNot(ts, at, d)
    case Fail(_) => j := DeepNot(ts, at, d);
    case Done(left, next) =>
      j := DeepAndLoop(ts, next, d, left);
      OpenedBefore(ts, at, next, j, 41 - d);
  }

  lemma DeepAndLoop(ts: seq<Token>, at: nat, d: int, left: Node) returns (j: nat)
    requires At(ts, at) && TooMuch(AndLoop(ts, at, d, left)) && d <= MAX_DEPTH
    ensures Opened(ts, at, j, 41 - d) && Blamed(ts, AndLoop(ts, at, d, left), j)
    decreases |ts| - at, 0
  {
    hide PNot, Opened;
    match PNot(ts, at + 1, d)
    case Fail(_) =>
      j := DeepNot(ts, at + 1, d);
      OpenedBefore(ts, at, at + 1, j, 41 - d);
    case Done(right, next) =>
      j := DeepAndLoop(ts, next, d, Binary(And, left, right));
      OpenedBefore(ts, at, next, j, 41 - d);
  }

  lemma DeepNot(ts: seq<Token>, at: nat, d: int) returns (j: nat)
    requires At(ts, at) && TooMuch(PNot(ts, at, d)) && d <= MAX_DEPTH
    ensures Opened(ts, at, j, 41 - d) && Blamed(ts, PNot(ts, at, d), j)
    decreases |ts| - at, 7
  {
    hide PComparison;
    if IsOp(ts[at], "!") {
      if d + 1 > MAX_DEPTH { j := at + 1; } else { j := DeepNot(ts, at + 1, d + 1); }
    } else {
      j := DeepComparison(ts, at, d);
    }
  }

  lemma DeepComparison(ts: seq<Token>, at: nat, d: int) returns (j: nat)
    requires At(ts, at) && TooMuch(PComparison(ts, at, d)) && d <= MAX_DEPTH
    ensures Opened(ts, at, j, 41 - d) && Blamed(ts, PComparison(ts, at, d), j)
    decreases |ts| - at, 6
  {
    hide PSum, Opened;
    match PSum(ts, at, d)
    case Fail(_) => j := DeepSum(ts, at, d);
    case Done(_, next) =>
      var after := if RelationOf(ts[next]).Some? || IsWord(ts[next], "in") then next + 1 else next + 2;
      j := DeepSum(ts, after, d);
      OpenedBefore(ts, at, after, j, 41 - d);
  }

  lemma DeepSum(ts: seq<Token>, at: nat, d: int) returns (j: nat)
    requires At(ts, at) && TooMuch(PSum(ts, at, d)) && d <= MAX_DEPTH
    ensures Opened(ts, at, j, 41 - d) && Blamed(ts, PSum(ts, at, d), j)
    decreases |ts| - at, 5
  {
    hide PProduct, SumLoop, Opened;
    match PProduct(ts, at, d)
    case Fail(_) => j := DeepProduct(ts, at, d);
    case Done(left, next) =>
      j := DeepSumLoop(ts, next, d, left);
      OpenedBefore(ts, at, next, j, 41 - d);
  }

  lemma DeepSumLoop(ts: seq<Token>, at: nat, d: int, left: Node) returns (j: nat)
    requires At(ts, at) && TooMuch(SumLoop(ts, at, d, left)) && d <= MAX_DEPTH
    ensures Opened(ts, at, j, 41 - d) && Blamed(ts, SumLoop(ts, at, d, left), j)
    decreases |ts| - at, 0
  {
    hide PProduct, Opened;
    match PProduct(ts, at + 1, d)
    case Fail(_) =>
      j := DeepProduct(ts, at + 1, d);
      OpenedBefore(ts, at, at + 1, j, 41 - d);
    case Done(right, next) =>
      j := DeepSumLoop(ts, next, d, Binary(Additive(SumOpOf(ts[at]).value), left, right));
      OpenedBefore(ts, at, next, j, 41 - d);
  }

  lemma DeepProduct(ts: seq<Token>, at: nat, d: int) returns (j: nat)
    requires At(ts, at) && TooMuch(PProduct(ts, at, d)) && d <= MAX_DEPTH
    ensures Opened(ts, at, j, 41 - d) && Blamed(ts, PProduct(ts, at, d), j)
    decreases |ts| - at, 4
  {
    hide PUnary, ProductLoop, Opened;
    match PUnary(ts, at, d)
    case Fail(_) => j := DeepUnary(ts, at, d);
    case Done(left, next) =>
      j := DeepProductLoop(ts, next, d, left);
      OpenedBefore(ts, at, next, j, 41 - d);
  }

  lemma DeepProductLoop(ts: seq<Token>, at: nat, d: int, left: Node) returns (j: nat)
    requires At(ts, at) && TooMuch(ProductLoop(ts, at, d, left)) && d <= MAX_DEPTH
    ensures Opened(ts, at, j, 41 - d) && Blamed(ts, ProductLoop(ts, at, d, left), j)
    decreases |ts| - at, 0
  {
    hide PUnary, Opened;
    match PUnary(ts, at + 1, d)
    case Fail(_) =>
      j := DeepUnary(ts, at + 1, d);
      OpenedBefore(ts, at, at + 1, j, 41 - d);
    case Done(right, next) =>
      j := DeepProductLoop(ts, next, d, Binary(Multiplicative(ProductOpOf(ts[at]).value), left, right));
      OpenedBefore(ts, at, next, j, 41 - d);
  }

  lemma DeepUnary(ts: seq<Token>, at: nat, d: int) returns (j: nat)
    requires At(ts, at) && TooMuch(PUnary(ts, at, d)) && d <= MAX_DEPTH
    ensures Opened(ts, at, j, 41 - d) && Blamed(ts, PUnary(ts, at, d), j)
    decreases |ts| - at, 3
  {
    hide PPrimary;
    if IsOp(ts[at], "-") {
      if d + 1 > MAX_DEPTH { j := at + 1; } else { j := DeepUnary(ts, at + 1, d + 1); }
    } else {
      j := DeepPrimary(ts, at, d);
    }
  }

  lemma DeepItems(ts: seq<Token>, at: nat, d: int, close: string) returns (j: nat)
    requires At(ts, at) && TooMuch(PItems(ts, at, d, close)) && d <= MAX_DEPTH
    ensures Opened(ts, at, j, 40 - d) && Blamed(ts, PItems(ts, at, d, close), j)
    decreases |ts| - at, 10
  {
    hide POr, ItemsLoop, Opened;
    match POr(ts, at, d)
    case Fail(_) => j := DeepOr(ts, at, d);
    case Done(item, next) =>
      j := DeepItemsLoop(ts, next, d, close, [item]);
      OpenedBefore(ts, at, next, j, 40 - d);
  }

  lemma DeepItemsLoop(ts: seq<Token>, at: nat, d: int, close: string, items: seq<Node>) returns (j: nat)
    requires At(ts, at) && TooMuch(ItemsLoop(ts, at, d, close, items)) && d <= MAX_DEPTH
    ensures Opened(ts, at, j, 40 - d) && Blamed(ts, ItemsLoop(ts, at, d, close, items), j)
    decreases |ts| - at, 0
  {
    hide POr, Opened;
    match POr(ts, at + 1, d)
    case Fail(_) =>
      j := DeepOr(ts, at + 1, d);
      OpenedBefore(ts, at, at + 1, j, 40 - d);
    case Done(item, next) =>
      j := DeepItemsLoop(ts, next, d, close, items + [item]);
      OpenedBefore(ts, at, next, j, 40 - d);
  }

  lemma DeepPrimary(ts: seq<Token>, at: nat, d: int) returns (j: nat)
    requires At(ts, at) && TooMuch(PPrimary(ts, at, d)) && d <= MAX_DEPTH
    ensures Opened(ts, at, j, 41 - d) && Blamed(ts, PPrimary(ts, at, d), j)
    decreases |ts| - at, 2
  {
    hide POr, PItems, PathLoop, NumberValue;
    if IsOp(ts[at], "(") {
      j := DeepOr(ts, at + 1, d);
    } else if IsOp(ts[at], "[") {
      j := DeepItems(ts, at + 1, d, "]");
    } else if IsOp(ts[at + 1], "(") {
      j := DeepItems(ts, at + 2, d, ")");
      OpenedAfter(ts, at, at + 2, j, 40 - d);
    } else {
      PathIsShallow(ts, at + 1, [ts[at].lexeme.value]);
    }
  }

  lemma OpenedAfter(ts: seq<Token>, a: nat, b: nat, c: nat, n: int)
    requires b == a + 2 && Opened(ts, b, c, n) && Opener(ts[a + 1].lexeme)
    ensures Opened(ts, a, c, n + 1)
  {
    assert Openers(ts, a + 1, c) == 1 + Openers(ts, b, c);
  }

  lemma {:induction false} PathIsShallow(ts: seq<Token>, at: nat, path: seq<string>)
    requires At(ts, at)
    ensures !TooMuch(PathLoop(ts, at, path))
    decreases |ts| - at
  {
    if IsOp(ts[at], ".") && (ts[at + 1].lexeme.kind == Word || ts[at + 1].lexeme.kind == Num) {
      PathIsShallow(ts, at + 2, path + [ts[at + 1].lexeme.value]);
    }
  }

  // ---- which token is blamed --------------------------------------------------------------------

  /** The lexemes of a token list with the end after them. */
  function Closed(ys: seq<Lexeme>): seq<Lexeme> { ys + [Lexeme(End, "")] }

  ghost predicate Begun(e: OrE, xs: seq<Lexeme>) { WOr(e) && xs <= Closed(YOr(e)) }

  /** Some expression has lexemes that begin like this, the end counted as one. */
  ghost predicate Imaginable(xs: seq<Lexeme>) { exists e :: Begun(e, xs) }

  /** Some expression within the nesting limit has. */
  ghost predicate Possible(xs: seq<Lexeme>) { exists e :: Begun(e, xs) && DOr(e) <= 40 }

  /** How many tokens it takes to see that nothing goes on: one more if the blamed token is a word. */
  function Needed(ts: seq<Token>, j: nat): nat
    requires j < |ts|
  {
    if ts[j].lexeme.kind == Word then j + 2 else j + 1
  }

  /** The tokens up to n, and from there on those lexemes. */
  function Spliced(ts: seq<Token>, n: nat, zs: seq<Lexeme>): seq<Token>
    requires n <= |ts| && n <= |zs|
  {
    ts[..n] + seq(|zs| - n, i requires 0 <= i < |zs| - n => Token(zs[n + i], 0))
  }

  lemma SplicedSpells(ts: seq<Token>, n: nat, ys: seq<Lexeme>)
    requires n <= |ts| && n <= |ys| + 1 && Lexer.Lexemes(ts)[..n] == Closed(ys)[..n] && Language.Endless(ys)
    ensures var us := Spliced(ts, n, Closed(ys));
      Language.Spells(us, ys) && |us| == |ys| + 1 && us[|ys|].lexeme == Lexeme(End, "")
  {
    var us, zs := Spliced(ts, n, Closed(ys)), Closed(ys);
    forall i | 0 <= i < |us| ensures us[i].lexeme == zs[i] {
      if i < n { assert Lexer.Lexemes(ts)[..n][i] == ts[i].lexeme; }
    }
    assert L(us, 0, |us| - 1) == ys;
  }

  /** A proper token list that is refused, and the token it is blamed on. */
  ghost predicate Refused(ts: seq<Token>, j: nat)
  {
    && Lexer.Ended(ts) && j < |ts| && (forall i, k :: 0 <= i < k < |ts| ==> ts[i].position < ts[k].position)
    && ParseTokens(ts).Err? && ts[j].position == ParseTokens(ts).error.position
  }

  /** It differs from every expression among the tokens it takes to refuse it. */
  lemma NotBegun(ts: seq<Token>, j: nat, e: OrE)
    requires Refused(ts, j) && (DOr(e) <= MAX_DEPTH || ParseTokens(ts).error.problem != TooDeep)
    ensures !Begun(e, Lexer.Lexemes(ts)[..Needed(ts, j)])
  {
    hide POr, WOr, YOr, DOr, TOr, ParserComplete.Continues;
    var n, zs := Needed(ts, j), Closed(YOr(e));
    if Begun(e, Lexer.Lexemes(ts)[..n]) {
      Language.EndlessOr(e);
      SplicedSpells(ts, n, YOr(e));
      var us := Spliced(ts, n, zs);
      var c: int := if DOr(e) <= MAX_DEPTH then 0 else 0 - DOr(e) as int;
      EndStops(us, |us| - 1);
      ParserComplete.CompleteOr(e, us, 0, c);
      OnlyBlamed(ts, j);
      LocalOr(ts, us, 0, 0, c, n);
    }
  }

  lemma EndStops(us: seq<Token>, i: nat)
    requires i < |us| && us[i].lexeme.kind == End
    ensures !ParserComplete.Continues(us, i, 0)
  {
  }

  lemma OnlyBlamed(ts: seq<Token>, j: nat)
    requires Refused(ts, j)
    ensures Read(ts, Needed(ts, j), POr(ts, 0, 0))
  {
    hide POr;
    forall k | 0 <= k < |ts| && ts[k].position == ts[j].position ensures k == j {}
  }

  lemma PrefixPossible(ts: seq<Token>, e: OrE, j: nat)
    requires WOr(e) && DOr(e) <= MAX_DEPTH && Begins(ts, 0, j, YOr(e))
    ensures Possible(Lexer.Lexemes(ts)[..j])
  {
    hide YOr, WOr, DOr;
    var xs, ys := Lexer.Lexemes(ts)[..j], YOr(e);
    assert xs == L(ts, 0, j) == ys[..j];
    assert Begun(e, xs);
  }

  lemma SomeBlamed(ts: seq<Token>) returns (j: nat)
    requires Lexer.Ended(ts) && ParseTokens(ts).Err?
    ensures j < |ts| && ts[j].position == ParseTokens(ts).error.position
    ensures if ParseTokens(ts).error.problem == TooDeep then Opened(ts, 0, j, 40)
            else Possible(Lexer.Lexemes(ts)[..j])
  {
    hide POr, WOr, YOr, DOr, Begins, Possible, L, Opened;
    match POr(ts, 0, 0)
    case Done(_, next) =>
      var e := SoundOr(ts, 0, 0);
      j := next;
      BeginsAll(ts, 0, j, YOr(e));
      PrefixPossible(ts, e, j);
    case Fail(error) =>
      if error.problem == TooDeep {
        j := DeepOr(ts, 0, 0);
      } else {
        var e, k := ViableOr(ts, 0, 0);
        j := k;
        PrefixPossible(ts, e, j);
      }
  }

  /**
   * A source of proper tokens is refused at the first token at which no expression can go on: none within the nesting
   * limit begins with the tokens up to it. If the error is that they nest too deeply, 40 of those before it are
   * opening brackets, `!` or `-`; otherwise no expression of any depth begins with the tokens up to it, and some
   * expression within the limit begins with those before it. A blamed word can be a `not` without its `in` or the
   * name of an unknown function, which the token after it shows.
   */
  lemma BlamedExactly(s: string) returns (j: nat)
    requires Lexer.LexFrom(s, 0).Ok? && ParseSource(s).Err?
    ensures var ts, e := Lexer.LexFrom(s, 0).value, ParseSource(s).error;
      && j < |ts| && ts[j].position == e.position && Needed(ts, j) <= |ts|
      && !Possible(Lexer.Lexemes(ts)[..Needed(ts, j)])
      && (if e.problem == TooDeep then Opened(ts, 0, j, 40)
          else Possible(Lexer.Lexemes(ts)[..j]) && !Imaginable(Lexer.Lexemes(ts)[..Needed(ts, j)]))
  {
    hide POr, ParseTokens, Begun, Lexer.LexFrom, DOr, Opened;
    Lexer.LexWithin(s, 0);
    var ts := Lexer.LexFrom(s, 0).value;
    j := SomeBlamed(ts);
    var xs := Lexer.Lexemes(ts)[..Needed(ts, j)];
    forall e | DOr(e) <= MAX_DEPTH || ParseSource(s).error.problem != TooDeep ensures !Begun(e, xs) {
      NotBegun(ts, j, e);
    }
  }
}
