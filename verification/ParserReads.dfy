/** The parser answers by the tokens up to the one it stops at: lists that agree so far are answered alike. */
module ParserReads {
  import opened Syntax
  import opened Parser
  import Grammar
  import Lexer

  /** Two token lists that begin alike. */
  ghost predicate Same(ts: seq<Token>, us: seq<Token>, n: nat)
  {
    && Lexer.Ended(ts) && Lexer.Ended(us) && n <= |ts| && n <= |us|
    && (forall k :: 0 <= k < n ==> ts[k] == us[k])
    && forall i, j :: 0 <= i < j < |ts| ==> ts[i].position < ts[j].position
  }

  /** Among the first n tokens, and with the one after it if it is a word. */
  predicate Seen(ts: seq<Token>, n: nat, k: nat)
    requires k < |ts|
  {
    k < n && (ts[k].lexeme.kind == Word ==> k + 1 < n)
  }

  ghost predicate Read<T>(ts: seq<Token>, n: nat, r: Parse<T>)
    requires r.Done? ==> r.next < |ts|
  {
    if r.Done? then Seen(ts, n, r.next)
    else forall k :: 0 <= k < |ts| && ts[k].position == r.error.position ==> Seen(ts, n, k)
  }

  lemma Earlier<T>(ts: seq<Token>, n: nat, k: nat, r: Parse<T>)
    requires k < |ts| && (r.Done? ==> k <= r.next < |ts|) && (r.Fail? ==> Blames(ts, k, r.error)) && Read(ts, n, r)
    ensures Seen(ts, n, k)
  {
    if r.Fail? {
      var i :| k <= i < |ts| && ts[i].position == r.error.position;
      assert Seen(ts, n, i);
    }
  }

  /** At a smaller depth too, unless nesting too deeply is the answer. */
  predicate Gentler<T>(d: int, c: int, r: Parse<T>)
  {
    c == d || (c < d && (r.Done? || r.error.problem != TooDeep))
  }

  lemma LocalOr(ts: seq<Token>, us: seq<Token>, at: nat, d: int, c: int, n: nat)
    requires Same(ts, us, n) && At(ts, at) && Read(ts, n, POr(ts, at, d)) && Gentler(d, c, POr(ts, at, d))
    ensures at < |us| && POr(us, at, c) == POr(ts, at, d)
    decreases |ts| - at, 9
  {
    hide PAnd, OrLoop;
    Earlier(ts, n, at, POr(ts, at, d));
    if d + 1 <= MAX_DEPTH {
      if PAnd(ts, at, d + 1).Done? { Earlier(ts, n, PAnd(ts, at, d + 1).next, POr(ts, at, d)); }
      LocalAnd(ts, us, at, d + 1, c + 1, n);
      match PAnd(ts, at, d + 1)
      case Done(left, next) => LocalOrLoop(ts, us, next, d + 1, c + 1, left, n);
      case Fail(_) =>
    }
  }

  lemma LocalOrLoop(ts: seq<Token>, us: seq<Token>, at: nat, d: int, c: int, left: Node, n: nat)
    requires Same(ts, us, n) && At(ts, at) && Read(ts, n, OrLoop(ts, at, d, left)) &&
             Gentler(d, c, OrLoop(ts, at, d, left))
    ensures at < |us| && OrLoop(us, at, c, left) == OrLoop(ts, at, d, left)
    decreases |ts| - at, 0
  {
    hide PAnd;
    var r := OrLoop(ts, at, d, left);
    Earlier(ts, n, at, r);
    if IsOp(ts[at], "||") {
      Onward(ts, us, at, n);
      if PAnd(ts, at + 1, d).Done? { Earlier(ts, n, PAnd(ts, at + 1, d).next, r); }
      LocalAnd(ts, us, at + 1, d, c, n);
      match PAnd(ts, at + 1, d)
      case Done(right, next) => LocalOrLoop(ts, us, next, d, c, Binary(Or, left, right), n);
      case Fail(_) =>
    }
  }

  /** A token that is no end has one after it, in both lists. */
  lemma Onward(ts: seq<Token>, us: seq<Token>, at: nat, n: nat)
    requires Same(ts, us, n) && at < n && ts[at].lexeme.kind != End
    ensures at + 1 < |ts| && at + 1 < |us|
  {
    assert us[at] == ts[at];
  }

  lemma LocalAnd(ts: seq<Token>, us: seq<Token>, at: nat, d: int, c: int, n: nat)
    requires Same(ts, us, n) && At(ts, at) && Read(ts, n, PAnd(ts, at, d)) && Gentler(d, c, PAnd(ts, at, d))
    ensures at < |us| && PAnd(us, at, c) == PAnd(ts, at, d)
    decreases |ts| - at, 8
  {
    hide PNot, AndLoop;
    var r := PAnd(ts, at, d);
    Earlier(ts, n, at, r);
    if PNot(ts, at, d).Done? { Earlier(ts, n, PNot(ts, at, d).next, r); }
    LocalNot(ts, us, at, d, c, n);
    match PNot(ts, at, d)
    case Done(left, next) => LocalAndLoop(ts, us, next, d, c, left, n);
    case Fail(_) =>
  }

  lemma LocalAndLoop(ts: seq<Token>, us: seq<Token>, at: nat, d: int, c: int, left: Node, n: nat)
    requires Same(ts, us, n) && At(ts, at) && Read(ts, n, AndLoop(ts, at, d, left)) &&
             Gentler(d, c, AndLoop(ts, at, d, left))
    ensures at < |us| && AndLoop(us, at, c, left) == AndLoop(ts, at, d, left)
    decreases |ts| - at, 0
  {
    hide PNot;
    var r := AndLoop(ts, at, d, left);
    Earlier(ts, n, at, r);
    if IsOp(ts[at], "&&") {
      Onward(ts, us, at, n);
      if PNot(ts, at + 1, d).Done? { Earlier(ts, n, PNot(ts, at + 1, d).next, r); }
      LocalNot(ts, us, at + 1, d, c, n);
      match PNot(ts, at + 1, d)
      case Done(right, next) => LocalAndLoop(ts, us, next, d, c, Binary(And, left, right), n);
      case Fail(_) =>
    }
  }

  lemma LocalNot(ts: seq<Token>, us: seq<Token>, at: nat, d: int, c: int, n: nat)
    requires Same(ts, us, n) && At(ts, at) && Read(ts, n, PNot(ts, at, d)) && Gentler(d, c, PNot(ts, at, d))
    ensures at < |us| && PNot(us, at, c) == PNot(ts, at, d)
    decreases |ts| - at, 7
  {
    hide PComparison;
    Earlier(ts, n, at, PNot(ts, at, d));
    if IsOp(ts[at], "!") {
      Onward(ts, us, at, n);
      if d + 1 <= MAX_DEPTH { LocalNot(ts, us, at + 1, d + 1, c + 1, n); } else { assert Seen(ts, n, at + 1); }
    } else {
      LocalComparison(ts, us, at, d, c, n);
    }
  }

  lemma LocalComparison(ts: seq<Token>, us: seq<Token>, at: nat, d: int, c: int, n: nat)
    requires Same(ts, us, n) && At(ts, at) && Read(ts, n, PComparison(ts, at, d)) &&
             Gentler(d, c, PComparison(ts, at, d))
    ensures at < |us| && PComparison(us, at, c) == PComparison(ts, at, d)
    decreases |ts| - at, 6
  {
    hide PSum, Lexer.Ended;
    var r := PComparison(ts, at, d);
    Earlier(ts, n, at, r);
    if PSum(ts, at, d).Done? {
      var next := PSum(ts, at, d).next;
      Earlier(ts, n, next, r);
      LocalSum(ts, us, at, d, c, n);
      SameSign(ts, us, next, n);
      if RelationOf(ts[next]).Some? || IsWord(ts[next], "in") {
        LocalSum(ts, us, next + 1, d, c, n);
      } else if IsNotIn(ts, next) {
        LocalSum(ts, us, next + 2, d, c, n);
      }
    } else {
      LocalSum(ts, us, at, d, c, n);
    }
  }

  /** What can go on with a comparison is the same in both lists. */
  lemma SameSign(ts: seq<Token>, us: seq<Token>, at: nat, n: nat)
    requires Same(ts, us, n) && at < |ts| && Seen(ts, n, at)
    ensures at < |us| && us[at] == ts[at] && IsNotIn(us, at) == IsNotIn(ts, at)
    ensures RelationOf(ts[at]).Some? || IsWord(ts[at], "in") ==> at + 1 < |ts| && at + 1 < |us|
    ensures IsNotIn(ts, at) ==> at + 2 < |ts| && at + 2 < |us|
  {
    if ts[at].lexeme.kind != End {
      Onward(ts, us, at, n);
      if IsNotIn(ts, at) { Onward(ts, us, at + 1, n); }
    }
  }

  lemma LocalSum(ts: seq<Token>, us: seq<Token>, at: nat, d: int, c: int, n: nat)
    requires Same(ts, us, n) && At(ts, at) && Read(ts, n, PSum(ts, at, d)) && Gentler(d, c, PSum(ts, at, d))
    ensures at < |us| && PSum(us, at, c) == PSum(ts, at, d)
    decreases |ts| - at, 5
  {
    hide PProduct, SumLoop;
    var r := PSum(ts, at, d);
    Earlier(ts, n, at, r);
    if PProduct(ts, at, d).Done? { Earlier(ts, n, PProduct(ts, at, d).next, r); }
    LocalProduct(ts, us, at, d, c, n);
    match PProduct(ts, at, d)
    case Done(left, next) => LocalSumLoop(ts, us, next, d, c, left, n);
    case Fail(_) =>
  }

  lemma LocalSumLoop(ts: seq<Token>, us: seq<Token>, at: nat, d: int, c: int, left: Node, n: nat)
    requires Same(ts, us, n) && At(ts, at) && Read(ts, n, SumLoop(ts, at, d, left)) &&
             Gentler(d, c, SumLoop(ts, at, d, left))
    ensures at < |us| && SumLoop(us, at, c, left) == SumLoop(ts, at, d, left)
    decreases |ts| - at, 0
  {
    hide PProduct;
    var r := SumLoop(ts, at, d, left);
    Earlier(ts, n, at, r);
    if SumOpOf(ts[at]).Some? {
      Onward(ts, us, at, n);
      if PProduct(ts, at + 1, d).Done? { Earlier(ts, n, PProduct(ts, at + 1, d).next, r); }
      LocalProduct(ts, us, at + 1, d, c, n);
      match PProduct(ts, at + 1, d)
      case Done(right, next) =>
        LocalSumLoop(ts, us, next, d, c, Binary(Additive(SumOpOf(ts[at]).value), left, right), n);
      case Fail(_) =>
    }
  }

  lemma LocalProduct(ts: seq<Token>, us: seq<Token>, at: nat, d: int, c: int, n: nat)
    requires Same(ts, us, n) && At(ts, at) && Read(ts, n, PProduct(ts, at, d)) && Gentler(d, c, PProduct(ts, at, d))
    ensures at < |us| && PProduct(us, at, c) == PProduct(ts, at, d)
    decreases |ts| - at, 4
  {
    hide PUnary, ProductLoop;
    var r := PProduct(ts, at, d);
    Earlier(ts, n, at, r);
    if PUnary(ts, at, d).Done? { Earlier(ts, n, PUnary(ts, at, d).next, r); }
    LocalUnary(ts, us, at, d, c, n);
    match PUnary(ts, at, d)
    case Done(left, next) => LocalProductLoop(ts, us, next, d, c, left, n);
    case Fail(_) =>
  }

  lemma LocalProductLoop(ts: seq<Token>, us: seq<Token>, at: nat, d: int, c: int, left: Node, n: nat)
    requires Same(ts, us, n) && At(ts, at) && Read(ts, n, ProductLoop(ts, at, d, left)) &&
             Gentler(d, c, ProductLoop(ts, at, d, left))
    ensures at < |us| && ProductLoop(us, at, c, left) == ProductLoop(ts, at, d, left)
    decreases |ts| - at, 0
  {
    hide PUnary;
    var r := ProductLoop(ts, at, d, left);
    Earlier(ts, n, at, r);
    if ProductOpOf(ts[at]).Some? {
      Onward(ts, us, at, n);
      if PUnary(ts, at + 1, d).Done? { Earlier(ts, n, PUnary(ts, at + 1, d).next, r); }
      LocalUnary(ts, us, at + 1, d, c, n);
      match PUnary(ts, at + 1, d)
      case Done(right, next) =>
        LocalProductLoop(ts, us, next, d, c, Binary(Multiplicative(ProductOpOf(ts[at]).value), left, right), n);
      case Fail(_) =>
    }
  }

  lemma LocalUnary(ts: seq<Token>, us: seq<Token>, at: nat, d: int, c: int, n: nat)
    requires Same(ts, us, n) && At(ts, at) && Read(ts, n, PUnary(ts, at, d)) && Gentler(d, c, PUnary(ts, at, d))
    ensures at < |us| && PUnary(us, at, c) == PUnary(ts, at, d)
    decreases |ts| - at, 3
  {
    hide PPrimary;
    Earlier(ts, n, at, PUnary(ts, at, d));
    if IsOp(ts[at], "-") {
      Onward(ts, us, at, n);
      if d + 1 <= MAX_DEPTH { LocalUnary(ts, us, at + 1, d + 1, c + 1, n); } else { assert Seen(ts, n, at + 1); }
    } else {
      LocalPrimary(ts, us, at, d, c, n);
    }
  }

  lemma LocalItems(ts: seq<Token>, us: seq<Token>, at: nat, d: int, c: int, close: string, n: nat)
    requires Same(ts, us, n) && At(ts, at) && Read(ts, n, PItems(ts, at, d, close)) &&
             Gentler(d, c, PItems(ts, at, d, close))
    ensures at < |us| && PItems(us, at, c, close) == PItems(ts, at, d, close)
    decreases |ts| - at, 10
  {
    hide POr, ItemsLoop;
    var r := PItems(ts, at, d, close);
    Earlier(ts, n, at, r);
    if !IsOp(ts[at], close) {
      if POr(ts, at, d).Done? { Earlier(ts, n, POr(ts, at, d).next, r); }
      LocalOr(ts, us, at, d, c, n);
      match POr(ts, at, d)
      case Done(item, next) => LocalItemsLoop(ts, us, next, d, c, close, [item], n);
      case Fail(_) =>
    }
  }

  lemma LocalItemsLoop(ts: seq<Token>, us: seq<Token>, at: nat, d: int, c: int, close: string, items: seq<Node>, n: nat)
    requires Same(ts, us, n) && At(ts, at) && Read(ts, n, ItemsLoop(ts, at, d, close, items)) &&
             Gentler(d, c, ItemsLoop(ts, at, d, close, items))
    ensures at < |us| && ItemsLoop(us, at, c, close, items) == ItemsLoop(ts, at, d, close, items)
    decreases |ts| - at, 0
  {
    hide POr;
    var r := ItemsLoop(ts, at, d, close, items);
    Earlier(ts, n, at, r);
    if IsOp(ts[at], ",") {
      Onward(ts, us, at, n);
      if POr(ts, at + 1, d).Done? { Earlier(ts, n, POr(ts, at + 1, d).next, r); }
      LocalOr(ts, us, at + 1, d, c, n);
      match POr(ts, at + 1, d)
      case Done(item, next) => LocalItemsLoop(ts, us, next, d, c, close, items + [item], n);
      case Fail(_) =>
    }
  }

  lemma LocalPath(ts: seq<Token>, us: seq<Token>, at: nat, path: seq<string>, n: nat)
    requires Same(ts, us, n) && At(ts, at) && Read(ts, n, PathLoop(ts, at, path))
    ensures at < |us| && PathLoop(us, at, path) == PathLoop(ts, at, path)
    decreases |ts| - at
  {
    var r := PathLoop(ts, at, path);
    Earlier(ts, n, at, r);
    if IsOp(ts[at], ".") {
      Onward(ts, us, at, n);
      Earlier(ts, n, at + 1, r);
      if ts[at + 1].lexeme.kind == Word || ts[at + 1].lexeme.kind == Num {
        Onward(ts, us, at + 1, n);
        LocalPath(ts, us, at + 2, path + [ts[at + 1].lexeme.value], n);
      }
    }
  }

  lemma LocalPrimary(ts: seq<Token>, us: seq<Token>, at: nat, d: int, c: int, n: nat)
    requires Same(ts, us, n) && At(ts, at) && Read(ts, n, PPrimary(ts, at, d)) && Gentler(d, c, PPrimary(ts, at, d))
    ensures at < |us| && PPrimary(us, at, c) == PPrimary(ts, at, d)
    decreases |ts| - at, 2
  {
    hide POr, PItems, PathLoop, NumberValue, Lexer.Ended;
    var r := PPrimary(ts, at, d);
    Earlier(ts, n, at, r);
    if ts[at].lexeme.kind == Op {
      Onward(ts, us, at, n);
      if IsOp(ts[at], "(") {
        if POr(ts, at + 1, d).Done? { Earlier(ts, n, POr(ts, at + 1, d).next, r); }
        LocalOr(ts, us, at + 1, d, c, n);
      } else if IsOp(ts[at], "[") {
        LocalItems(ts, us, at + 1, d, c, "]", n);
      }
    } else if ts[at].lexeme.kind == Word && ts[at].lexeme.value !in Grammar.RESERVED {
      Onward(ts, us, at, n);
      if !IsOp(ts[at + 1], "(") {
        LocalPath(ts, us, at + 1, [ts[at].lexeme.value], n);
      } else if ts[at].lexeme.value in FUNCTIONS {
        Earlier(ts, n, at + 2, r);
        Onward(ts, us, at + 1, n);
        LocalItems(ts, us, at + 2, d, c, ")", n);
      }
    }
  }
}
