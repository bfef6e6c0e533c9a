/** Every call in a parsed tree carries the position of a token. */
module ParserPositions {
  import opened Syntax
  import opened Options
  import opened Parser
  import Lexer

  ghost predicate AtToken(position: nat, ts: seq<Token>) { exists i :: 0 <= i < |ts| && ts[i].position == position }

  ghost predicate Stands(t: Node, ts: seq<Token>)
  {
    match t
    case Call(_, args, position) => AtToken(position, ts) && forall i :: 0 <= i < |args| ==> Stands(args[i], ts)
    case List(items) => forall i :: 0 <= i < |items| ==> Stands(items[i], ts)
    case Unary(_, arg) => Stands(arg, ts)
    case Binary(_, left, right) => Stands(left, ts) && Stands(right, ts)
    case _ => true
  }

  ghost predicate AllStand(nodes: seq<Node>, ts: seq<Token>) { forall i :: 0 <= i < |nodes| ==> Stands(nodes[i], ts) }

  lemma {:induction false} StandOr(ts: seq<Token>, at: nat, depth: int)
    requires At(ts, at)
    ensures POr(ts, at, depth).Done? ==> Stands(POr(ts, at, depth).value, ts)
    decreases |ts| - at, 9
  {
    hide PAnd, OrLoop;
    if depth + 1 <= MAX_DEPTH {
      StandAnd(ts, at, depth + 1);
      var r := PAnd(ts, at, depth + 1);
      if r.Done? { StandOrLoop(ts, r.next, depth + 1, r.value); }
    }
  }

  lemma {:induction false} StandOrLoop(ts: seq<Token>, at: nat, depth: int, left: Node)
    requires At(ts, at) && Stands(left, ts)
    ensures OrLoop(ts, at, depth, left).Done? ==> Stands(OrLoop(ts, at, depth, left).value, ts)
    decreases |ts| - at, 0
  {
    hide PAnd;
    if IsOp(ts[at], "||") {
      StandAnd(ts, at + 1, depth);
      var r := PAnd(ts, at + 1, depth);
      if r.Done? { StandOrLoop(ts, r.next, depth, Binary(Or, left, r.value)); }
    }
  }

  lemma {:induction false} StandAnd(ts: seq<Token>, at: nat, depth: int)
    requires At(ts, at)
    ensures PAnd(ts, at, depth).Done? ==> Stands(PAnd(ts, at, depth).value, ts)
    decreases |ts| - at, 8
  {
    hide PNot, AndLoop;
    StandNot(ts, at, depth);
    var r := PNot(ts, at, depth);
    if r.Done? { StandAndLoop(ts, r.next, depth, r.value); }
  }

  lemma {:induction false} StandAndLoop(ts: seq<Token>, at: nat, depth: int, left: Node)
    requires At(ts, at) && Stands(left, ts)
    ensures AndLoop(ts, at, depth, left).Done? ==> Stands(AndLoop(ts, at, depth, left).value, ts)
    decreases |ts| - at, 0
  {
    hide PNot;
    if IsOp(ts[at], "&&") {
      StandNot(ts, at + 1, depth);
      var r := PNot(ts, at + 1, depth);
      if r.Done? { StandAndLoop(ts, r.next, depth, Binary(And, left, r.value)); }
    }
  }

  lemma {:induction false} StandNot(ts: seq<Token>, at: nat, depth: int)
    requires At(ts, at)
    ensures PNot(ts, at, depth).Done? ==> Stands(PNot(ts, at, depth).value, ts)
    decreases |ts| - at, 7
  {
    hide PComparison;
    if !IsOp(ts[at], "!") { StandComparison(ts, at, depth); }
    else if depth + 1 <= MAX_DEPTH { StandNot(ts, at + 1, depth + 1); }
  }

  lemma {:induction false} StandComparison(ts: seq<Token>, at: nat, depth: int)
    requires At(ts, at)
    ensures PComparison(ts, at, depth).Done? ==> Stands(PComparison(ts, at, depth).value, ts)
    decreases |ts| - at, 6
  {
    hide PSum;
    StandSum(ts, at, depth);
    var r := PSum(ts, at, depth);
    if r.Done? {
      if RelationOf(ts[r.next]).Some? || IsWord(ts[r.next], "in") { StandSum(ts, r.next + 1, depth); }
      else if IsNotIn(ts, r.next) { StandSum(ts, r.next + 2, depth); }
    }
  }

  lemma {:induction false} StandSum(ts: seq<Token>, at: nat, depth: int)
    requires At(ts, at)
    ensures PSum(ts, at, depth).Done? ==> Stands(PSum(ts, at, depth).value, ts)
    decreases |ts| - at, 5
  {
    hide PProduct, SumLoop;
    StandProduct(ts, at, depth);
    var r := PProduct(ts, at, depth);
    if r.Done? { StandSumLoop(ts, r.next, depth, r.value); }
  }

  lemma {:induction false} StandSumLoop(ts: seq<Token>, at: nat, depth: int, left: Node)
    requires At(ts, at) && Stands(left, ts)
    ensures SumLoop(ts, at, depth, left).Done? ==> Stands(SumLoop(ts, at, depth, left).value, ts)
    decreases |ts| - at, 0
  {
    hide PProduct;
    if SumOpOf(ts[at]).Some? {
      StandProduct(ts, at + 1, depth);
      var r := PProduct(ts, at + 1, depth);
      if r.Done? { StandSumLoop(ts, r.next, depth, Binary(Additive(SumOpOf(ts[at]).value), left, r.value)); }
    }
  }

  lemma {:induction false} StandProduct(ts: seq<Token>, at: nat, depth: int)
    requires At(ts, at)
    ensures PProduct(ts, at, depth).Done? ==> Stands(PProduct(ts, at, depth).value, ts)
    decreases |ts| - at, 4
  {
    hide PUnary, ProductLoop;
    StandUnary(ts, at, depth);
    var r := PUnary(ts, at, depth);
    if r.Done? { StandProductLoop(ts, r.next, depth, r.value); }
  }

  lemma {:induction false} StandProductLoop(ts: seq<Token>, at: nat, depth: int, left: Node)
    requires At(ts, at) && Stands(left, ts)
    ensures ProductLoop(ts, at, depth, left).Done? ==> Stands(ProductLoop(ts, at, depth, left).value, ts)
    decreases |ts| - at, 0
  {
    hide PUnary;
    if ProductOpOf(ts[at]).Some? {
      StandUnary(ts, at + 1, depth);
      var r := PUnary(ts, at + 1, depth);
      if r.Done? {
        StandProductLoop(ts, r.next, depth, Binary(Multiplicative(ProductOpOf(ts[at]).value), left, r.value));
      }
    }
  }

  lemma {:induction false} StandUnary(ts: seq<Token>, at: nat, depth: int)
    requires At(ts, at)
    ensures PUnary(ts, at, depth).Done? ==> Stands(PUnary(ts, at, depth).value, ts)
    decreases |ts| - at, 3
  {
    hide PPrimary;
    if !IsOp(ts[at], "-") { StandPrimary(ts, at, depth); }
    else if depth + 1 <= MAX_DEPTH { StandUnary(ts, at + 1, depth + 1); }
  }

  lemma {:induction false} StandItems(ts: seq<Token>, at: nat, depth: int, close: string)
    requires At(ts, at)
    ensures PItems(ts, at, depth, close).Done? ==> AllStand(PItems(ts, at, depth, close).value, ts)
    decreases |ts| - at, 10
  {
    hide POr, ItemsLoop;
    if !IsOp(ts[at], close) {
      StandOr(ts, at, depth);
      var r := POr(ts, at, depth);
      if r.Done? { StandItemsLoop(ts, r.next, depth, close, [r.value]); }
    }
  }

  lemma {:induction false} StandItemsLoop(ts: seq<Token>, at: nat, depth: int, close: string, items: seq<Node>)
    requires At(ts, at) && AllStand(items, ts)
    ensures ItemsLoop(ts, at, depth, close, items).Done? ==> AllStand(ItemsLoop(ts, at, depth, close, items).value, ts)
    decreases |ts| - at, 0
  {
    hide POr;
    if IsOp(ts[at], ",") {
      StandOr(ts, at + 1, depth);
      var r := POr(ts, at + 1, depth);
      if r.Done? { StandItemsLoop(ts, r.next, depth, close, items + [r.value]); }
    }
  }

  lemma {:induction false} PathStands(ts: seq<Token>, at: nat, path: seq<string>)
    requires At(ts, at)
    ensures PathLoop(ts, at, path).Done? ==> Stands(PathLoop(ts, at, path).value, ts)
    decreases |ts| - at
  {
    if IsOp(ts[at], ".") && (ts[at + 1].lexeme.kind == Word || ts[at + 1].lexeme.kind == Num) {
      PathStands(ts, at + 2, path + [ts[at + 1].lexeme.value]);
    }
  }

  lemma {:induction false} StandPrimary(ts: seq<Token>, at: nat, depth: int)
    requires At(ts, at)
    ensures PPrimary(ts, at, depth).Done? ==> Stands(PPrimary(ts, at, depth).value, ts)
    decreases |ts| - at, 2
  {
    hide POr, PItems, PathLoop, NumberValue;
    assert AtToken(ts[at].position, ts);
    if IsOp(ts[at], "(") { StandOr(ts, at + 1, depth); }
    else if IsOp(ts[at], "[") { StandItems(ts, at + 1, depth, "]"); }
    else if ts[at].lexeme.kind == Word {
      if IsOp(ts[at + 1], "(") { StandItems(ts, at + 2, depth, ")"); }
      PathStands(ts, at + 1, [ts[at].lexeme.value]);
    }
  }

  /** Every call of a parsed source stands at a position of the source. */
  lemma CallsStandInSource(s: string)
    requires ParseSource(s).Ok?
    ensures Lexer.LexFrom(s, 0).Ok? && Stands(ParseSource(s).value, Lexer.LexFrom(s, 0).value)
    ensures forall i :: 0 <= i < |Lexer.LexFrom(s, 0).value| ==> Lexer.LexFrom(s, 0).value[i].position <= |s|
  {
    Lexer.LexWithin(s, 0);
    StandOr(Lexer.LexFrom(s, 0).value, 0, 0);
  }
}
