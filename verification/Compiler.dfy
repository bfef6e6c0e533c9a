/** Compiling an expression: arity check, free names, and the memo of compiled sources. */
module Compiler {
  import opened Options
  import opened Syntax
  import opened Evaluator
  import opened Texts
  import Lexer
  import Parser
  import ParserMachine
  import ParserPositions
  import ParserSound
  import Language
  import NonInterference

  /** The first call, outermost and leftmost first, that passes a wrong number of values. */
  function CheckCalls(t: Node): Option<ExpressionError>
    decreases t, 0
  {
    match t
    case Call(name, args, position) =>
      if ArityHolds(name, |args|) then CheckAll(args) else Some(ExpressionError(WrongArity(name), position))
    case List(items) => CheckAll(items)
    case Unary(_, arg) => CheckCalls(arg)
    case Binary(_, left, right) => if CheckCalls(left).Some? then CheckCalls(left) else CheckCalls(right)
    case _ => None
  }

  function CheckAll(ts: seq<Node>): Option<ExpressionError>
    decreases ts, 1
  {
    if ts == [] then None else if CheckCalls(ts[0]).Some? then CheckCalls(ts[0]) else CheckAll(ts[1..])
  }

  /** The check passes exactly the trees that evaluation is defined on. */
  lemma {:induction false} CheckedIsRunnable(t: Node)
    ensures CheckCalls(t) == None <==> CallsChecked(t)
    decreases t, 0
  {
    match t
    case Call(_, args, _) => CheckedAllRunnable(args);
    case List(items) => CheckedAllRunnable(items);
    case Unary(_, arg) => CheckedIsRunnable(arg);
    case Binary(_, left, right) => CheckedIsRunnable(left); CheckedIsRunnable(right);
    case _ =>
  }

  lemma {:induction false} CheckedAllRunnable(ts: seq<Node>)
    ensures CheckAll(ts) == None <==> forall i :: 0 <= i < |ts| ==> CallsChecked(ts[i])
    decreases ts, 1
  {
    if ts != [] {
      CheckedIsRunnable(ts[0]);
      CheckedAllRunnable(ts[1..]);
      assert forall i :: 0 < i < |ts| ==> ts[i] == ts[1..][i - 1];
    }
  }

  /** A refused call is blamed where it stands. */
  lemma {:induction false} RefusalStands(t: Node, ts: seq<Token>)
    requires ParserPositions.Stands(t, ts) && CheckCalls(t).Some?
    ensures ParserPositions.AtToken(CheckCalls(t).value.position, ts)
    decreases t, 0
  {
    match t
    case Call(name, args, _) => if ArityHolds(name, |args|) { RefusalsStand(args, ts); }
    case List(items) => RefusalsStand(items, ts);
    case Unary(_, arg) => RefusalStands(arg, ts);
    case Binary(_, left, right) =>
      if CheckCalls(left).Some? { RefusalStands(left, ts); } else { RefusalStands(right, ts); }
    case _ =>
  }

  lemma {:induction false} RefusalsStand(nodes: seq<Node>, ts: seq<Token>)
    requires ParserPositions.AllStand(nodes, ts) && CheckAll(nodes).Some?
    ensures ParserPositions.AtToken(CheckAll(nodes).value.position, ts)
    decreases nodes, 1
  {
    if CheckCalls(nodes[0]).Some? { RefusalStands(nodes[0], ts); } else { RefusalsStand(nodes[1..], ts); }
  }

  // ---- free names -----------------------------------------------------------------------------

  function DottedName(path: seq<string>): string { Join(path, '.') }

  /** A dotted name gives back the path it was made of exactly when no part of the path holds a dot. */
  lemma DottedNameIsPath(p: seq<string>)
    requires p != []
    ensures Split(DottedName(p), '.') == p <==> forall i :: 0 <= i < |p| ==> Lacks(p[i], '.')
  {
    SplitUndoesJoinExactly(p, '.');
  }

  /** The dotted names an expression reads. */
  function Names(t: Node): set<string> { set p | p in NonInterference.Paths(t) :: DottedName(p) }

  predicate Child(t: Node, u: Node)
  {
    match t
    case List(items) => u in items
    case Unary(_, arg) => u == arg
    case Binary(_, left, right) => u == left || u == right
    case Call(_, args, _) => u in args
    case _ => false
  }

  /** From the tree down to one of its nodes. */
  ghost predicate Inside(t: Node, trail: seq<Node>, u: Node)
  {
    trail != [] && trail[0] == t && trail[|trail| - 1] == u &&
        forall k :: 0 <= k < |trail| - 1 ==> Child(trail[k], trail[k + 1])
  }

  lemma {:induction false} NameInside(t: Node, p: seq<string>) returns (trail: seq<Node>)
    requires p in NonInterference.Paths(t)
    ensures Inside(t, trail, Name(p))
    decreases t, 0
  {
    var rest := [];
    match t {
      case Name(_) =>
      case List(items) => rest := NameInsideAll(items, p);
      case Unary(_, arg) => rest := NameInside(arg, p);
      case Binary(_, left, right) =>
        if p in NonInterference.Paths(left) { rest := NameInside(left, p); } else { rest := NameInside(right, p); }
      case Call(_, args, _) => rest := NameInsideAll(args, p);
    }
    trail := [t] + rest;
  }

  lemma {:induction false} NameInsideAll(ts: seq<Node>, p: seq<string>) returns (trail: seq<Node>)
    requires p in NonInterference.PathsOfAll(ts)
    ensures trail != [] && trail[0] in ts && Inside(trail[0], trail, Name(p))
    decreases ts, 1
  {
    if p in NonInterference.Paths(ts[0]) { trail := NameInside(ts[0], p); } else { trail := NameInsideAll(ts[1..], p); }
  }

  lemma {:induction false} InsideRead(t: Node, trail: seq<Node>, p: seq<string>)
    requires Inside(t, trail, Name(p))
    ensures p in NonInterference.Paths(t)
    decreases |trail|
  {
    if |trail| > 1 {
      var u, rest := trail[1], trail[1..];
      assert Child(trail[0], u);
      assert Inside(u, rest, Name(p)) by {
        forall k | 0 <= k < |rest| - 1 ensures Child(rest[k], rest[k + 1]) { assert rest[k] == trail[k + 1]; }
      }
      InsideRead(u, rest, p);
      match t
      case List(items) => OneOfAll(items, u, p);
      case Call(_, args, _) => OneOfAll(args, u, p);
      case _ =>
    }
  }

  lemma {:induction false} OneOfAll(ts: seq<Node>, u: Node, p: seq<string>)
    requires u in ts && p in NonInterference.Paths(u)
    ensures p in NonInterference.PathsOfAll(ts)
    decreases |ts|
  {
    if u != ts[0] { OneOfAll(ts[1..], u, p); }
  }

  /** The names are exactly those of the paths that stand in the tree, at any depth, their parts joined by dots. */
  lemma NamesExactly(t: Node, name: string)
    ensures name in Names(t) <==> exists trail, path :: Inside(t, trail, Name(path)) && name == Join(path, '.')
  {
    hide Inside;
    if name in Names(t) {
      var p :| p in NonInterference.Paths(t) && DottedName(p) == name;
      var trail := NameInside(t, p);
    }
    if trail, path :| Inside(t, trail, Name(path)) && name == Join(path, '.') { InsideRead(t, trail, path); }
  }

  /** The walk that gathers names into a growing set. */
  class NameCollector {
    var into: set<string>

    constructor ()
      ensures into == {}
    {
      into := {};
    }

    method Collect(t: Node)
      modifies this
      ensures into == old(into) + Names(t)
      decreases t, 0
    {
      match t {
        case Name(path) => into := into + {DottedName(path)};
        case List(items) => CollectAll(items);
        case Unary(_, arg) => Collect(arg);
        case Call(_, args, _) => CollectAll(args);
        case Binary(_, left, right) => Collect(left); Collect(right);
        case Lit(_) =>
      }
    }

    method CollectAll(ts: seq<Node>)
      modifies this
      ensures into == old(into) + set p | p in NonInterference.PathsOfAll(ts) :: DottedName(p)
      decreases ts, 1
    {
      for i := 0 to |ts|
        invariant into + (set p | p in NonInterference.PathsOfAll(ts[i..]) :: DottedName(p))
          == old(into) + set p | p in NonInterference.PathsOfAll(ts) :: DottedName(p)
      {
        assert ts[i..][1..] == ts[i + 1..];
        Collect(ts[i]);
      }
    }
  }

  // ---- compiling ------------------------------------------------------------------------------

  datatype Compiled = Compiled(source: string, names: set<string>, root: Node)

  datatype CompileResult = Good(expression: Compiled) | Bad(error: ExpressionError)

  /** What compiling a source answers, without any memo. */
  function CompileSource(source: string): (r: CompileResult)
    ensures r.Good? ==> CallsChecked(r.expression.root)
  {
    if IsBlankText(source) then Bad(ExpressionError(EmptySource, 0))
    else if |source| > MAX_LENGTH then Bad(ExpressionError(TooLong, MAX_LENGTH))
    else
      match Parser.ParseSource(source)
      case Err(e) => Bad(e)
      case Ok(root) =>
        CheckedIsRunnable(root);
        if CheckCalls(root).Some? then Bad(CheckCalls(root).value) else Good(Compiled(source, Names(root), root))
  }

  const MEMO_LIMIT: nat := 2000

  class Memo {
    var compiled: map<string, Compiled>

    /** Every remembered answer is the answer compiling would give now. */
    ghost predicate Valid()
      reads this
    {
      |compiled| <= MEMO_LIMIT + 1 && forall s :: s in compiled ==> CompileSource(s) == Good(compiled[s])
    }

    constructor ()
      ensures Valid() && compiled == map[]
    {
      compiled := map[];
    }

    method Compile(source: string) returns (r: CompileResult)
      requires Valid()
      modifies this
      ensures Valid() && r == CompileSource(source)
      ensures r.Bad? || source in old(compiled) ==> compiled == old(compiled)
      ensures r.Good? && source !in old(compiled) ==>
        compiled == (if |old(compiled)| > 2000 then map[] else old(compiled))[source := r.expression]
    {
      hide Parser.ParseSource, Names, CheckCalls, CallsChecked, IsBlankText;
      if source in compiled { return Good(compiled[source]); }
      if IsBlankText(source) { return Bad(ExpressionError(EmptySource, 0)); }
      if |source| > MAX_LENGTH { return Bad(ExpressionError(TooLong, MAX_LENGTH)); }
      var root := ParserMachine.Parse(source);
      if root.Err? { return Bad(root.error); }
      var wrong := CheckCalls(root.value);
      if wrong.Some? { return Bad(wrong.value); }
      var collector := new NameCollector();
      collector.Collect(root.value);
      var expression := Compiled(source, collector.into, root.value);
      if |compiled| > MEMO_LIMIT { compiled := map[]; }
      compiled := compiled[source := expression];
      return Good(expression);
    }
  }

  /**
   * A compiled expression's names and root belong to its source, and an error of compiling stands within the source.
   */
  lemma CompiledFaithfully(source: string)
    ensures match CompileSource(source)
            case Good(e) =>
              e.source == source && |source| <= MAX_LENGTH && !IsBlankText(source) && CheckCalls(e.root) == None
                            && forall p :: p in NonInterference.Paths(Shape(e.root)) ==> TABLES !in p && TODAY !in p
            case Bad(e) => e.position <= |source|
  {
    match CompileSource(source)
    case Good(e) =>
      CheckedIsRunnable(e.root);
      forall p, i | p in NonInterference.Paths(Shape(e.root)) && 0 <= i < |p| ensures p[i] != TABLES && p[i] != TODAY {
        NonInterference.ReservedKeysUnnameable(source, p, i);
      }
    case Bad(e) =>
      Language.EveryParseEndsWell(source);
      if Parser.ParseSource(source).Ok? && CheckCalls(Parser.ParseSource(source).value).Some? {
        ParserPositions.CallsStandInSource(source);
        RefusalStands(Parser.ParseSource(source).value, Lexer.LexFrom(source, 0).value);
      }
  }

  lemma {:induction false} ShapeChecked(t: Node)
    ensures CallsChecked(Shape(t)) <==> CallsChecked(t)
  {
    match t
    case List(items) =>
      forall i | 0 <= i < |items| ensures CallsChecked(Shape(items[i])) <==> CallsChecked(items[i]) {
        ShapeChecked(items[i]);
      }
      assert forall i :: 0 <= i < |items| ==> Shape(t).items[i] == Shape(items[i]);
    case Unary(_, arg) => ShapeChecked(arg);
    case Binary(_, left, right) => ShapeChecked(left); ShapeChecked(right);
    case Call(_, args, _) =>
      forall i | 0 <= i < |args| ensures CallsChecked(Shape(args[i])) <==> CallsChecked(args[i]) {
        ShapeChecked(args[i]);
      }
      assert forall i :: 0 <= i < |args| ==> Shape(t).args[i] == Shape(args[i]);
    case _ =>
  }

  /** The source can be split into lexemes from which the grammar derives the tree. */
  ghost predicate Derives(source: string, t: Node)
  {
    var lexed := Lexer.LexFrom(source, 0);
    lexed.Ok? && lexed.value != [] && Language.Derivable(ParserSound.L(lexed.value, 0, |lexed.value| - 1), t)
  }

  /**
   * Exactly what compiles, and to which tree: a source that is not blank, has at most 1000 characters, is derived by
   * the grammar as that tree within the nesting limit, and calls every function with a number of values it takes.
   */
  lemma CompilesExactly(source: string, t: Node)
    ensures (CompileSource(source).Good? && Shape(CompileSource(source).expression.root) == t)
      <==> !IsBlankText(source) && |source| <= 1000 && Derives(source, t) && CallsChecked(t)
  {
    hide CheckCalls, CallsChecked, IsBlankText;
    Lexer.LexWithin(source, 0);
    if Lexer.LexFrom(source, 0).Ok? {
      var ts := Lexer.LexFrom(source, 0).value;
      Language.ParserIsGrammar(ts, ParserSound.L(ts, 0, |ts| - 1), t);
    }
    if Parser.ParseSource(source).Ok? {
      CheckedIsRunnable(Parser.ParseSource(source).value);
      ShapeChecked(Parser.ParseSource(source).value);
    }
  }
}
