/** What an expression tree evaluates to, over a graph of values. */
module Evaluator {
  import opened Values
  import opened Syntax
  import opened Options
  import Lexer
  import Texts

  /** The text and clock operations of the JavaScript runtime, which evaluation only calls. */
  datatype Host = Host(
    number: string -> Option<real>,
    numberName: real -> string,
    day: string -> Option<int>,
    lower: string -> string,
    upper: string -> string,
    today: string)

  const TODAY: string := "$today"
  const TABLES: string := "$tables"

  // ---- value rules ----------------------------------------------------------------------------

  function ToNumber(v: Value, host: Host): Option<real>
  {
    match v
    case Number(n) => Some(n)
    case Text(s) => if Texts.IsBlankText(s) then None else host.number(s)
    case _ => None
  }

  function ToBoolean(v: Value): Option<bool>
  {
    match v
    case Bool(b) => Some(b)
    case Text(s) => if s == "true" then Some(true) else if s == "false" then Some(false) else None
    case _ => None
  }

  predicate IsArray(h: Heap, v: Value) { Elements(h, v).Some? }

  predicate IsBlank(h: Heap, v: Value)
  {
    match v
    case Undefined => true
    case Null => true
    case Text(s) => Texts.IsBlankText(s)
    case _ => IsArray(h, v) && Elements(h, v).value == []
  }

  predicate IsTruthy(h: Heap, v: Value)
  {
    if IsBlank(h, v) then false
    else if ToBoolean(v).Some? then ToBoolean(v).value
    else if v.Number? then v.number != 0.0
    else true
  }

  /** `===`: arrays and records are the same only when they are one object. */
  predicate Same(v: Value, w: Value) { !v.Fresh? && v == w }

  predicate LooseEquals(h: Heap, v: Value, w: Value, host: Host)
  {
    if IsBlank(h, v) && IsBlank(h, w) then !IsArray(h, v) && !IsArray(h, w)
    else if v.Bool? || w.Bool? then ToBoolean(v).Some? && ToBoolean(v) == ToBoolean(w)
    else if v.Number? || w.Number? then ToNumber(v, host).Some? && ToNumber(v, host) == ToNumber(w, host)
    else Same(v, w)
  }

  function Sign(less: bool, equal: bool): int { if equal then 0 else if less then -1 else 1 }

  function Order(v: Value, w: Value, host: Host): Option<int>
  {
    var a, b := ToNumber(v, host), ToNumber(w, host);
    if a.Some? && b.Some? then Some(Sign(a.value < b.value, a == b))
    else if v.Text? && w.Text? then Some(Sign(Texts.Before(v.text, w.text), v == w))
    else None
  }

  predicate AnyEquals(h: Heap, items: seq<Value>, v: Value, host: Host)
  {
    exists i :: 0 <= i < |items| && LooseEquals(h, v, items[i], host)
  }

  predicate Member(h: Heap, v: Value, list: Value, host: Host) {
    IsArray(h, list) && AnyEquals(h, Elements(h, list).value, v, host)
  }

  predicate EqualsAny(h: Heap, items: seq<Value>, v: Value, host: Host)
  {
    exists i :: 0 <= i < |items| && LooseEquals(h, items[i], v, host)
  }

  // ---- dates ----------------------------------------------------------------------------------

  predicate IsDateText(s: string)
  {
    |s| >= 10 && s[4] == '-' && s[7] == '-'
    && forall k :: 0 <= k < 10 && k != 4 && k != 7 ==> Lexer.IsDigit(s[k])
  }

  function DayNumber(v: Value, host: Host): Option<int>
  {
    if v.Text? && IsDateText(v.text) then host.day(v.text[..10]) else None
  }

  // ---- functions ------------------------------------------------------------------------------

  /** A value used as a property name. */
  function PropertyName(v: Value, host: Host): string
  {
    match v
    case Text(s) => s
    case Number(n) => host.numberName(n)
    case Bool(b) => if b then "true" else "false"
    case Null => "null"
    case Undefined => "undefined"
    case _ => "[object Object]"
  }

  predicate Falsy(v: Value)
  {
    v.Undefined? || v.Null? || v == Bool(false) || v == Number(0.0) || v == Text("")
  }

  function OrElse(v: Option<Value>, w: Value): Value { if v.Some? then v.value else w }

  function DropUndefined(v: Value): Value { if v.Undefined? then Null else v }

  /** The first row, from k on, whose key column loosely equals the key. */
  function FindRow(h: Heap, rows: seq<Value>, column: string, key: Value, host: Host): Value
  {
    if rows == [] then Undefined
    else if LooseEquals(h, OrElse(Own(h, rows[0], column), Undefined), key, host) then rows[0]
    else FindRow(h, rows[1..], column, key, host)
  }

  function TableValue(h: Heap, root: Value, name: Value, key: Value, column: Value, host: Host): Value
  {
    var tables := OrElse(Own(h, root, TABLES), Undefined);
    if !IsObject(tables) || !name.Text? || !column.Text? then Null
    else
      match Own(h, tables, name.text)
      case None => Null
      case Some(table) =>
        var rows := Elements(h, OrElse(Own(h, table, "rows"), Undefined));
        if rows == None || IsBlank(h, key) then Null
        else
          var row := FindRow(h, rows.value, PropertyName(OrElse(Own(h, table, "key"), Undefined), host), key, host);
          if Falsy(row) then Null else DropUndefined(OrElse(Own(h, row, column.text), Null))
  }

  function Total(h: Heap, items: seq<Value>, field: string, host: Host): real
  {
    if items == [] then 0.0
    else
      var last := items[|items| - 1];
      var n := if IsObject(last) && Own(h, last, field).Some? then ToNumber(Own(h, last, field).value, host) else None;
      Total(h, items[..|items| - 1], field, host) + (if n.Some? then n.value else 0.0)
  }

  function AllNumbers(vs: seq<Value>, host: Host): (r: Option<seq<real>>)
    ensures r.Some? ==> |r.value| == |vs|
  {
    if vs == [] then Some([])
    else
      match (ToNumber(vs[0], host), AllNumbers(vs[1..], host))
      case (Some(n), Some(ns)) => Some([n] + ns)
      case _ => None
  }

  function Least(ns: seq<real>): real
    requires ns != []
  {
    if |ns| == 1 || ns[0] <= Least(ns[1..]) then ns[0] else Least(ns[1..])
  }

  function Greatest(ns: seq<real>): real
    requires ns != []
  {
    if |ns| == 1 || ns[0] >= Greatest(ns[1..]) then ns[0] else Greatest(ns[1..])
  }

  function NumberOrNull(n: Option<real>): Value { if n.Some? then Number(n.value) else Null }

  function Truncate(x: real): int { if x >= 0.0 then x.Floor else -(-x).Floor }

  function PowerOfTen(n: nat): real { if n == 0 then 1.0 else 10.0 * PowerOfTen(n - 1) }

  function Scale(digits: real): real
  {
    var places := Truncate(digits);
    PowerOfTen(if places < 0 then 0 else if places > 6 then 6 else places)
  }

  /** To the nearest multiple of 1 / scale, halves up. */
  function ToNearest(n: real, scale: real): real
  {
    if scale == 0.0 then n else (n * scale + 0.5).Floor as real / scale
  }

  function Rounded(n: real, digits: real): real { ToNearest(n, Scale(digits)) }

  predicate StartsWith(s: string, t: string) { |t| <= |s| && s[..|t|] == t }

  predicate Includes(s: string, t: string) { exists i :: 0 <= i <= |s| && StartsWith(s[i..], t) }

  predicate ArityHolds(name: string, count: nat) {
    name in FUNCTIONS && FUNCTIONS[name].min <= count <= FUNCTIONS[name].max
  }

  datatype Builtin =
    | FnCount | FnSum | FnLookup | FnIsSet | FnIsEmpty | FnLen | FnMin | FnMax | FnAbs
    | FnRound | FnLower | FnUpper | FnContains | FnStartsWith | FnNumber | FnToday | FnDaysBetween

  function BuiltinOf(name: string): Builtin
    requires name in FUNCTIONS
  {
    if name == "count" then FnCount
    else if name == "sum" then FnSum
    else if name == "lookup" then FnLookup
    else if name == "isSet" then FnIsSet
    else if name == "isEmpty" then FnIsEmpty
    else if name == "len" then FnLen
    else if name == "min" then FnMin
    else if name == "max" then FnMax
    else if name == "abs" then FnAbs
    else if name == "round" then FnRound
    else if name == "lower" then FnLower
    else if name == "upper" then FnUpper
    else if name == "contains" then FnContains
    else if name == "startsWith" then FnStartsWith
    else if name == "number" then FnNumber
    else if name == "today" then FnToday
    else FnDaysBetween
  }

  function ArityOf(b: Builtin): Arity
  {
    match b
    case FnCount => Arity(1, 1) case FnSum => Arity(2, 2) case FnLookup => Arity(3, 3) case FnIsSet => Arity(1, 1)
    case FnIsEmpty => Arity(1, 1) case FnLen => Arity(1, 1) case FnMin => Arity(1, 20) case FnMax => Arity(1, 20)
    case FnAbs => Arity(1, 1) case FnRound => Arity(1, 2) case FnLower => Arity(1, 1) case FnUpper => Arity(1, 1)
    case FnContains => Arity(2, 2)
    case FnStartsWith => Arity(2, 2)
    case FnNumber => Arity(1, 1)
    case FnToday => Arity(0, 0)
    case FnDaysBetween => Arity(2, 2)
  }

  lemma TableArities(name: string)
    requires name in FUNCTIONS
    ensures FUNCTIONS[name] == ArityOf(BuiltinOf(name))
  {
  }

  function Extreme(args: seq<Value>, least: bool, host: Host): Value
    requires args != []
  {
    match AllNumbers(args, host)
    case None => Null
    case Some(ns) => Number(if least then Least(ns) else Greatest(ns))
  }

  function ListTotal(list: Value, field: Value, h: Heap, host: Host): Value
  {
    Number(if IsArray(h, list) && field.Text? then Total(h, Elements(h, list).value, field.text, host) else 0.0)
  }

  function Length(v: Value, h: Heap): Value
  {
    Number(if v.Text? then |v.text| as real else if IsArray(h, v) then |Elements(h, v).value| as real else 0.0)
  }

  function Contains(container: Value, item: Value, h: Heap, host: Host): Value
  {
    Bool(if IsArray(h, container) then EqualsAny(h, Elements(h, container).value, item, host)
         else container.Text? && item.Text? && Includes(container.text, item.text))
  }

  function RoundValue(args: seq<Value>, host: Host): Value
    requires 1 <= |args| <= 2
  {
    var n := ToNumber(args[0], host);
    var digits := if |args| == 1 then Some(0.0) else ToNumber(args[1], host);
    if n.Some? && digits.Some? then Number(Rounded(n.value, digits.value)) else Null
  }

  function Today(pinned: Value, host: Host): Value
  {
    Text(if DayNumber(pinned, host).Some? then pinned.text[..10] else host.today)
  }

  function DaysBetween(from: Value, to: Value, host: Host): Value
  {
    var a, b := DayNumber(from, host), DayNumber(to, host);
    if a.Some? && b.Some? then Number((b.value - a.value) as real) else Null
  }

  function Apply(b: Builtin, args: seq<Value>, h: Heap, root: Value, host: Host): Value
    requires ArityOf(b).min <= |args| <= ArityOf(b).max
  {
    match b
    case FnCount => Number(if IsArray(h, args[0]) then |Elements(h, args[0]).value| as real else 0.0)
    case FnSum => ListTotal(args[0], args[1], h, host)
    case FnLookup => TableValue(h, root, args[0], args[1], args[2], host)
    case FnIsSet => Bool(!IsBlank(h, args[0]))
    case FnIsEmpty => Bool(IsBlank(h, args[0]))
    case FnLen => Length(args[0], h)
    case FnMin => Extreme(args, true, host)
    case FnMax => Extreme(args, false, host)
    case FnAbs => (match ToNumber(args[0], host) case Some(n) => Number(if n < 0.0 then -n else n) case None => Null)
    case FnRound => RoundValue(args, host)
    case FnLower => if args[0].Text? then Text(host.lower(args[0].text)) else args[0]
    case FnUpper => if args[0].Text? then Text(host.upper(args[0].text)) else args[0]
    case FnContains => Contains(args[0], args[1], h, host)
    case FnStartsWith => Bool(args[0].Text? && args[1].Text? && StartsWith(args[0].text, args[1].text))
    case FnNumber => NumberOrNull(ToNumber(args[0], host))
    case FnToday => Today(OrElse(Own(h, root, TODAY), Undefined), host)
    case FnDaysBetween => DaysBetween(args[0], args[1], host)
  }

  // ---- evaluation -----------------------------------------------------------------------------

  /** Walks a path through own properties of arrays and records; anything else on the way is null. */
  function Walk(h: Heap, v: Value, path: seq<string>): Value
    decreases |path|
  {
    if path == [] then DropUndefined(v)
    else if !IsObject(v) then Null
    else match Own(h, v, path[0])
      case None => Null
      case Some(next) => Walk(h, next, path[1..])
  }

  function LiteralValue(l: Literal): Value
  {
    match l case LNum(n) => Number(n) case LText(s) => Text(s) case LBool(b) => Bool(b) case LNull => Null
  }

  function Arithmetic(op: BinaryOp, a: real, b: real): Value
    requires op.Additive? || op.Multiplicative?
  {
    match op
    case Additive(Plus) => Number(a + b)
    case Additive(Minus) => Number(a - b)
    case Multiplicative(Times) => Number(a * b)
    case Multiplicative(Over) => if b == 0.0 then Null else Number(a / b)
  }

  function Combine(op: BinaryOp, v: Value, w: Value, h: Heap, host: Host): Value
    requires op != Or && op != And
  {
    if op.Relate? then Compare(op.relation, v, w, h, host)
    else
      var a, b := ToNumber(v, host), ToNumber(w, host);
      if a.Some? && b.Some? then Arithmetic(op, a.value, b.value) else Null
  }

  /** Whether values that compare so stand in the relation; values that do not compare stand in none. */
  predicate Ordered(r: Relation, order: Option<int>)
  {
    order.Some? && match r
    case Lt => order.value < 0
    case Le => order.value <= 0
    case Gt => order.value > 0
    case _ => order.value >= 0
  }

  function Compare(r: Relation, v: Value, w: Value, h: Heap, host: Host): Value
  {
    match r
    case Eq => Bool(LooseEquals(h, v, w, host))
    case Ne => Bool(!LooseEquals(h, v, w, host))
    case In => Bool(Member(h, v, w, host))
    case _ => Bool(Ordered(r, Order(v, w, host)))
  }

  /** Every call in the tree names a known function and passes it a number of values it takes. */
  predicate CallsChecked(t: Node)
  {
    match t
    case Lit(_) => true
    case Name(_) => true
    case List(items) => forall i :: 0 <= i < |items| ==> CallsChecked(items[i])
    case Unary(_, arg) => CallsChecked(arg)
    case Binary(_, left, right) => CallsChecked(left) && CallsChecked(right)
    case Call(name, args, _) => ArityHolds(name, |args|) && forall i :: 0 <= i < |args| ==> CallsChecked(args[i])
  }

  function RunAll(ts: seq<Node>, h: Heap, root: Value, host: Host): (r: seq<Value>)
    requires forall i :: 0 <= i < |ts| ==> CallsChecked(ts[i])
    ensures |r| == |ts|
    decreases ts, 1
  {
    if ts == [] then [] else [Run(ts[0], h, root, host)] + RunAll(ts[1..], h, root, host)
  }

  function Run(t: Node, h: Heap, root: Value, host: Host): Value
    requires CallsChecked(t)
    decreases t, 0
  {
    match t
    case Lit(l) => LiteralValue(l)
    case Name(path) => Walk(h, root, path)
    case List(items) => Fresh(RunAll(items, h, root, host))
    case Unary(Not, arg) => Bool(!IsTruthy(h, Run(arg, h, root, host)))
    case Unary(Negate, arg) =>
      (match ToNumber(Run(arg, h, root, host), host) case Some(n) => Number(-n) case None => Null)
    case Call(name, args, _) => TableArities(name); Apply(BuiltinOf(name), RunAll(args, h, root, host), h, root, host)
    case Binary(And, left, right) =>
      Bool(IsTruthy(h, Run(left, h, root, host)) && IsTruthy(h, Run(right, h, root, host)))
    case Binary(Or, left, right) =>
      Bool(IsTruthy(h, Run(left, h, root, host)) || IsTruthy(h, Run(right, h, root, host)))
    case Binary(op, left, right) => Combine(op, Run(left, h, root, host), Run(right, h, root, host), h, host)
  }
}
