/**
 * An expression sees a context only through the paths it names, `$tables` and `$today`, and never sees which
 * objects those are: renaming the nodes of the context's graph renames the answer and nothing else.
 */
module NonInterference {
  import opened Options
  import opened Syntax
  import opened Values
  import opened Evaluator
  import Parser
  import Printer
  import Language
  import Texts

  /** The paths an expression reads. */
  function Paths(t: Node): set<seq<string>>
    decreases t, 0
  {
    match t
    case Lit(_) => {}
    case Name(path) => {path}
    case List(items) => PathsOfAll(items)
    case Unary(_, arg) => Paths(arg)
    case Binary(_, left, right) => Paths(left) + Paths(right)
    case Call(_, args, _) => PathsOfAll(args)
  }

  function PathsOfAll(ts: seq<Node>): set<seq<string>>
    decreases ts, 1
  {
    if ts == [] then {} else Paths(ts[0]) + PathsOfAll(ts[1..])
  }

  /** Two contexts, each in its own graph, seen as the same by an expression that reads these paths. */
  ghost predicate SeenAlike(m: map<nat, nat>, h: Heap, g: Heap, root: Value, other: Value, paths: set<seq<string>>)
  {
    && Isomorphic(m, h, g)
    && (forall p :: p in paths ==> Related(m, Walk(h, root, p), Walk(g, other, p)))
    && OptionRelated(m, Own(h, root, TABLES), Own(g, other, TABLES))
    && OptionRelated(m, Own(h, root, TODAY), Own(g, other, TODAY))
  }

  // ---- value rules under renaming -----------------------------------------------------------------

  lemma TruthRelated(m: map<nat, nat>, h: Heap, g: Heap, v: Value, w: Value, host: Host)
    requires Isomorphic(m, h, g) && Related(m, v, w)
    ensures IsArray(h, v) == IsArray(g, w) && IsBlank(h, v) == IsBlank(g, w) && IsTruthy(h, v) == IsTruthy(g, w)
    ensures ToNumber(v, host) == ToNumber(w, host) && ToBoolean(v) == ToBoolean(w) && IsObject(v) == IsObject(w)
    ensures !IsObject(v) ==> v == w
    ensures DayNumber(v, host) == DayNumber(w, host) && Falsy(v) == Falsy(w) &&
            PropertyName(v, host) == PropertyName(w, host)
  {
    ElementsRelated(m, h, g, v, w);
  }

  lemma EqualsRelated(m: map<nat, nat>, h: Heap, g: Heap, v: Value, w: Value, v': Value, w': Value, host: Host)
    requires Isomorphic(m, h, g) && Related(m, v, v') && Related(m, w, w')
    ensures LooseEquals(h, v, w, host) == LooseEquals(g, v', w', host)
  {
    TruthRelated(m, h, g, v, v', host);
    TruthRelated(m, h, g, w, w', host);
  }

  lemma AnyRelated(m: map<nat, nat>, h: Heap, g: Heap, items: seq<Value>, items': seq<Value>, v: Value, v': Value,
      host: Host)
    requires Isomorphic(m, h, g) && AllRelated(m, items, items') && Related(m, v, v')
    ensures AnyEquals(h, items, v, host) == AnyEquals(g, items', v', host)
    ensures EqualsAny(h, items, v, host) == EqualsAny(g, items', v', host)
  {
    hide LooseEquals, Isomorphic;
    forall i | 0 <= i < |items|
      ensures LooseEquals(h, v, items[i], host) == LooseEquals(g, v', items'[i], host)
      ensures LooseEquals(h, items[i], v, host) == LooseEquals(g, items'[i], v', host)
    {
      EqualsRelated(m, h, g, v, items[i], v', items'[i], host);
      EqualsRelated(m, h, g, items[i], v, items'[i], v', host);
    }
  }

  lemma {:induction false} RowRelated(m: map<nat, nat>, h: Heap, g: Heap, rows: seq<Value>, rows': seq<Value>,
                                          column: string, key: Value, key': Value, host: Host)
    requires Isomorphic(m, h, g) && AllRelated(m, rows, rows') && Related(m, key, key')
    ensures Related(m, FindRow(h, rows, column, key, host), FindRow(g, rows', column, key', host))
    decreases |rows|
  {
    hide LooseEquals, Isomorphic;
    if rows != [] {
      OwnRelated(m, h, g, rows[0], rows'[0], column);
      EqualsRelated(m, h, g, OrElse(Own(h, rows[0], column), Undefined), key,
          OrElse(Own(g, rows'[0], column), Undefined), key', host);
      RowRelated(m, h, g, rows[1..], rows'[1..], column, key, key', host);
    }
  }

  lemma TableRelated(m: map<nat, nat>, h: Heap, g: Heap, root: Value, other: Value,
                     name: Value, key: Value, column: Value, name': Value, key': Value, column': Value, host: Host)
    requires Isomorphic(m, h, g) && OptionRelated(m, Own(h, root, TABLES), Own(g, other, TABLES))
    requires Related(m, name, name') && Related(m, key, key') && Related(m, column, column')
    ensures Related(m, TableValue(h, root, name, key, column, host), TableValue(g, other, name', key', column', host))
  {
    hide Related, FindRow, Isomorphic, IsBlank, Own, PropertyName, Falsy, Elements;
    var tables, tables' := OrElse(Own(h, root, TABLES), Undefined), OrElse(Own(g, other, TABLES), Undefined);
    ScalarRelated(m, Undefined);
    ScalarRelated(m, Null);
    TruthRelated(m, h, g, tables, tables', host);
    TruthRelated(m, h, g, name, name', host);
    TruthRelated(m, h, g, column, column', host);
    TruthRelated(m, h, g, key, key', host);
    if IsObject(tables) && name.Text? && column.Text? {
      OwnRelated(m, h, g, tables, tables', name.text);
      if Own(h, tables, name.text).Some? {
        var table, table' := Own(h, tables, name.text).value, Own(g, tables', name.text).value;
        OwnRelated(m, h, g, table, table', "rows");
        OwnRelated(m, h, g, table, table', "key");
        var list, list' := OrElse(Own(h, table, "rows"), Undefined), OrElse(Own(g, table', "rows"), Undefined);
        ElementsRelated(m, h, g, list, list');
        if Elements(h, list).Some? && !IsBlank(h, key) {
          var rows, rows' := Elements(h, list).value, Elements(g, list').value;
          var k, k' := OrElse(Own(h, table, "key"), Undefined), OrElse(Own(g, table', "key"), Undefined);
          TruthRelated(m, h, g, k, k', host);
          var c := PropertyName(k, host);
          RowRelated(m, h, g, rows, rows', c, key, key', host);
          var row, row' := FindRow(h, rows, c, key, host), FindRow(g, rows', c, key', host);
          TruthRelated(m, h, g, row, row', host);
          OwnRelated(m, h, g, row, row', column.text);
          var cell, cell' := OrElse(Own(h, row, column.text), Null), OrElse(Own(g, row', column.text), Null);
          TruthRelated(m, h, g, cell, cell', host);
        }
      }
    }
  }

  lemma {:induction false} TotalRelated(m: map<nat, nat>, h: Heap, g: Heap, items: seq<Value>, items': seq<Value>,
      field: string, host: Host)
    requires Isomorphic(m, h, g) && AllRelated(m, items, items')
    ensures Total(h, items, field, host) == Total(g, items', field, host)
    decreases |items|
  {
    hide Isomorphic;
    if items != [] {
      var n := |items| - 1;
      TotalRelated(m, h, g, items[..n], items'[..n], field, host);
      OwnRelated(m, h, g, items[n], items'[n], field);
      TruthRelated(m, h, g, items[n], items'[n], host);
      if Own(h, items[n], field).Some? {
        TruthRelated(m, h, g, Own(h, items[n], field).value, Own(g, items'[n], field).value, host);
      }
    }
  }

  lemma {:induction false} NumbersRelated(m: map<nat, nat>, h: Heap, g: Heap, vs: seq<Value>, ws: seq<Value>,
      host: Host)
    requires Isomorphic(m, h, g) && AllRelated(m, vs, ws)
    ensures AllNumbers(vs, host) == AllNumbers(ws, host)
    decreases |vs|
  {
    hide Isomorphic;
    if vs != [] {
      TruthRelated(m, h, g, vs[0], ws[0], host);
      NumbersRelated(m, h, g, vs[1..], ws[1..], host);
    }
  }

  lemma ScalarRelated(m: map<nat, nat>, v: Value)
    requires !IsObject(v)
    ensures Related(m, v, v)
  {
  }

  lemma ApplyRelated(b: Builtin, m: map<nat, nat>, h: Heap, g: Heap, root: Value, other: Value, args: seq<Value>,
      args': seq<Value>, host: Host)
    requires ArityOf(b).min <= |args| <= ArityOf(b).max && AllRelated(m, args, args') &&
             SeenAlike(m, h, g, root, other, {})
    ensures Related(m, Apply(b, args, h, root, host), Apply(b, args', g, other, host))
  {
    hide Related, Isomorphic, IsBlank, Falsy, PropertyName, DayNumber, ToNumber, TableValue;
    hide AllNumbers, Least, Greatest, Own, Elements, ListTotal, Contains;
    forall i | 0 <= i < |args| ensures Related(m, args[i], args'[i]) {}
    match b
    case FnLookup => TableRelated(m, h, g, root, other, args[0], args[1], args[2], args'[0], args'[1], args'[2], host);
    case FnLower =>
      TruthRelated(m, h, g, args[0], args'[0], host); ScalarRelated(m,
          Text(if args[0].Text? then host.lower(args[0].text) else ""));
    case FnUpper =>
      TruthRelated(m, h, g, args[0], args'[0], host); ScalarRelated(m,
          Text(if args[0].Text? then host.upper(args[0].text) else ""));
    case _ =>
      ApplyScalar(b, m, h, g, root, other, args, args', host);
      ScalarRelated(m, Apply(b, args, h, root, host));
  }

  lemma ApplyScalar(b: Builtin, m: map<nat, nat>, h: Heap, g: Heap, root: Value, other: Value, args: seq<Value>,
      args': seq<Value>, host: Host)
    requires ArityOf(b).min <= |args| <= ArityOf(b).max && AllRelated(m, args, args') &&
             SeenAlike(m, h, g, root, other, {})
    requires !b.FnLookup? && !b.FnLower? && !b.FnUpper?
    ensures Apply(b, args, h, root, host) == Apply(b, args', g, other, host) && !IsObject(Apply(b, args, h, root, host))
  {
    hide Apply, ArityOf, Isomorphic, Related;
    if b.FnCount? || b.FnSum? || b.FnIsSet? || b.FnIsEmpty? || b.FnLen? || b.FnContains? {
      ApplyToLists(b, m, h, g, root, other, args, args', host);
    } else if b.FnMin? || b.FnMax? {
      ApplyToNumbers(b, m, h, g, root, other, args, args', host);
    } else {
      ApplyToScalars(b, m, h, g, root, other, args, args', host);
    }
  }

  lemma ApplyToLists(b: Builtin, m: map<nat, nat>, h: Heap, g: Heap, root: Value, other: Value, args: seq<Value>,
      args': seq<Value>, host: Host)
    requires ArityOf(b).min <= |args| <= ArityOf(b).max && AllRelated(m, args, args') &&
             SeenAlike(m, h, g, root, other, {})
    requires b.FnCount? || b.FnSum? || b.FnIsSet? || b.FnIsEmpty? || b.FnLen? || b.FnContains?
    ensures Apply(b, args, h, root, host) == Apply(b, args', g, other, host) && !IsObject(Apply(b, args, h, root, host))
  {
    hide Related, Isomorphic, IsBlank, Falsy, PropertyName, DayNumber, ToNumber, TableValue;
    hide AllNumbers, Least, Greatest, Rounded, Own, Elements, ListTotal, Contains, LooseEquals, EqualsAny;
    TruthRelated(m, h, g, args[0], args'[0], host);
    ElementsRelated(m, h, g, args[0], args'[0]);
    match b
    case FnSum => SumRelated(m, h, g, args[0], args'[0], args[1], args'[1], host);
    case FnContains => ContainsRelated(m, h, g, args[0], args'[0], args[1], args'[1], host);
    case _ =>
  }

  lemma ApplyToNumbers(b: Builtin, m: map<nat, nat>, h: Heap, g: Heap, root: Value, other: Value, args: seq<Value>,
      args': seq<Value>, host: Host)
    requires ArityOf(b).min <= |args| <= ArityOf(b).max && AllRelated(m, args, args') &&
             SeenAlike(m, h, g, root, other, {})
    requires b.FnMin? || b.FnMax?
    ensures Apply(b, args, h, root, host) == Apply(b, args', g, other, host) && !IsObject(Apply(b, args, h, root, host))
  {
    hide Related, Isomorphic, IsBlank, Falsy, PropertyName, DayNumber, ToNumber, TableValue;
    hide AllNumbers, Least, Greatest, Rounded, Own, Elements, ListTotal, Contains, LooseEquals, EqualsAny;
    NumbersRelated(m, h, g, args, args', host);
  }

  lemma ApplyToScalars(b: Builtin, m: map<nat, nat>, h: Heap, g: Heap, root: Value, other: Value, args: seq<Value>,
      args': seq<Value>, host: Host)
    requires ArityOf(b).min <= |args| <= ArityOf(b).max && AllRelated(m, args, args') &&
             SeenAlike(m, h, g, root, other, {})
    requires b.FnAbs? || b.FnRound? || b.FnStartsWith? || b.FnNumber? || b.FnToday? || b.FnDaysBetween?
    ensures Apply(b, args, h, root, host) == Apply(b, args', g, other, host) && !IsObject(Apply(b, args, h, root, host))
  {
    hide SeenAlike, StartsWith, Related, Length, Extreme, OrElse, Isomorphic, IsBlank, Falsy, PropertyName;
    hide DayNumber, ToNumber, TableValue, AllNumbers, Least, Greatest, Rounded, Own, Elements, ListTotal, Contains,
        LooseEquals, EqualsAny;
    if b.FnToday? {
      TodayRelated(m, h, g, root, other, host);
    } else {
      Narrow(m, h, g, root, other, {}, {});
      TruthRelated(m, h, g, args[0], args'[0], host);
      if |args| > 1 { TruthRelated(m, h, g, args[1], args'[1], host); }
      match b
      case FnRound => assert RoundValue(args, host) == RoundValue(args', host);
      case FnDaysBetween => assert DaysBetween(args[0], args[1], host) == DaysBetween(args'[0], args'[1], host);
      case FnStartsWith =>
      case FnAbs =>
      case FnNumber =>
    }
  }

  lemma TodayRelated(m: map<nat, nat>, h: Heap, g: Heap, root: Value, other: Value, host: Host)
    requires SeenAlike(m, h, g, root, other, {})
    ensures Today(OrElse(Own(h, root, TODAY), Undefined), host) == Today(OrElse(Own(g, other, TODAY), Undefined), host)
  {
    hide Related, Isomorphic, IsBlank, Falsy, PropertyName, DayNumber, ToNumber, Own;
    var pinned, pinned' := OrElse(Own(h, root, TODAY), Undefined), OrElse(Own(g, other, TODAY), Undefined);
    ScalarRelated(m, Undefined);
    TruthRelated(m, h, g, pinned, pinned', host);
    TodayScalar(pinned, pinned', host);
  }

  lemma TodayScalar(v: Value, w: Value, host: Host)
    requires DayNumber(v, host) == DayNumber(w, host) && (!IsObject(v) ==> v == w)
    ensures Today(v, host) == Today(w, host)
  {
  }

  lemma SumRelated(m: map<nat, nat>, h: Heap, g: Heap, v: Value, v': Value, f: Value, f': Value, host: Host)
    requires Isomorphic(m, h, g) && Related(m, v, v') && Related(m, f, f')
    ensures ListTotal(v, f, h, host) == ListTotal(v', f', g, host) && !IsObject(ListTotal(v, f, h, host))
  {
    hide Isomorphic, Total, Elements;
    TruthRelated(m, h, g, v, v', host);
    ElementsRelated(m, h, g, v, v');
    if IsArray(h, v) && f.Text? { TotalRelated(m, h, g, Elements(h, v).value, Elements(g, v').value, f.text, host); }
  }

  lemma ContainsRelated(m: map<nat, nat>, h: Heap, g: Heap, v: Value, v': Value, w: Value, w': Value, host: Host)
    requires Isomorphic(m, h, g) && Related(m, v, v') && Related(m, w, w')
    ensures Contains(v, w, h, host) == Contains(v', w', g, host) && !IsObject(Contains(v, w, h, host))
  {
    hide Isomorphic, Elements, EqualsAny;
    TruthRelated(m, h, g, v, v', host);
    ElementsRelated(m, h, g, v, v');
    if IsArray(h, v) { AnyRelated(m, h, g, Elements(h, v).value, Elements(g, v').value, w, w', host); }
  }

  lemma CombineRelated(op: BinaryOp, m: map<nat, nat>, h: Heap, g: Heap, v: Value, w: Value, v': Value, w': Value,
      host: Host)
    requires op != Or && op != And && Isomorphic(m, h, g) && Related(m, v, v') && Related(m, w, w')
    ensures Combine(op, v, w, h, host) == Combine(op, v', w', g, host) && !IsObject(Combine(op, v, w, h, host))
  {
    hide Isomorphic, Related, ToNumber, Compare;
    TruthRelated(m, h, g, v, v', host);
    TruthRelated(m, h, g, w, w', host);
    if op.Relate? { CompareRelated(op.relation, m, h, g, v, w, v', w', host); }
  }

  lemma CompareIs(r: Relation, v: Value, w: Value, h: Heap, host: Host)
    ensures Compare(r, v, w, h, host).Bool? && !IsObject(Compare(r, v, w, h, host))
    ensures Compare(r, v, w, h, host).flag ==
      if r == Eq then LooseEquals(h, v, w, host) else if r == Ne then !LooseEquals(h, v, w, host)
      else if r == In then Member(h, v, w, host) else Ordered(r, Order(v, w, host))
  {
    hide LooseEquals, Member, Ordered, Order;
  }

  lemma MemberIs(h: Heap, v: Value, list: Value, host: Host)
    ensures Member(h, v, list, host) == (Elements(h, list).Some? && AnyEquals(h, Elements(h, list).value, v, host))
  {
    hide AnyEquals, Elements;
  }

  lemma CompareRelated(r: Relation, m: map<nat, nat>, h: Heap, g: Heap, v: Value, w: Value, v': Value, w': Value,
      host: Host)
    requires Isomorphic(m, h, g) && Related(m, v, v') && Related(m, w, w')
    ensures Compare(r, v, w, h, host) == Compare(r, v', w', g, host) && !IsObject(Compare(r, v, w, h, host))
  {
    hide *;
    CompareIs(r, v, w, h, host);
    CompareIs(r, v', w', g, host);
    EqualsRelated(m, h, g, v, w, v', w', host);
    MembershipRelated(m, h, g, v, w, v', w', host);
    OrderRelated(m, h, g, v, w, v', w', host);
  }

  lemma MembershipRelated(m: map<nat, nat>, h: Heap, g: Heap, v: Value, w: Value, v': Value, w': Value, host: Host)
    requires Isomorphic(m, h, g) && Related(m, v, v') && Related(m, w, w')
    ensures Member(h, v, w, host) == Member(g, v', w', host)
  {
    hide *;
    MemberIs(h, v, w, host);
    MemberIs(g, v', w', host);
    ElementsRelated(m, h, g, w, w');
    if Elements(h, w).Some? { AnyRelated(m, h, g, Elements(h, w).value, Elements(g, w').value, v, v', host); }
  }

  lemma OrderRelated(m: map<nat, nat>, h: Heap, g: Heap, v: Value, w: Value, v': Value, w': Value, host: Host)
    requires Isomorphic(m, h, g) && Related(m, v, v') && Related(m, w, w')
    ensures Order(v, w, host) == Order(v', w', host)
  {
    hide Isomorphic, IsBlank, ToNumber, ToBoolean, Elements, Texts.Before;
    TruthRelated(m, h, g, v, v', host);
    TruthRelated(m, h, g, w, w', host);
  }

  lemma ListRelated(m: map<nat, nat>, vs: seq<Value>, ws: seq<Value>)
    requires AllRelated(m, vs, ws)
    ensures Related(m, Fresh(vs), Fresh(ws))
  {
  }

  lemma Narrow(m: map<nat, nat>, h: Heap, g: Heap, root: Value, other: Value, paths: set<seq<string>>,
      fewer: set<seq<string>>)
    requires SeenAlike(m, h, g, root, other, paths) && fewer <= paths
    ensures SeenAlike(m, h, g, root, other, fewer) && Isomorphic(m, h, g)
  {
    hide Isomorphic;
  }

  lemma {:induction false} RunAllRelated(ts: seq<Node>, m: map<nat, nat>, h: Heap, g: Heap, root: Value, other: Value,
      host: Host)
    requires (forall i :: 0 <= i < |ts| ==> CallsChecked(ts[i])) && SeenAlike(m, h, g, root, other, PathsOfAll(ts))
    ensures AllRelated(m, RunAll(ts, h, root, host), RunAll(ts, g, other, host))
    decreases ts, 1
  {
    hide SeenAlike, Run, CallsChecked, Related;
    if ts != [] {
      Narrow(m, h, g, root, other, PathsOfAll(ts), Paths(ts[0]));
      Narrow(m, h, g, root, other, PathsOfAll(ts), PathsOfAll(ts[1..]));
      RunRelated(ts[0], m, h, g, root, other, host);
      RunAllRelated(ts[1..], m, h, g, root, other, host);
    }
  }

  /** Contexts seen alike give answers that are the same up to the renaming. */
  lemma {:induction false} RunRelated(t: Node, m: map<nat, nat>, h: Heap, g: Heap, root: Value, other: Value,
      host: Host)
    requires CallsChecked(t) && SeenAlike(m, h, g, root, other, Paths(t))
    ensures Related(m, Run(t, h, root, host), Run(t, g, other, host))
    decreases t, 0
  {
    hide SeenAlike, Isomorphic, Walk, Apply, Combine, IsTruthy, BuiltinOf, ToNumber, Related, ArityOf;
    match t
    case Lit(l) => ScalarRelated(m, LiteralValue(l));
    case Name(path) => SeenPath(m, h, g, root, other, path);
    case List(items) =>
      RunAllRelated(items, m, h, g, root, other, host);
      ListRelated(m, RunAll(items, h, root, host), RunAll(items, g, other, host));
    case Unary(_, arg) =>
      Narrow(m, h, g, root, other, Paths(t), {});
      RunRelated(arg, m, h, g, root, other, host);
      TruthRelated(m, h, g, Run(arg, h, root, host), Run(arg, g, other, host), host);
      ScalarRelated(m, Run(t, h, root, host));
    case Binary(op, left, right) =>
      Narrow(m, h, g, root, other, Paths(t), Paths(left));
      Narrow(m, h, g, root, other, Paths(t), Paths(right));
      RunRelated(left, m, h, g, root, other, host);
      RunRelated(right, m, h, g, root, other, host);
      TruthRelated(m, h, g, Run(left, h, root, host), Run(left, g, other, host), host);
      TruthRelated(m, h, g, Run(right, h, root, host), Run(right, g, other, host), host);
      if op != Or && op != And {
        CombineRelated(op, m, h, g, Run(left, h, root, host), Run(right, h, root, host), Run(left, g, other, host),
            Run(right, g, other, host), host);
      }
      ScalarRelated(m, Run(t, h, root, host));
    case Call(name, args, _) =>
      Narrow(m, h, g, root, other, Paths(t), {});
      RunAllRelated(args, m, h, g, root, other, host);
      TableArities(name);
      ApplyRelated(BuiltinOf(name), m, h, g, root, other, RunAll(args, h, root, host), RunAll(args, g, other, host),
          host);
  }

  lemma SeenPath(m: map<nat, nat>, h: Heap, g: Heap, root: Value, other: Value, path: seq<string>)
    requires SeenAlike(m, h, g, root, other, {path})
    ensures Related(m, Walk(h, root, path), Walk(g, other, path))
  {
    assert path in {path};
  }

  // ---- contexts in one graph ----------------------------------------------------------------------

  /** Every object the value reaches directly is a node of the graph. */
  ghost predicate Within(h: Heap, v: Value)
  {
    match v
    case Ref(id) => id in h
    case Fresh(items) => forall i :: 0 <= i < |items| ==> Within(h, items[i])
    case _ => true
  }

  ghost predicate Closed(h: Heap)
  {
    forall id :: id in h ==>
      match h[id]
      case Arr(items) => forall i :: 0 <= i < |items| ==> Within(h, items[i])
      case Rec(fields) => forall i :: 0 <= i < |fields| ==> Within(h, fields[i].1)
  }

  function Identity(h: Heap): map<nat, nat> { map i | i in h :: i }

  lemma {:induction false} RelatedToItself(h: Heap, v: Value)
    requires Within(h, v)
    ensures Related(Identity(h), v, v)
  {
    if v.Fresh? {
      forall i | 0 <= i < |v.items| ensures Related(Identity(h), v.items[i], v.items[i]) {
        RelatedToItself(h, v.items[i]);
      }
    }
  }

  lemma {:induction false} OnlyRelatedToItself(h: Heap, v: Value, w: Value)
    requires Related(Identity(h), v, w)
    ensures v == w
  {
    if v.Fresh? {
      forall i | 0 <= i < |v.items| ensures v.items[i] == w.items[i] { OnlyRelatedToItself(h, v.items[i], w.items[i]); }
      assert v.items == w.items;
    }
  }

  lemma IdentityIsomorphic(h: Heap)
    requires Closed(h)
    ensures Isomorphic(Identity(h), h, h)
  {
    forall id | id in h ensures SameObj(Identity(h), h[id], h[id]) {
      match h[id]
      case Arr(items) =>
        forall i | 0 <= i < |items| ensures Related(Identity(h), items[i], items[i]) { RelatedToItself(h, items[i]); }
      case Rec(fields) =>
        forall i | 0 <= i < |fields| ensures Related(Identity(h), fields[i].1, fields[i].1) {
          RelatedToItself(h, fields[i].1);
        }
    }
  }

  ghost predicate SameSight(h: Heap, root: Value, other: Value, paths: set<seq<string>>)
  {
    && (forall p :: p in paths ==> Walk(h, root, p) == Walk(h, other, p))
    && Own(h, root, TABLES) == Own(h, other, TABLES)
    && Own(h, root, TODAY) == Own(h, other, TODAY)
  }

  lemma {:induction false} WalkWithin(h: Heap, v: Value, path: seq<string>)
    requires Closed(h) && Within(h, v)
    ensures Within(h, Walk(h, v, path))
    decreases |path|
  {
    if path != [] && IsObject(v) && Own(h, v, path[0]).Some? {
      OwnWithin(h, v, path[0]);
      WalkWithin(h, Own(h, v, path[0]).value, path[1..]);
    }
  }

  lemma OwnWithin(h: Heap, v: Value, name: string)
    requires Closed(h) && Within(h, v) && Own(h, v, name).Some?
    ensures Within(h, Own(h, v, name).value)
  {
    if v.Ref? && h[v.id].Rec? { FieldWithin(h, h[v.id].fields, name); }
  }

  lemma {:induction false} FieldWithin(h: Heap, fields: seq<(string, Value)>, name: string)
    requires (forall i :: 0 <= i < |fields| ==> Within(h, fields[i].1)) && Field(fields, name).Some?
    ensures Within(h, Field(fields, name).value)
    decreases |fields|
  {
    if fields[0].0 != name { FieldWithin(h, fields[1..], name); }
  }

  /** Two contexts that agree on the paths read, the tables and the pinned date give the same value. */
  lemma SameSightSameValue(t: Node, h: Heap, root: Value, other: Value, host: Host)
    requires CallsChecked(t) && Closed(h) && Within(h, root) && Within(h, other) && SameSight(h, root, other, Paths(t))
    ensures Run(t, h, root, host) == Run(t, h, other, host)
  {
    hide Isomorphic, SeenAlike, SameSight, Related, Run, Closed, Within, CallsChecked;
    SameSightSeenAlike(h, root, other, Paths(t));
    RunRelated(t, Identity(h), h, h, root, other, host);
    OnlyRelatedToItself(h, Run(t, h, root, host), Run(t, h, other, host));
  }

  lemma SameSightSeenAlike(h: Heap, root: Value, other: Value, paths: set<seq<string>>)
    requires Closed(h) && Within(h, root) && SameSight(h, root, other, paths)
    ensures SeenAlike(Identity(h), h, h, root, other, paths)
  {
    hide Isomorphic, Related, Walk, Own, Closed, Within;
    var m := Identity(h);
    IdentityIsomorphic(h);
    forall p | p in paths ensures Related(m, Walk(h, root, p), Walk(h, other, p)) {
      WalkWithin(h, root, p);
      RelatedToItself(h, Walk(h, root, p));
    }
    OwnRelatedToItself(h, root, TABLES);
    OwnRelatedToItself(h, root, TODAY);
  }

  lemma OwnRelatedToItself(h: Heap, v: Value, name: string)
    requires Closed(h) && Within(h, v)
    ensures OptionRelated(Identity(h), Own(h, v, name), Own(h, v, name))
  {
    hide Own, Related, Within;
    if Own(h, v, name).Some? {
      OwnWithin(h, v, name);
      RelatedToItself(h, Own(h, v, name).value);
    }
  }

  // ---- what paths an expression can name ----------------------------------------------------------

  lemma {:induction false} PrintablePaths(t: Node, p: seq<string>)
    requires Printer.Printable(t) && p in Paths(t)
    ensures p != [] && forall i :: 0 <= i < |p| ==> Printer.IsPart(p[i])
    decreases t, 0
  {
    hide Printer.IsPart;
    match t
    case Name(path) =>
    case List(items) => PrintablePathsOfAll(items, p);
    case Unary(_, arg) => PrintablePaths(arg, p);
    case Binary(_, left, right) => if p in Paths(left) { PrintablePaths(left, p); } else { PrintablePaths(right, p); }
    case Call(_, args, _) => PrintablePathsOfAll(args, p);
  }

  lemma {:induction false} PrintablePathsOfAll(ts: seq<Node>, p: seq<string>)
    requires (forall i :: 0 <= i < |ts| ==> Printer.Printable(ts[i])) && p in PathsOfAll(ts)
    ensures p != [] && forall i :: 0 <= i < |p| ==> Printer.IsPart(p[i])
    decreases ts, 1
  {
    hide Printer.IsPart;
    if p in Paths(ts[0]) { PrintablePaths(ts[0], p); } else { PrintablePathsOfAll(ts[1..], p); }
  }

  /**
   * No part of any path of a parsed expression starts with `$`, so no expression names the tables or the pinned date.
   */
  lemma ReservedKeysUnnameable(source: string, p: seq<string>, i: nat)
    requires Parser.ParseSource(source).Ok? && p in Paths(Shape(Parser.ParseSource(source).value)) && i < |p|
    ensures p[i] != "" && p[i][0] != '$' && p[i] != TABLES && p[i] != TODAY
  {
    var e := Language.AcceptedDerives(source);
    Language.FitOr(e);
    PrintablePaths(Shape(Parser.ParseSource(source).value), p);
    assert Printer.IsPart(p[i]);
    assert TABLES[0] == '$' && TODAY[0] == '$';
  }
}
