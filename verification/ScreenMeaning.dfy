/** What a screen says of a quote, said of the fields, the values on the quote and the conditions. */
module ScreenMeaning {
  import opened Options
  import opened Values
  import opened Evaluator
  import opened EvaluationLaws
  import opened ScreenRules
  import opened Sequences
  import Compiler
  import Lexer
  import ScreenProof
  import Texts
  import ValidationMeaning
  import ValidationProof
  import ValidationRules

  // ---- conditions -----------------------------------------------------------------------------

  predicate NoText(s: Option<string>) { s.None? || !Inked(s.value) }

  /** The condition compiles, and its value in the context does not count as false. */
  ghost predicate IsTrue(source: string, h: Heap, context: Value, host: Host)
  {
    exists e :: TrueWhenCompiled(source, e, h, context, host)
  }

  ghost predicate TrueWhenCompiled(source: string, e: Compiler.Compiled, h: Heap, context: Value, host: Host)
  {
    && Compiler.CompileSource(source) == Compiler.Good(e) && CallsChecked(e.root)
    && !CountsAsFalse(h, Run(e.root, h, context, host))
  }

  lemma ConditionExactly(source: Option<string>, h: Heap, context: Value, host: Host, whenBlank: bool)
    ensures EvaluateCondition(source, h, context, host, whenBlank)
      <==> if NoText(source) then whenBlank else IsTrue(source.value, h, context, host)
  {
    if !NoText(source) && Compiler.CompileSource(source.value).Good? {
      var e := Compiler.CompileSource(source.value).expression;
      TruthExactly(h, Run(e.root, h, context, host));
      assert TrueWhenCompiled(source.value, e, h, context, host)
        <==> EvaluateCondition(source, h, context, host, whenBlank);
    }
    hide Run, IsTruthy, CountsAsFalse, Compiler.CompileSource, CallsChecked;
  }

  // ---- values ---------------------------------------------------------------------------------

  predicate NothingThere(v: Value) { v.Null? || v.Undefined? || (v.Text? && !Inked(v.text)) }

  /** The number a value is or converts to. */
  predicate Numbers(v: Value, c: Conversions, a: real) { if v.Number? then v.number == a else c.number(v) == Some(a) }

  predicate IsInt(k: int, a: real) { k as real == a }

  ghost predicate Whole(a: real) { exists k :: IsInt(k, a) }

  /** Digits with a hyphen after the fourth and the sixth, and nothing else. */
  ghost predicate DateText(s: string)
  {
    exists y, m, d :: s == y + "-" + m + "-" + d && |y| == 4 && |m| == 2 && |d| == 2
      && Texts.AllDigits(y) && Texts.AllDigits(m) && Texts.AllDigits(d)
  }

  /** What is wrong with a value that is there, by the type of the field. */
  ghost predicate Wrong(dataType: DataType, options: Option<seq<Value>>, v: Value, c: Conversions, p: Option<Problem>)
  {
    match dataType
    case IntType =>
      if forall a :: !Numbers(v, c, a) then p == Some(NotANumber)
      else if forall a :: Numbers(v, c, a) ==> !Whole(a) then p == Some(NotWhole) else p == None
    case NumberType => p == if forall a :: !Numbers(v, c, a) then Some(NotANumber) else None
    case EnumType =>
      var listed := options.None? || options.value == [] ||
        exists i :: 0 <= i < |options.value| && c.text(options.value[i]) == c.text(v);
      p == if listed then None else Some(NotAnOption)
    case BoolType =>
      var answered := v == Bool(true) || v == Bool(false) || v == Text("true") || v == Text("false");
      p == if answered then None else Some(NotYesNo)
    case DateType => p == if DateText(c.text(v)) then None else Some(NotADate)
    case _ => p == None
  }

  lemma WholeExactly(a: real)
    ensures Whole(a) <==> a.Floor as real == a
  {
    if a.Floor as real == a { assert IsInt(a.Floor, a); }
  }

  lemma DateExactly(s: string)
    ensures DateShaped(s) <==> DateText(s)
  {
    if DateShaped(s) { DateParts(s); }
    if DateText(s) {
      var y, m, d :| s == y + "-" + m + "-" + d && |y| == 4 && |m| == 2 && |d| == 2
        && Texts.AllDigits(y) && Texts.AllDigits(m) && Texts.AllDigits(d);
      DateWhole(s, y, m, d);
    }
  }

  lemma DateParts(s: string)
    requires DateShaped(s)
    ensures DateText(s)
  {
    var y, m, d := s[..4], s[5..7], s[8..10];
    assert s[4..5] == "-" && s[7..8] == "-";
    assert s == y + s[4..5] + m + s[7..8] + d;
    assert Texts.AllDigits(y) && Texts.AllDigits(m) && Texts.AllDigits(d);
  }

  lemma DateWhole(s: string, y: string, m: string, d: string)
    requires s == y + "-" + m + "-" + d && |y| == 4 && |m| == 2 && |d| == 2
    requires Texts.AllDigits(y) && Texts.AllDigits(m) && Texts.AllDigits(d)
    ensures DateShaped(s)
  {
    assert s[..4] == y && s[5..7] == m && s[8..10] == d && s[4] == '-' && s[7] == '-';
    forall k | 0 <= k < 4 ensures s[k] == y[k] { assert s[..4][k] == s[k]; }
    forall k | 5 <= k < 7 ensures s[k] == m[k - 5] { assert s[5..7][k - 5] == s[k]; }
    forall k | 8 <= k < 10 ensures s[k] == d[k - 8] { assert s[8..10][k - 8] == s[k]; }
  }

  lemma ValueExactly(dataType: DataType, options: Option<seq<Value>>, v: Value, c: Conversions)
    ensures Wrong(dataType, options, v, c, ValueProblem(dataType, options, v, c))
  {
    hide DateShaped, DateText;
    DateExactly(c.text(v));
    var numeric := if v.Number? then Some(v.number) else c.number(v);
    if numeric.Some? {
      WholeExactly(numeric.value);
      assert Numbers(v, c, numeric.value);
    }
    hide Whole;
  }

  // ---- fields ---------------------------------------------------------------------------------

  /** The values met along keys that all lead on, the properties of texts included. */
  ghost predicate Led(h: Heap, from: Value, keys: seq<string>, vs: seq<Value>)
  {
    |vs| == |keys| + 1 && vs[0] == from && forall i :: 0 <= i < |keys| ==> Own(h, vs[i], keys[i]) == Some(vs[i + 1])
  }

  ghost predicate Leads(h: Heap, from: Value, keys: seq<string>, v: Value)
  {
    exists vs :: Led(h, from, keys, vs) && vs[|keys|] == v
  }

  lemma {:induction false} FollowedExactly(h: Heap, from: Value, keys: seq<string>)
    ensures Leads(h, from, keys, FollowPath(h, from, keys))
      || ((forall v :: !Leads(h, from, keys, v)) && FollowPath(h, from, keys) == Undefined)
    decreases |keys|
  {
    hide Own;
    if keys == [] {
      assert Led(h, from, keys, [from]);
    } else if Own(h, from, keys[0]).Some? {
      var next := Own(h, from, keys[0]).value;
      FollowedExactly(h, next, keys[1..]);
      var v := FollowPath(h, from, keys);
      if Leads(h, next, keys[1..], v) {
        var vs :| Led(h, next, keys[1..], vs) && vs[|keys| - 1] == v;
        LedOn(h, from, keys, vs);
      } else {
        forall w ensures !Leads(h, from, keys, w) { if Leads(h, from, keys, w) { LedRest(h, from, keys, w); } }
      }
    } else {
      NothingFollowed(h, keys[1..]);
      forall w ensures !Leads(h, from, keys, w) { if Leads(h, from, keys, w) { LedFirst(h, from, keys, w); } }
    }
  }

  lemma LedOn(h: Heap, from: Value, keys: seq<string>, vs: seq<Value>)
    requires keys != [] && Own(h, from, keys[0]).Some? && Led(h, Own(h, from, keys[0]).value, keys[1..], vs)
    ensures Leads(h, from, keys, vs[|keys| - 1])
  {
    hide Own;
    var longer := [from] + vs;
    forall i | 0 <= i < |keys| ensures Own(h, longer[i], keys[i]) == Some(longer[i + 1]) {
      if i > 0 { assert longer[i] == vs[i - 1] && longer[i + 1] == vs[i] && keys[i] == keys[1..][i - 1]; }
    }
    assert Led(h, from, keys, longer) && longer[|keys|] == vs[|keys| - 1];
  }

  lemma LedFirst(h: Heap, from: Value, keys: seq<string>, w: Value)
    requires keys != [] && Leads(h, from, keys, w)
    ensures Own(h, from, keys[0]).Some?
  {
    hide Own;
    var vs :| Led(h, from, keys, vs) && vs[|keys|] == w;
    assert Own(h, vs[0], keys[0]) == Some(vs[1]);
  }

  lemma LedRest(h: Heap, from: Value, keys: seq<string>, w: Value)
    requires keys != [] && Leads(h, from, keys, w)
    ensures Own(h, from, keys[0]).Some? && Leads(h, Own(h, from, keys[0]).value, keys[1..], w)
  {
    hide Own;
    var vs :| Led(h, from, keys, vs) && vs[|keys|] == w;
    assert Own(h, vs[0], keys[0]) == Some(vs[1]);
    var rest := vs[1..];
    forall i | 0 <= i < |keys| - 1 ensures Own(h, rest[i], keys[1..][i]) == Some(rest[i + 1]) {
      assert rest[i] == vs[i + 1] && rest[i + 1] == vs[i + 2] && keys[1..][i] == keys[i + 1];
    }
    assert Led(h, vs[1], keys[1..], rest) && rest[|keys| - 1] == w;
  }

  lemma {:induction false} NothingFollowed(h: Heap, keys: seq<string>)
    ensures FollowPath(h, Undefined, keys) == Undefined
    decreases |keys|
  {
    if keys != [] { NothingFollowed(h, keys[1..]); }
  }

  /** A dotted path leads from the quote through its parts. */
  lemma QuoteValueExactly(h: Heap, quote: Value, keys: seq<string>)
    requires keys != [] && forall i :: 0 <= i < |keys| ==> keys[i] != "" && Texts.Lacks(keys[i], '.')
    ensures var v := GetQuoteValue(h, quote, Texts.Join(keys, '.'));
      Leads(h, quote, keys, v) || ((forall w :: !Leads(h, quote, keys, w)) && v == Undefined)
  {
    hide FollowPath, Leads;
    Texts.SplitOfJoin(keys, '.');
    ValidationMeaning.NothingDropped(keys);
    FollowedExactly(h, quote, keys);
  }

  /** What is wrong with a field's own value while it is visible. */
  ghost predicate FieldWrong(field: Field, required: bool, value: Value, env: Env, p: Option<Problem>)
  {
    if field.dataType == ListType then ListWrong(field, required, value, env, p)
    else if NothingThere(value) then p == if required && !field.checkbox then Some(Missing) else None
    else Wrong(field.dataType, field.options, value, env.conversions, p)
  }

  ghost predicate ListWrong(field: Field, required: bool, value: Value, env: Env, p: Option<Problem>)
  {
    if NoList(env.h, value) && value != Undefined && value != Null then p == Some(NotAList)
    else
      exists items :: ItemsAre(value, env, items) && SizeWrong(field, required, |items|, p)
  }

  /** The items of a list, and none of anything else. */
  ghost predicate ItemsAre(value: Value, env: Env, items: seq<Value>)
  {
    ListOf(env.h, value, items) || (NoList(env.h, value) && items == [])
  }

  /** A required list has at least one item, and every list at least and at most as many as its field says. */
  predicate SizeWrong(field: Field, required: bool, count: nat, p: Option<Problem>)
  {
    if count < field.minItems && (!required || field.minItems >= 1) then p == Some(TooFew(field.minItems))
    else if count < 1 && required then p == Some(TooFew(1))
    else if field.maxItems.Some? && field.maxItems.value < count then p == Some(TooMany(field.maxItems.value))
    else p == None
  }

  lemma ItemsExactly(value: Value, env: Env)
    ensures ItemsAre(value, env, ItemsOf(value, env))
  {
    ListExactly(env.h, value);
  }

  lemma OwnErrorExactly(field: Field, sectionVisible: bool, env: Env)
    ensures var fs := FieldStateOf(field, sectionVisible, env);
      var p := ScreenProof.OwnError(field, sectionVisible, env);
      if fs.visible then FieldWrong(field, fs.required, GetQuoteValue(env.h, env.quote, field.path), env, p)
      else p == None
  {
    hide FieldStateOf, GetQuoteValue, ValueProblem, Wrong;
    var value := GetQuoteValue(env.h, env.quote, field.path);
    ValueExactly(field.dataType, field.options, value, env.conversions);
    ListExactly(env.h, value);
    ItemsExactly(value, env);
  }

  /** The section's condition and the field's own let it be seen. */
  ghost predicate Shown(section: Section, field: Field, env: Env)
  {
    && (NoText(section.visibleWhen) || IsTrue(section.visibleWhen.value, env.h, env.context, env.host))
    && (NoText(field.visibleWhen) || IsTrue(field.visibleWhen.value, env.h, env.context, env.host))
  }

  /** It is required always, or by a condition that is not blank. */
  ghost predicate Asked(field: Field, env: Env)
  {
    field.required || (!NoText(field.requiredWhen) && IsTrue(field.requiredWhen.value, env.h, env.context, env.host))
  }

  lemma FieldStateExactly(field: Field, section: Section, env: Env)
    ensures FieldStateOf(field, SectionVisible(section, env), env)
      == FieldState(Shown(section, field, env), Shown(section, field, env) && Asked(field, env))
  {
    ConditionExactly(section.visibleWhen, env.h, env.context, env.host, true);
    ConditionExactly(field.visibleWhen, env.h, env.context, env.host, true);
    ConditionExactly(field.requiredWhen, env.h, env.context, env.host, false);
    hide EvaluateCondition, IsTrue, NoText;
  }

  /**
   * A field with a key of its own is visible and required as its conditions say; while it is visible its error is what
   * is wrong with its value, if anything is, and a hidden field has none.
   */
  lemma FieldErrorExactly(screen: Screen, env: Env, i: nat, j: nat)
    requires Once(ScreenProof.Keys(screen.sections))
    requires i < |screen.sections| && j < |screen.sections[i].fields|
    requires Texts.Lacks(screen.sections[i].fields[j].key, '.')
    ensures var s, field := Evaluated(screen, env), screen.sections[i].fields[j];
      && field.key in s.fields
      && s.fields[field.key] == FieldState(Shown(screen.sections[i], field, env),
           Shown(screen.sections[i], field, env) && Asked(field, env))
      && (s.fields[field.key].visible ==> exists p ::
            && FieldWrong(field, s.fields[field.key].required, GetQuoteValue(env.h, env.quote, field.path), env, p)
            && (p.Some? ==> field.key in s.errors && s.errors[field.key] == p.value))
      && (!s.fields[field.key].visible ==> field.key !in s.errors)
  {
    ScreenProof.FieldErrorsExactly(screen, env, i, j);
    ScreenProof.FieldsAreExact(screen, env, i, j);
    var field := screen.sections[i].fields[j];
    OwnErrorExactly(field, SectionVisible(screen.sections[i], env), env);
    FieldStateExactly(field, screen.sections[i], env);
    hide Shown, Asked;
    hide Evaluated, FieldWrong, GetQuoteValue, AfterSections, Condition;
  }

  // ---- lists ----------------------------------------------------------------------------------

  /** What an item has in a column: nothing unless it is a record or list. */
  ghost predicate InCell(item: Value, column: Column, env: Env, cell: Value)
  {
    || ((item.Ref? || item.Fresh?) && Own(env.h, item, column.key) == Some(cell))
    || (cell == Undefined && !((item.Ref? || item.Fresh?) && Own(env.h, item, column.key).Some?))
  }

  /** What is wrong in a column: a required one is filled, an unticked box aside, and a filled one is of its type. */
  ghost predicate CellWrong(item: Value, column: Column, env: Env, p: Option<Problem>)
  {
    exists cell :: InCell(item, column, env, cell) &&
      if NothingThere(cell) then p == if column.required && column.dataType != BoolType then Some(Missing) else None
      else Wrong(column.dataType, column.options, cell, env.conversions, p)
  }

  lemma CellExactly(item: Value, column: Column, env: Env)
    ensures CellWrong(item, column, env, CellProblem(item, column, env))
  {
    hide Own, ValueProblem, Wrong;
    var cell := Cell(item, column, env);
    assert InCell(item, column, env, cell);
    ValueExactly(column.dataType, column.options, cell, env.conversions);
  }

  predicate ColumnsApart(columns: seq<Column>)
  {
    forall i, j :: 0 <= i < j < |columns| ==> columns[i].key != columns[j].key
  }

  function Error(errors: Errors, key: string): Option<Problem> { if key in errors then Some(errors[key]) else None }

  /** The key of a cell: the list's, the index and the column's, with dots between. */
  function KeyOfCell(list: string, i: nat, column: string): string
  {
    list + "." + ValidationRules.Decimal(i) + "." + column
  }

  lemma CellKeysApart(list: string, i: nat, a: string, j: nat, b: string)
    ensures CellKey(list, i, a) == KeyOfCell(list, i, a)
    ensures CellKey(list, i, a) == CellKey(list, j, b) <==> i == j && a == b
  {
    if CellKey(list, i, a) == CellKey(list, j, b) {
      var s, t := ValidationRules.Decimal(i), ValidationRules.Decimal(j);
      var n := |list + "."|;
      assert CellKey(list, i, a)[n..] == s + "." + a;
      assert CellKey(list, j, b)[n..] == t + "." + b;
      ValidationProof.DecimalIndexes(i);
      ValidationProof.DecimalIndexes(j);
      Texts.SplitPrefix(s, a, '.');
      Texts.SplitPrefix(t, b, '.');
      assert s == Texts.Split(s + "." + a, '.')[0] == Texts.Split(t + "." + b, '.')[0] == t;
      assert a == (s + "." + a)[|s| + 1..] == (t + "." + b)[|t| + 1..] == b;
    }
  }

  lemma {:induction false} ItemErrors(field: Field, item: Value, i: nat, columns: seq<Column>, errors: Errors, env: Env,
      j: nat, c: nat)
    requires ColumnsApart(columns) && c < |columns|
    ensures var p := if i == j then CellProblem(item, columns[c], env) else None;
      var key := CellKey(field.key, j, columns[c].key);
      Error(ItemProblems(field, item, i, columns, errors, env), key) == if p.Some? then p else Error(errors, key)
    decreases |columns|
  {
    hide CellProblem, CellKey;
    var last, init := columns[|columns| - 1], columns[..|columns| - 1];
    CellKeysApart(field.key, j, columns[c].key, i, last.key);
    if c < |init| {
      ItemErrors(field, item, i, init, errors, env, j, c);
    } else {
      OthersKept(field, item, i, init, errors, env, j, last);
    }
  }

  lemma {:induction false} OthersKept(field: Field, item: Value, i: nat, columns: seq<Column>, errors: Errors, env: Env,
      j: nat, column: Column)
    requires forall k :: 0 <= k < |columns| ==> columns[k].key != column.key
    ensures var key := CellKey(field.key, j, column.key);
      Error(ItemProblems(field, item, i, columns, errors, env), key) == Error(errors, key)
    decreases |columns|
  {
    hide CellProblem, CellKey;
    if columns != [] {
      CellKeysApart(field.key, j, column.key, i, columns[|columns| - 1].key);
      OthersKept(field, item, i, columns[..|columns| - 1], errors, env, j, column);
    }
  }

  lemma {:induction false} ItemsErrors(field: Field, items: seq<Value>, n: nat, errors: Errors, env: Env, j: nat,
      c: nat)
    requires n <= |items| && ColumnsApart(field.columns) && c < |field.columns|
    ensures var p := if j < n then CellProblem(items[j], field.columns[c], env) else None;
      var key := CellKey(field.key, j, field.columns[c].key);
      Error(ItemsProblems(field, items, n, errors, env), key) == if p.Some? then p else Error(errors, key)
    decreases n
  {
    hide CellProblem, CellKey, ItemProblems;
    if n > 0 {
      ItemsErrors(field, items, n - 1, errors, env, j, c);
      ItemErrors(field, items[n - 1], n - 1, field.columns, ItemsProblems(field, items, n - 1, errors, env), env, j, c);
    }
  }

  /**
   * A list adds to the errors, under the key of each cell of each item, what is wrong in that cell, and leaves what
   * stood there if nothing is.
   */
  lemma CellErrorsExactly(field: Field, required: bool, value: Value, errors: Errors, env: Env, items: seq<Value>,
      j: nat, c: nat)
    requires ListOf(env.h, value, items) && ColumnsApart(field.columns) && j < |items| && c < |field.columns|
    requires KeyOfCell(field.key, j, field.columns[c].key) != field.key
    ensures var key := KeyOfCell(field.key, j, field.columns[c].key);
      var after := Error(ListProblems(field, required, value, errors, env), key);
      exists p :: CellWrong(items[j], field.columns[c], env, p) && after == if p.Some? then p else Error(errors, key)
  {
    ListExactly(env.h, value);
    CellKeysApart(field.key, j, field.columns[c].key, j, field.columns[c].key);
    CellExactly(items[j], field.columns[c], env);
    hide CellProblem, CellKey, ItemsProblems, CellWrong, ListProblem;
    ItemsErrors(field, items, |items|, WithProblem(errors, field.key, ListProblem(field, required, value, env)), env,
        j, c);
  }

  // ---- validations ----------------------------------------------------------------------------

  /** In an item's context `item` is the item, `index` its position, and the rest is as in the screen's context. */
  lemma ItemContext(env: Env, item: Value, index: nat, name: string)
    requires env.spare !in env.h && env.spare + 1 !in env.h
    ensures var h, context := ItemHeap(env, item, index), Ref(env.spare);
      && Own(h, context, "index") == Some(Number(index as real))
      && (item.Ref? || item.Fresh? ==> Own(h, context, "item") == Some(item))
      && (!item.Ref? && !item.Fresh? ==>
            Own(h, context, "item") == Some(Ref(env.spare + 1)) && h[env.spare + 1] == Rec([]))
      && (forall id :: id in env.h ==> id in h && h[id] == env.h[id])
      && (name != "item" && name != "index" && env.context.Ref? && env.context.id in env.h &&
          env.h[env.context.id].Rec? ==>
            Own(h, context, name) == Own(env.h, env.context, name))
  {
    var first := [("item", if IsObject(item) then item else Ref(env.spare + 1)), ("index", Number(index as real))];
    assert ItemHeap(env, item, index)[env.spare] == Rec(first + ContextFields(env));
    PutFirst(first[0], first[1], ContextFields(env), "item");
    PutFirst(first[0], first[1], ContextFields(env), "index");
    PutFirst(first[0], first[1], ContextFields(env), name);
    hide Values.Field;
  }

  lemma PutFirst(a: (string, Value), b: (string, Value), rest: seq<(string, Value)>, name: string)
    ensures Values.Field([a, b] + rest, name) ==
      if name == a.0 then Some(a.1) else if name == b.0 then Some(b.1) else Values.Field(rest, name)
  {
    assert ([a, b] + rest)[0] == a && ([a, b] + rest)[1..] == [b] + rest;
    assert ([b] + rest)[0] == b && ([b] + rest)[1..] == rest;
  }

  /** A validation of items is broken by one where its `when` holds and its rule does not. */
  lemma ItemBreaksExactly(v: Validation, env: Env, item: Value, index: nat)
    ensures var h := ItemHeap(env, item, index);
      ItemBreaks(v, env, item, index) <==>
        (NoText(v.when) || IsTrue(v.when.value, h, Ref(env.spare), env.host))
        && Inked(v.rule) && !IsTrue(v.rule, h, Ref(env.spare), env.host)
  {
    ConditionExactly(v.when, ItemHeap(env, item, index), Ref(env.spare), env.host, true);
    ConditionExactly(Some(v.rule), ItemHeap(env, item, index), Ref(env.spare), env.host, true);
    hide EvaluateCondition, IsTrue, ItemHeap;
  }

  /** A validation of the whole step is broken. */
  ghost predicate StepBroken(v: Validation, env: Env)
  {
    && (v.each == None || v.each == Some("")) && (v.field == None || v.field == Some(""))
    && (NoText(v.when) || IsTrue(v.when.value, env.h, env.context, env.host))
    && Inked(v.rule) && !IsTrue(v.rule, env.h, env.context, env.host)
  }

  ghost function Messages(vs: seq<Validation>, env: Env): seq<string>
  {
    if vs == [] then []
    else Messages(vs[..|vs| - 1], env) + if StepBroken(vs[|vs| - 1], env) then [vs[|vs| - 1].message] else []
  }

  lemma {:induction false} StepErrors(s: State, vs: seq<Validation>, lists: map<string, Field>, env: Env)
    ensures AfterValidations(s, vs, lists, env).formErrors == s.formErrors + Messages(vs, env)
    decreases |vs|
  {
    hide EvaluateCondition, IsTrue, ValidatedItems, Unless;
    if vs == [] {
      assert s.formErrors + [] == s.formErrors;
    } else {
      var last := vs[|vs| - 1];
      StepErrors(s, vs[..|vs| - 1], lists, env);
      ConditionExactly(last.when, env.h, env.context, env.host, true);
      ConditionExactly(Some(last.rule), env.h, env.context, env.host, true);
    }
  }

  lemma {:induction false} FieldsAddNone(p: Progress, fields: seq<Field>, sectionVisible: bool, env: Env)
    ensures AfterFields(p, fields, sectionVisible, env).state.formErrors == p.state.formErrors
    decreases |fields|
  {
    hide FieldStateOf, ListProblems, FieldProblem;
    if fields != [] { FieldsAddNone(p, fields[..|fields| - 1], sectionVisible, env); }
  }

  lemma {:induction false} SectionsAddNone(sections: seq<Section>, env: Env)
    ensures AfterSections(sections, env).state.formErrors == []
    decreases |sections|
  {
    hide AfterFields, SectionVisible;
    if sections != [] {
      var last, before := sections[|sections| - 1], AfterSections(sections[..|sections| - 1], env);
      var visible := SectionVisible(last, env);
      SectionsAddNone(sections[..|sections| - 1], env);
      FieldsAddNone(before.(state := before.state.(sections := before.state.sections + [visible])), last.fields,
          visible, env);
    }
  }

  /**
   * The errors of the step are the messages of the broken validations that name neither a field nor a list, in order.
   */
  lemma StepErrorsExactly(screen: Screen, env: Env)
    ensures Evaluated(screen, env).formErrors == Messages(screen.validations, env)
  {
    hide AfterSections, AfterValidations, Messages;
    var p := AfterSections(screen.sections, env);
    SectionsAddNone(screen.sections, env);
    StepErrors(p.state, screen.validations, p.lists, env);
    assert [] + Messages(screen.validations, env) == Messages(screen.validations, env);
  }
}
