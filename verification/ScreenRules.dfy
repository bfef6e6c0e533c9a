/** How a screen behaves for a quote: what is shown, what is required, and what is wrong. */
module ScreenRules {
  import opened Options
  import opened Values
  import opened Evaluator
  import Compiler
  import Lexer
  import Texts
  import ValidationRules

  datatype DataType = TextType | IntType | NumberType | BoolType | EnumType | DateType | ListType

  datatype Column = Column(key: string, dataType: DataType, required: bool, options: Option<seq<Value>>)

  datatype Field = Field(
    key: string, path: string, dataType: DataType, checkbox: bool, required: bool, options: Option<seq<Value>>,
    columns: seq<Column>, minItems: nat, maxItems: Option<nat>, visibleWhen: Option<string>,
        requiredWhen: Option<string>)

  datatype Section = Section(visibleWhen: Option<string>, fields: seq<Field>)

  datatype Validation = Validation(rule: string, message: string, field: Option<string>, when: Option<string>,
      each: Option<string>)

  datatype Screen = Screen(sections: seq<Section>, validations: seq<Validation>)

  datatype Problem =
    | NotANumber | NotWhole | NotAnOption | NotYesNo | NotADate
    | Missing | NotAList | TooFew(minimum: nat) | TooMany(maximum: nat)
    | Broken(message: string)

  datatype FieldState = FieldState(visible: bool, required: bool)

  datatype State = State(sections: seq<bool>,
      fields: map<string, FieldState>, errors: map<string, Problem>, formErrors: seq<string>)

  /** `Number(v)` and `String(v)` of the runtime. */
  datatype Conversions = Conversions(number: Value -> Option<real>, text: Value -> string)

  /** The quote, the context that conditions read, and two node numbers that the graph does not use. */
  datatype Env = Env(h: Heap, quote: Value, context: Value, host: Host, conversions: Conversions, spare: nat)

  // ---- values -------------------------------------------------------------------------------------------

  predicate Blank(v: Value) { v.Null? || v.Undefined? || (v.Text? && Texts.IsBlankText(v.text)) }

  function FollowPath(h: Heap, v: Value, keys: seq<string>): Value
    decreases |keys|
  {
    if keys == [] then v else FollowPath(h, OrElse(Own(h, v, keys[0]), Undefined), keys[1..])
  }

  function GetQuoteValue(h: Heap, quote: Value, path: string): Value
  {
    FollowPath(h, quote, ValidationRules.NonEmpty(Texts.Split(path, '.')))
  }

  predicate DateShaped(s: string)
  {
    |s| == 10 && forall i :: 0 <= i < 10 ==> if i == 4 || i == 7 then s[i] == '-' else Lexer.IsDigit(s[i])
  }

  function ValueProblem(dataType: DataType, options: Option<seq<Value>>, v: Value, c: Conversions): Option<Problem>
  {
    var numeric := if v.Number? then Some(v.number) else c.number(v);
    if dataType in {IntType, NumberType} && numeric.None? then Some(NotANumber)
    else if dataType == IntType && numeric.value.Floor as real != numeric.value then Some(NotWhole)
    else if dataType == EnumType && options.Some? && options.value != [] && !(exists i ::
        0 <= i < |options.value| && c.text(options.value[i]) == c.text(v))
      then Some(NotAnOption)
    else if dataType == BoolType && !v.Bool? && v != Text("true") && v != Text("false") then Some(NotYesNo)
    else if dataType == DateType && !DateShaped(c.text(v)) then Some(NotADate)
    else None
  }

  /** A blank condition is the given default; a broken one is false. */
  predicate EvaluateCondition(source: Option<string>, h: Heap, context: Value, host: Host, whenBlank: bool)
  {
    if source.None? || Texts.IsBlankText(source.value) then whenBlank
    else
      match Compiler.CompileSource(source.value)
      case Bad(_) => false
      case Good(e) => IsTruthy(h, Run(e.root, h, context, host))
  }

  predicate Condition(source: Option<string>, env: Env, whenBlank: bool) {
    EvaluateCondition(source, env.h, env.context, env.host, whenBlank)
  }

  // ---- fields ---------------------------------------------------------------------------------------------

  type Errors = map<string, Problem>

  function WithProblem(errors: Errors, key: string, problem: Option<Problem>): Errors {
    if problem.Some? then errors[key := problem.value] else errors
  }

  predicate SectionVisible(section: Section, env: Env) { Condition(section.visibleWhen, env, true) }

  function FieldStateOf(field: Field, sectionVisible: bool, env: Env): FieldState
  {
    var visible := sectionVisible && Condition(field.visibleWhen, env, true);
    FieldState(visible, visible && (field.required || Condition(field.requiredWhen, env, false)))
  }

  /** What is wrong with a visible field that is no list. An unticked checkbox is an answer. */
  function FieldProblem(field: Field, required: bool, value: Value, env: Env): Option<Problem>
  {
    if Blank(value) then if required && !field.checkbox then Some(Missing) else None
    else ValueProblem(field.dataType, field.options, value, env.conversions)
  }

  /** What is wrong with a list as a whole. */
  function ListProblem(field: Field, required: bool, value: Value, env: Env): Option<Problem>
  {
    if !value.Undefined? && !value.Null? && !IsArray(env.h, value) then Some(NotAList)
    else
      var count := |ItemsOf(value, env)|;
      var minimum := if required && field.minItems < 1 then 1 else field.minItems;
      if count < minimum then Some(TooFew(minimum))
      else if field.maxItems.Some? && count > field.maxItems.value then Some(TooMany(field.maxItems.value))
      else None
  }

  function ItemsOf(value: Value, env: Env): seq<Value> {
    if IsArray(env.h, value) then Elements(env.h, value).value else []
  }

  function Cell(item: Value, column: Column, env: Env): Value {
    if IsObject(item) then OrElse(Own(env.h, item, column.key), Undefined) else Undefined
  }

  function CellProblem(item: Value, column: Column, env: Env): Option<Problem>
  {
    var cell := Cell(item, column, env);
    if Blank(cell) then if column.required && column.dataType != BoolType then Some(Missing) else None
    else ValueProblem(column.dataType, column.options, cell, env.conversions)
  }

  function ItemKey(list: string, index: nat): string { list + "." + ValidationRules.Decimal(index) }

  function CellKey(list: string, index: nat, column: string): string { ItemKey(list, index) + "." + column }

  function ItemProblems(field: Field, item: Value, index: nat, columns: seq<Column>, errors: Errors, env: Env): Errors
  {
    if columns == [] then errors
    else
      var last := columns[|columns| - 1];
      WithProblem(ItemProblems(field, item, index, columns[..|columns| - 1], errors, env),
          CellKey(field.key, index, last.key), CellProblem(item, last, env))
  }

  /** The problems of the first n items. */
  function ItemsProblems(field: Field, items: seq<Value>, n: nat, errors: Errors, env: Env): Errors
    requires n <= |items|
  {
    if n == 0 then errors
    else ItemProblems(field, items[n - 1], n - 1, field.columns, ItemsProblems(field, items, n - 1, errors, env), env)
  }

  function ListProblems(field: Field, required: bool, value: Value, errors: Errors, env: Env): Errors
  {
    ItemsProblems(field, ItemsOf(value, env), |ItemsOf(value, env)|,
        WithProblem(errors, field.key, ListProblem(field, required, value, env)), env)
  }

  /** The state so far, and the visible list fields by key. */
  datatype Progress = Progress(state: State, lists: map<string, Field>)

  function AfterField(p: Progress, field: Field, sectionVisible: bool, env: Env): Progress
  {
    var fs := FieldStateOf(field, sectionVisible, env);
    var s := p.state.(fields := p.state.fields[field.key := fs]);
    var value := GetQuoteValue(env.h, env.quote, field.path);
    if !fs.visible then p.(state := s)
    else if field.dataType == ListType then
      Progress(s.(errors := ListProblems(field, fs.required, value, s.errors, env)), p.lists[field.key := field])
    else p.(state := s.(errors := WithProblem(s.errors, field.key, FieldProblem(field, fs.required, value, env))))
  }

  function AfterFields(p: Progress, fields: seq<Field>, sectionVisible: bool, env: Env): Progress
  {
    if fields == [] then p
    else
      AfterField(AfterFields(p, fields[..|fields| - 1], sectionVisible, env), fields[|fields| - 1], sectionVisible, env)
  }

  function AfterSections(sections: seq<Section>, env: Env): Progress
  {
    if sections == [] then Progress(State([], map[], map[], []), map[])
    else
      var last := sections[|sections| - 1];
      var before := AfterSections(sections[..|sections| - 1], env);
      var visible := SectionVisible(last, env);
      AfterFields(before.(state := before.state.(sections := before.state.sections + [visible])), last.fields,
          visible, env)
  }

  // ---- validations ------------------------------------------------------------------------------------------

  /** An empty message counts as no error yet. */
  predicate HasError(errors: Errors, key: string) { key in errors && errors[key] != Broken("") }

  function Unless(errors: Errors, key: string, message: string): Errors {
    if HasError(errors, key) then errors else errors[key := Broken(message)]
  }

  /** An empty name counts as none. */
  function Named(s: Option<string>): Option<string> { if s == Some("") then None else s }

  function ContextFields(env: Env): seq<(string, Value)>
  {
    if env.context.Ref? && env.context.id in env.h && env.h[env.context.id].Rec? then env.h[env.context.id].fields
    else []
  }

  /** The graph with a context that names an item and its index on top of the screen's own names. */
  function ItemHeap(env: Env, item: Value, index: nat): Heap
  {
    var named := if IsObject(item) then item else Ref(env.spare + 1);
    env.h[env.spare +
        1 := Rec([])][env.spare := Rec([("item", named), ("index", Number(index as real))] + ContextFields(env))]
  }

  predicate ItemBreaks(v: Validation, env: Env, item: Value, index: nat)
  {
    var h := ItemHeap(env, item, index);
    && EvaluateCondition(v.when, h, Ref(env.spare), env.host, true)
    && !EvaluateCondition(Some(v.rule), h, Ref(env.spare), env.host, true)
  }

  function ValidatedItems(v: Validation, list: string, items: seq<Value>, n: nat, errors: Errors, env: Env): Errors
    requires n <= |items|
  {
    if n == 0 then errors
    else
      var before := ValidatedItems(v, list, items, n - 1, errors, env);
      var key := if Named(v.field).Some? then CellKey(list, n - 1, v.field.value) else ItemKey(list, n - 1);
      if ItemBreaks(v, env, items[n - 1], n - 1) then Unless(before, key, v.message) else before
  }

  function AfterValidation(s: State, v: Validation, lists: map<string, Field>, env: Env): State
  {
    if Named(v.each).Some? then
      var list := v.each.value;
      if list !in lists then s
      else
        var items := ItemsOf(GetQuoteValue(env.h, env.quote, lists[list].path), env);
        s.(errors := ValidatedItems(v, list, items, |items|, s.errors, env))
    else if !Condition(v.when, env, true) || Condition(Some(v.rule), env, true) then s
    else if Named(v.field).None? then s.(formErrors := s.formErrors + [v.message])
    else if v.field.value in s.fields && s.fields[v.field.value].visible then
        s.(errors := Unless(s.errors, v.field.value, v.message))
    else s
  }

  function AfterValidations(s: State, vs: seq<Validation>, lists: map<string, Field>, env: Env): State
  {
    if vs == [] then s else AfterValidation(AfterValidations(s, vs[..|vs| - 1], lists, env), vs[|vs| - 1], lists, env)
  }

  function Evaluated(screen: Screen, env: Env): State
  {
    var p := AfterSections(screen.sections, env);
    AfterValidations(p.state, screen.validations, p.lists, env)
  }

  // ---- the evaluation as it runs ------------------------------------------------------------------------------

  method EvaluateScreen(screen: Screen, env: Env) returns (state: State)
    requires env.spare !in env.h && env.spare + 1 !in env.h
    ensures state == Evaluated(screen, env)
  {
    hide Condition, AfterValidation, AfterFields, SectionVisible;
    state := State([], map[], map[], []);
    var lists: map<string, Field> := map[];
    var i := 0;
    while i < |screen.sections|
      invariant 0 <= i <= |screen.sections| && Progress(state, lists) == AfterSections(screen.sections[..i], env)
    {
      var section := screen.sections[i];
      assert screen.sections[..i + 1][..i] == screen.sections[..i];
      var visible := SectionVisible(section, env);
      state := state.(sections := state.sections + [visible]);
      state, lists := EvaluateFields(state, lists, section.fields, visible, env);
      i := i + 1;
    }
    assert screen.sections[..i] == screen.sections;
    var v := 0;
    ghost var entered := state;
    while v < |screen.validations|
      invariant 0 <= v <= |screen.validations| &&
                state == AfterValidations(entered, screen.validations[..v], lists, env)
    {
      assert screen.validations[..v + 1][..v] == screen.validations[..v];
      state := Validate(state, screen.validations[v], lists, env);
      v := v + 1;
    }
    assert screen.validations[..v] == screen.validations;
  }

  method EvaluateFields(s: State, ls: map<string, Field>, fields: seq<Field>, sectionVisible: bool, env: Env)
      returns (state: State, lists: map<string, Field>)
    ensures Progress(state, lists) == AfterFields(Progress(s, ls), fields, sectionVisible, env)
  {
    hide Condition, FieldProblem, GetQuoteValue, ListProblems;
    state, lists := s, ls;
    var i := 0;
    while i < |fields|
      invariant 0 <= i <= |fields| &&
                Progress(state, lists) == AfterFields(Progress(s, ls), fields[..i], sectionVisible, env)
    {
      var field := fields[i];
      assert fields[..i + 1][..i] == fields[..i];
      i := i + 1;
      var visible := sectionVisible && Condition(field.visibleWhen, env, true);
      var required := visible && (field.required || Condition(field.requiredWhen, env, false));
      state := state.(fields := state.fields[field.key := FieldState(visible, required)]);
      if !visible { continue; }
      var value := GetQuoteValue(env.h, env.quote, field.path);
      if field.dataType == ListType {
        lists := lists[field.key := field];
        var errors := CheckList(field, required, value, state.errors, env);
        state := state.(errors := errors);
        continue;
      }
      var problem := FieldProblem(field, required, value, env);
      if problem.Some? { state := state.(errors := state.errors[field.key := problem.value]); }
    }
    assert fields[..i] == fields;
  }

  method CheckList(field: Field, required: bool, value: Value, known: Errors, env: Env) returns (errors: Errors)
    ensures errors == ListProblems(field, required, value, known, env)
  {
    hide CellProblem, ListProblem, CellKey;
    errors := known;
    var problem := ListProblem(field, required, value, env);
    if problem.Some? { errors := errors[field.key := problem.value]; }
    ghost var sized := errors;
    var items := ItemsOf(value, env);
    var i := 0;
    while i < |items|
      invariant 0 <= i <= |items| && errors == ItemsProblems(field, items, i, sized, env)
    {
      ghost var before := errors;
      var j := 0;
      while j < |field.columns|
        invariant 0 <= j <= |field.columns| &&
                  errors == ItemProblems(field, items[i], i, field.columns[..j], before, env)
      {
        assert field.columns[..j + 1][..j] == field.columns[..j];
        var cell := CellProblem(items[i], field.columns[j], env);
        if cell.Some? { errors := errors[CellKey(field.key, i, field.columns[j].key) := cell.value]; }
        j := j + 1;
      }
      assert field.columns[..j] == field.columns;
      i := i + 1;
    }
  }

  method Validate(s: State, v: Validation, lists: map<string, Field>, env: Env) returns (state: State)
    ensures state == AfterValidation(s, v, lists, env)
  {
    hide Condition, ItemBreaks, GetQuoteValue, HasError;
    state := s;
    if Named(v.each).Some? {
      if v.each.value !in lists { return; }
      var items := ItemsOf(GetQuoteValue(env.h, env.quote, lists[v.each.value].path), env);
      var errors := s.errors;
      var i := 0;
      while i < |items|
        invariant 0 <= i <= |items| && errors == ValidatedItems(v, v.each.value, items, i, s.errors, env)
      {
        if ItemBreaks(v, env, items[i], i) {
          var key := if Named(v.field).Some? then CellKey(v.each.value, i, v.field.value) else ItemKey(v.each.value, i);
          if !HasError(errors, key) { errors := errors[key := Broken(v.message)]; }
        }
        i := i + 1;
      }
      return s.(errors := errors);
    }
    if !Condition(v.when, env, true) { return; }
    if Condition(Some(v.rule), env, true) { return; }
    if Named(v.field).Some? && v.field.value in s.fields && s.fields[v.field.value].visible {
      if !HasError(s.errors, v.field.value) { state := s.(errors := s.errors[v.field.value := Broken(v.message)]); }
    } else if Named(v.field).None? {
      state := s.(formErrors := s.formErrors + [v.message]);
    }
  }
}
