/** Errors belong to what is shown, and hidden sections show nothing. */
module ScreenProof {
  import opened Sequences
  import opened Options
  import opened Values
  import opened ScreenRules
  import Sources
  import Texts
  import ValidationRules

  // ---- the fields of a screen ---------------------------------------------------------------------------

  function FieldKeys(fields: seq<Field>): (keys: seq<string>)
    ensures |keys| == |fields|
  {
    seq(|fields|, i requires 0 <= i < |fields| => fields[i].key)
  }

  function Keys(sections: seq<Section>): seq<string>
  {
    if sections == [] then [] else Keys(sections[..|sections| - 1]) + FieldKeys(sections[|sections| - 1].fields)
  }

  lemma {:induction false} KeyAmong(sections: seq<Section>, i: nat, j: nat)
    requires i < |sections| && j < |sections[i].fields|
    ensures sections[i].fields[j].key in Keys(sections)
    decreases |sections|
  {
    var last := |sections| - 1;
    if i == last {
      assert FieldKeys(sections[last].fields)[j] == sections[i].fields[j].key;
    } else {
      KeyAmong(sections[..last], i, j);
    }
  }

  lemma OncePrefix<T>(a: seq<T>, b: seq<T>)
    requires Once(a + b)
    ensures Once(a) && Once(b) && forall x :: x in a ==> x !in b
  {
    var s := a + b;
    forall i, j | 0 <= i < j < |a| ensures a[i] != a[j] { assert s[i] != s[j]; }
    forall i, j | 0 <= i < j < |b| ensures b[i] != b[j] { assert s[|a| + i] != s[|a| + j]; }
    forall i, j | 0 <= i < |a| && 0 <= j < |b| ensures a[i] != b[j] { assert s[i] != s[|a| + j]; }
  }

  // ---- fields ---------------------------------------------------------------------------------------------

  /** What a stretch of fields does to the states of fields: it adds its own and keeps the rest. */
  ghost predicate Extends(before: State, after: State, fields: seq<Field>, sectionVisible: bool, env: Env)
  {
    && after.sections == before.sections && after.formErrors == before.formErrors
    && (forall key :: key in after.fields <==> key in before.fields || key in FieldKeys(fields))
    && (forall key :: key in before.fields ==> after.fields[key] == before.fields[key])
    && (forall j :: 0 <= j < |fields| ==>
        after.fields[FieldKeys(fields)[j]] == FieldStateOf(fields[j], sectionVisible, env))
  }

  lemma FieldExtends(p: Progress, field: Field, sectionVisible: bool, env: Env)
    ensures var before, after := p.state, AfterField(p, field, sectionVisible, env).state;
      && after.sections == before.sections && after.formErrors == before.formErrors
      && after.fields == before.fields[field.key := FieldStateOf(field, sectionVisible, env)]
  {
    hide FieldStateOf, FieldProblem, GetQuoteValue, ListProblems;
  }

  lemma {:induction false} FieldsExtend(p: Progress, fields: seq<Field>, sectionVisible: bool, env: Env)
    requires Once(FieldKeys(fields)) && forall key :: key in FieldKeys(fields) ==> key !in p.state.fields
    ensures Extends(p.state, AfterFields(p, fields, sectionVisible, env).state, fields, sectionVisible, env)
    decreases |fields|
  {
    hide FieldStateOf, AfterField;
    if fields != [] {
      var init, last := fields[..|fields| - 1], fields[|fields| - 1];
      assert FieldKeys(fields) == FieldKeys(init) + [last.key];
      OncePrefix(FieldKeys(init), [last.key]);
      assert last.key in [last.key];
      FieldsExtend(p, init, sectionVisible, env);
      var before := AfterFields(p, init, sectionVisible, env);
      FieldExtends(before, last, sectionVisible, env);
      assert last.key !in before.state.fields;
      forall j | 0 <= j < |fields|
        ensures AfterFields(p, fields, sectionVisible, env).state.fields[FieldKeys(fields)[j]] ==
                FieldStateOf(fields[j], sectionVisible, env)
      {
        if j < |init| { assert FieldKeys(init)[j] == FieldKeys(fields)[j]; }
      }
    }
  }

  ghost predicate Exact(sections: seq<Section>, s: State, env: Env)
  {
    && |s.sections| == |sections| &&
        (forall i :: 0 <= i < |sections| ==> s.sections[i] == SectionVisible(sections[i], env))
    && (forall key :: key in s.fields <==> key in Keys(sections))
    && (forall i, j :: 0 <= i < |sections| && 0 <= j < |sections[i].fields| ==> SlotExact(sections[i], j, s, env))
  }

  ghost predicate SlotExact(section: Section, j: nat, s: State, env: Env)
    requires j < |section.fields|
  {
    section.fields[j].key in s.fields &&
        s.fields[section.fields[j].key] == FieldStateOf(section.fields[j], SectionVisible(section, env), env)
  }

  lemma {:induction false} SectionsExact(sections: seq<Section>, env: Env)
    requires Once(Keys(sections))
    ensures Exact(sections, AfterSections(sections, env).state, env)
    decreases |sections|
  {
    hide FieldStateOf, SectionVisible, AfterFields;
    if sections != [] {
      var init, last := sections[..|sections| - 1], sections[|sections| - 1];
      OncePrefix(Keys(init), FieldKeys(last.fields));
      SectionsExact(init, env);
      var before := AfterSections(init, env);
      var visible := SectionVisible(last, env);
      var entered := before.(state := before.state.(sections := before.state.sections + [visible]));
      FieldsExtend(entered, last.fields, visible, env);
      var after := AfterFields(entered, last.fields, visible, env).state;
      forall i, j | 0 <= i < |sections| && 0 <= j < |sections[i].fields| ensures SlotExact(sections[i], j, after, env) {
        if i < |init| {
          assert SlotExact(init[i], j, before.state, env);
        } else {
          assert FieldKeys(last.fields)[j] == last.fields[j].key;
        }
      }
    }
  }

  // ---- errors ---------------------------------------------------------------------------------------------

  /** A key of the i-th item of a list, or of a column of it. */
  ghost predicate OfItem(list: string, i: nat, key: string) {
    key == ItemKey(list, i) || exists column :: key == CellKey(list, i, column)
  }

  /** The number of items the quote holds for a list field. */
  function Count(field: Field, env: Env): nat { |ItemsOf(GetQuoteValue(env.h, env.quote, field.path), env)| }

  ghost predicate OfList(lists: map<string, Field>, env: Env, key: string)
  {
    exists list, i: nat :: list in lists && i < Count(lists[list], env) && OfItem(list, i, key)
  }

  /** The key names a visible field, or an item or column of a visible list. */
  ghost predicate Shown(fields: map<string, FieldState>, lists: map<string, Field>, env: Env, key: string)
  {
    (key in fields && fields[key].visible) || OfList(lists, env, key)
  }

  ghost predicate ListsShown(fields: map<string, FieldState>, lists: map<string, Field>)
  {
    forall list :: list in lists ==>
        list in fields && fields[list].visible && lists[list].key == list && lists[list].dataType == ListType
  }

  ghost predicate AllShown(s: State, lists: map<string, Field>, env: Env)
  {
    ListsShown(s.fields, lists) && forall key :: key in s.errors ==> Shown(s.fields, lists, env, key)
  }

  lemma {:induction false} ItemProblemKeys(field: Field, item: Value, index: nat, columns: seq<Column>, errors: Errors,
      env: Env, key: string)
    ensures key in ItemProblems(field, item, index, columns, errors, env) ==>
            key in errors || OfItem(field.key, index, key)
    ensures !OfItem(field.key, index, key) && key in errors ==>
      key in ItemProblems(field, item, index, columns, errors, env) &&
          ItemProblems(field, item, index, columns, errors, env)[key] == errors[key]
    decreases |columns|
  {
    hide CellProblem, CellKey;
    if columns != [] {
      ItemProblemKeys(field, item, index, columns[..|columns| - 1], errors, env, key);
      assert OfItem(field.key, index, CellKey(field.key, index, columns[|columns| - 1].key));
    }
  }

  lemma {:induction false} ItemsProblemKeys(field: Field, items: seq<Value>, n: nat, errors: Errors, env: Env,
      key: string)
    requires n <= |items|
    ensures key in ItemsProblems(field, items, n, errors, env) ==>
            key in errors || exists i: nat :: i < n && OfItem(field.key, i, key)
    ensures (forall i: nat :: i < n ==> !OfItem(field.key, i, key)) && key in errors ==>
      key in ItemsProblems(field, items, n, errors, env) &&
          ItemsProblems(field, items, n, errors, env)[key] == errors[key]
    decreases n
  {
    hide ItemProblems, OfItem;
    if n > 0 {
      ItemsProblemKeys(field, items, n - 1, errors, env, key);
      ItemProblemKeys(field, items[n - 1], n - 1, field.columns, ItemsProblems(field, items, n - 1, errors, env),
          env, key);
    }
  }

  lemma FieldShown(p: Progress, field: Field, sectionVisible: bool, env: Env)
    requires AllShown(p.state, p.lists, env) && field.key !in p.state.fields
    ensures AllShown(AfterField(p, field, sectionVisible, env).state,
            AfterField(p, field, sectionVisible, env).lists, env)
  {
    hide FieldStateOf, FieldProblem, GetQuoteValue, ListProblem, ItemsProblems, OfItem;
    var after := AfterField(p, field, sectionVisible, env);
    var value := GetQuoteValue(env.h, env.quote, field.path);
    forall key | key in after.state.errors ensures Shown(after.state.fields, after.lists, env, key) {
      if key in p.state.errors {
        assert Shown(p.state.fields, p.lists, env, key);
        if OfList(p.lists, env, key) {
          var list, i: nat :| list in p.lists && i < Count(p.lists[list], env) && OfItem(list, i, key);
          assert after.lists[list] == p.lists[list];
        }
      } else if field.dataType == ListType {
        var fs := FieldStateOf(field, sectionVisible, env);
        var sized := WithProblem(p.state.errors, field.key, ListProblem(field, fs.required, value, env));
        ItemsProblemKeys(field, ItemsOf(value, env), |ItemsOf(value, env)|, sized, env, key);
        if key != field.key {
          var i: nat :| i < |ItemsOf(value, env)| && OfItem(field.key, i, key);
          assert after.lists[field.key] == field && i < Count(field, env);
        }
      }
    }
  }

  lemma {:induction false} FieldsShown(p: Progress, fields: seq<Field>, sectionVisible: bool, env: Env)
    requires AllShown(p.state, p.lists, env)
    requires Once(FieldKeys(fields)) && forall key :: key in FieldKeys(fields) ==> key !in p.state.fields
    ensures AllShown(AfterFields(p, fields, sectionVisible, env).state,
            AfterFields(p, fields, sectionVisible, env).lists, env)
    decreases |fields|
  {
    hide AfterField, AllShown;
    if fields != [] {
      var init, last := fields[..|fields| - 1], fields[|fields| - 1];
      assert FieldKeys(fields) == FieldKeys(init) + [last.key];
      OncePrefix(FieldKeys(init), [last.key]);
      assert last.key in [last.key];
      FieldsShown(p, init, sectionVisible, env);
      FieldsExtend(p, init, sectionVisible, env);
      FieldShown(AfterFields(p, init, sectionVisible, env), last, sectionVisible, env);
    }
  }

  lemma {:induction false} SectionsShown(sections: seq<Section>, env: Env)
    requires Once(Keys(sections))
    ensures AllShown(AfterSections(sections, env).state, AfterSections(sections, env).lists, env)
    decreases |sections|
  {
    hide FieldStateOf, SectionVisible, AfterFields, Shown;
    if sections != [] {
      var init, last := sections[..|sections| - 1], sections[|sections| - 1];
      OncePrefix(Keys(init), FieldKeys(last.fields));
      SectionsShown(init, env);
      SectionsExact(init, env);
      var before := AfterSections(init, env);
      var visible := SectionVisible(last, env);
      var entered := before.(state := before.state.(sections := before.state.sections + [visible]));
      assert forall key :: key in FieldKeys(last.fields) ==> key !in Keys(init);
      FieldsShown(entered, last.fields, visible, env);
    }
  }

  // ---- validations ------------------------------------------------------------------------------------------

  lemma {:induction false} ValidatedItemsKeep(v: Validation, list: string, items: seq<Value>, n: nat, errors: Errors,
      env: Env, key: string)
    requires n <= |items|
    ensures HasError(errors, key) ==>
      key in ValidatedItems(v, list, items, n, errors, env) &&
          ValidatedItems(v, list, items, n, errors, env)[key] == errors[key]
    ensures key in ValidatedItems(v, list, items, n, errors, env) ==>
            key in errors || exists i: nat :: i < n && OfItem(list, i, key)
    decreases n
  {
    hide ItemBreaks, CellKey, ItemKey;
    if n > 0 {
      ValidatedItemsKeep(v, list, items, n - 1, errors, env, key);
      assert Named(v.field).Some? ==> OfItem(list, n - 1, CellKey(list, n - 1, v.field.value));
      assert OfItem(list, n - 1, ItemKey(list, n - 1));
    }
  }

  lemma ValidationKeeps(s: State, v: Validation, lists: map<string, Field>, env: Env, key: string)
    ensures AfterValidation(s, v, lists, env).fields == s.fields &&
            AfterValidation(s, v, lists, env).sections == s.sections
    ensures HasError(s.errors, key) ==>
      key in AfterValidation(s, v, lists, env).errors && AfterValidation(s, v, lists, env).errors[key] == s.errors[key]
    ensures AllShown(s, lists, env) && key in AfterValidation(s, v, lists, env).errors ==>
            Shown(s.fields, lists, env, key)
  {
    hide Condition, ValidatedItems, GetQuoteValue, OfItem;
    if Named(v.each).Some? && v.each.value in lists {
      var list := v.each.value;
      var items := ItemsOf(GetQuoteValue(env.h, env.quote, lists[list].path), env);
      ValidatedItemsKeep(v, list, items, |items|, s.errors, env, key);
      if AllShown(s, lists, env) && key in AfterValidation(s, v, lists, env).errors && key !in s.errors {
        var i: nat :| i < |items| && OfItem(list, i, key);
        assert i < Count(lists[list], env);
        assert OfList(lists, env, key);
      }
    }
  }

  lemma {:induction false} ValidationsKeep(s: State, vs: seq<Validation>, lists: map<string, Field>, env: Env,
      key: string)
    requires AllShown(s, lists, env)
    ensures AfterValidations(s, vs, lists, env).fields == s.fields &&
            AfterValidations(s, vs, lists, env).sections == s.sections
    ensures HasError(s.errors, key) ==>
      key in AfterValidations(s, vs, lists, env).errors &&
          AfterValidations(s, vs, lists, env).errors[key] == s.errors[key]
    ensures key in AfterValidations(s, vs, lists, env).errors ==> Shown(s.fields, lists, env, key)
    decreases |vs|
  {
    hide AfterValidation, Shown;
    if vs != [] {
      var init := vs[..|vs| - 1];
      var before := AfterValidations(s, init, lists, env);
      ValidationsKeep(s, init, lists, env, key);
      forall other | other in before.errors ensures Shown(before.fields, lists, env, other) {
        ValidationsKeep(s, init, lists, env, other);
      }
      ValidationKeeps(before, vs[|vs| - 1], lists, env, key);
    }
  }

  // ---- main results -------------------------------------------------------------------------------------------

  /**
   * With distinct field keys every error is on a visible field, or on an item or a column of a visible list that the
   * quote holds.
   */
  lemma ErrorsAreShown(screen: Screen, env: Env, key: string)
    requires Once(Keys(screen.sections)) && key in Evaluated(screen, env).errors
    ensures Shown(Evaluated(screen, env).fields, AfterSections(screen.sections, env).lists, env, key)
    ensures ListsShown(Evaluated(screen, env).fields, AfterSections(screen.sections, env).lists)
  {
    hide AfterSections, AfterValidations, Shown;
    var p := AfterSections(screen.sections, env);
    SectionsShown(screen.sections, env);
    ValidationsKeep(p.state, screen.validations, p.lists, env, key);
  }

  /**
   * Every field is in the state its conditions say; in a hidden section none is visible, and none is required unless
   * visible.
   */
  lemma FieldsAreExact(screen: Screen, env: Env, i: nat, j: nat)
    requires Once(Keys(screen.sections)) && i < |screen.sections| && j < |screen.sections[i].fields|
    ensures var s, field := Evaluated(screen, env), screen.sections[i].fields[j];
      && field.key in s.fields && |s.sections| == |screen.sections| &&
          s.sections[i] == SectionVisible(screen.sections[i], env)
      && (s.fields[field.key].visible <==> s.sections[i] && Condition(field.visibleWhen, env, true))
      && (s.fields[field.key].required <==>
          s.fields[field.key].visible && (field.required || Condition(field.requiredWhen, env, false)))
  {
    hide AfterSections, AfterValidations, Shown;
    var p := AfterSections(screen.sections, env);
    SectionsShown(screen.sections, env);
    SectionsExact(screen.sections, env);
    ValidationsKeep(p.state, screen.validations, p.lists, env, "");
    assert SlotExact(screen.sections[i], j, p.state, env);
  }

  function ErrorOf(errors: Errors, key: string): Option<Problem> { if key in errors then Some(errors[key]) else None }

  // ---- what becomes of a standing error --------------------------------------------------------------------

  lemma {:induction false} ErrorsKept(s: State, vs: seq<Validation>, lists: map<string, Field>, env: Env, key: string)
    requires HasError(s.errors, key)
    ensures key in AfterValidations(s, vs, lists, env).errors &&
            AfterValidations(s, vs, lists, env).errors[key] == s.errors[key]
    decreases |vs|
  {
    hide AfterValidation;
    if vs != [] {
      ErrorsKept(s, vs[..|vs| - 1], lists, env, key);
      ValidationKeeps(AfterValidations(s, vs[..|vs| - 1], lists, env), vs[|vs| - 1], lists, env, key);
    }
  }

  lemma {:induction false} ValidationsInTwo(s: State, a: seq<Validation>, b: seq<Validation>, lists: map<string, Field>,
      env: Env)
    ensures AfterValidations(s, a + b, lists, env) ==
            AfterValidations(AfterValidations(s, a, lists, env), b, lists, env)
    decreases |b|
  {
    hide AfterValidation;
    if b == [] {
      assert a + b == a;
    } else {
      assert (a + b)[..|a + b| - 1] == a + b[..|b| - 1];
      ValidationsInTwo(s, a, b[..|b| - 1], lists, env);
    }
  }

  function KeyOf(v: Validation, list: string, i: nat): string
  {
    if Named(v.field).Some? then CellKey(list, i, v.field.value) else ItemKey(list, i)
  }

  ghost predicate BreaksItem(v: Validation, list: string, items: seq<Value>, n: nat, env: Env, key: string)
    requires n <= |items|
  {
    exists i: nat :: i < n && ItemBreaks(v, env, items[i], i) && key == KeyOf(v, list, i)
  }

  /** The validation is broken on this key. */
  ghost predicate Breaks(v: Validation, fields: map<string, FieldState>, lists: map<string, Field>, env: Env,
      key: string)
  {
    if Named(v.each).Some? then
      v.each.value in lists
      && var items := ItemsOf(GetQuoteValue(env.h, env.quote, lists[v.each.value].path), env);
         BreaksItem(v, v.each.value, items, |items|, env, key)
    else
      Condition(v.when, env, true) && !Condition(Some(v.rule), env, true)
      && Named(v.field) == Some(key) && key in fields && fields[key].visible
  }

  /**
   * What stands on a key after a validation: what stood there, unless that is nothing or an empty message and the
   * validation breaks.
   */
  function Standing(stood: Option<Problem>, breaks: bool, message: string): Option<Problem>
  {
    if breaks && (stood.None? || stood == Some(Broken(""))) then Some(Broken(message)) else stood
  }

  lemma {:induction false} ItemsStanding(v: Validation, list: string, items: seq<Value>, n: nat, errors: Errors,
      env: Env, key: string)
    requires n <= |items|
    ensures ErrorOf(ValidatedItems(v, list, items, n, errors, env), key)
      == Standing(ErrorOf(errors, key), BreaksItem(v, list, items, n, env, key), v.message)
    decreases n
  {
    hide ItemBreaks, CellKey, ItemKey;
    if n > 0 {
      ItemsStanding(v, list, items, n - 1, errors, env, key);
      assert BreaksItem(v, list, items, n, env, key)
        <==> (BreaksItem(v, list, items, n - 1, env, key)
              || (ItemBreaks(v, env, items[n - 1], n - 1) && key == KeyOf(v, list, n - 1)));
    }
  }

  lemma ValidationStanding(s: State, v: Validation, lists: map<string, Field>, env: Env, key: string)
    ensures ErrorOf(AfterValidation(s, v, lists, env).errors, key)
      == Standing(ErrorOf(s.errors, key), Breaks(v, s.fields, lists, env, key), v.message)
  {
    hide Condition, ValidatedItems, GetQuoteValue, BreaksItem;
    if Named(v.each).Some? && v.each.value in lists {
      var items := ItemsOf(GetQuoteValue(env.h, env.quote, lists[v.each.value].path), env);
      ItemsStanding(v, v.each.value, items, |items|, s.errors, env, key);
    }
  }

  /** An empty message comes from a validation that is broken on its key. */
  lemma {:induction false} EmptyComesFrom(s: State, vs: seq<Validation>, lists: map<string, Field>, env: Env,
      key: string) returns (m: nat)
    requires ErrorOf(s.errors, key) != Some(Broken("")) &&
             ErrorOf(AfterValidations(s, vs, lists, env).errors, key) == Some(Broken(""))
    ensures m < |vs| && Breaks(vs[m], s.fields, lists, env, key)
    decreases |vs|
  {
    hide AfterValidation, Breaks;
    var init, last := vs[..|vs| - 1], vs[|vs| - 1];
    var before := AfterValidations(s, init, lists, env);
    FieldsStay(s, init, lists, env);
    ValidationStanding(before, last, lists, env, key);
    if ErrorOf(before.errors, key) == Some(Broken("")) {
      m := EmptyComesFrom(s, init, lists, env, key);
    } else {
      m := |vs| - 1;
    }
  }

  lemma {:induction false} FieldsStay(s: State, vs: seq<Validation>, lists: map<string, Field>, env: Env)
    ensures AfterValidations(s, vs, lists, env).fields == s.fields
    decreases |vs|
  {
    hide AfterValidation;
    if vs != [] {
      FieldsStay(s, vs[..|vs| - 1], lists, env);
      ValidationKeeps(AfterValidations(s, vs[..|vs| - 1], lists, env), vs[|vs| - 1], lists, env, "");
    }
  }

  ghost predicate NoneBroken(errors: Errors) { forall key :: key in errors ==> !errors[key].Broken? }

  lemma {:induction false} ItemUnbroken(field: Field, item: Value, index: nat, columns: seq<Column>, errors: Errors,
      env: Env)
    requires NoneBroken(errors)
    ensures NoneBroken(ItemProblems(field, item, index, columns, errors, env))
    decreases |columns|
  {
    hide CellKey;
    if columns != [] { ItemUnbroken(field, item, index, columns[..|columns| - 1], errors, env); }
  }

  lemma {:induction false} ItemsUnbroken(field: Field, items: seq<Value>, n: nat, errors: Errors, env: Env)
    requires n <= |items| && NoneBroken(errors)
    ensures NoneBroken(ItemsProblems(field, items, n, errors, env))
    decreases n
  {
    hide ItemProblems, NoneBroken;
    if n > 0 {
      ItemsUnbroken(field, items, n - 1, errors, env);
      ItemUnbroken(field, items[n - 1], n - 1, field.columns, ItemsProblems(field, items, n - 1, errors, env), env);
    }
  }

  lemma {:induction false} FieldsUnbroken(p: Progress, fields: seq<Field>, sectionVisible: bool, env: Env)
    requires NoneBroken(p.state.errors)
    ensures NoneBroken(AfterFields(p, fields, sectionVisible, env).state.errors)
    decreases |fields|
  {
    hide FieldStateOf, GetQuoteValue, ItemsProblems;
    if fields != [] {
      var init, last := fields[..|fields| - 1], fields[|fields| - 1];
      FieldsUnbroken(p, init, sectionVisible, env);
      var before := AfterFields(p, init, sectionVisible, env);
      var fs, value := FieldStateOf(last, sectionVisible, env), GetQuoteValue(env.h, env.quote, last.path);
      var sized := WithProblem(before.state.errors, last.key, ListProblem(last, fs.required, value, env));
      assert NoneBroken(sized);
      ItemsUnbroken(last, ItemsOf(value, env), |ItemsOf(value, env)|, sized, env);
    }
  }

  lemma {:induction false} SectionsUnbroken(sections: seq<Section>, env: Env)
    ensures NoneBroken(AfterSections(sections, env).state.errors)
    decreases |sections|
  {
    hide SectionVisible, AfterFields;
    if sections != [] {
      var init, last := sections[..|sections| - 1], sections[|sections| - 1];
      SectionsUnbroken(init, env);
      var before := AfterSections(init, env);
      var visible := SectionVisible(last, env);
      FieldsUnbroken(before.(state := before.state.(sections := before.state.sections + [visible])), last.fields,
          visible, env);
    }
  }

  /** The state when the first n validations are checked. */
  function AfterFirst(screen: Screen, env: Env, n: nat): State
    requires n <= |screen.validations|
  {
    var p := AfterSections(screen.sections, env);
    AfterValidations(p.state, screen.validations[..n], p.lists, env)
  }

  /** Whatever validations come next, the error on the key stays as it is. */
  ghost predicate Lasts(s: State, lists: map<string, Field>, env: Env, key: string)
  {
    forall more :: ErrorOf(AfterValidations(s, more, lists, env).errors, key) == ErrorOf(s.errors, key)
  }

  /**
   * A validation never replaces an error already found, by a field or by an earlier validation, exactly unless what
   * stands is an empty message.
   */
  lemma StandingErrorsExactly(screen: Screen, env: Env, n: nat, key: string)
    requires n <= |screen.validations| && key in AfterFirst(screen, env, n).errors
    ensures Lasts(AfterFirst(screen, env, n), AfterSections(screen.sections, env).lists, env, key)
      <==> AfterFirst(screen, env, n).errors[key] != Broken("")
  {
    hide AfterValidation, AfterSections, Breaks;
    var p := AfterSections(screen.sections, env);
    var vs := screen.validations[..n];
    var s := AfterValidations(p.state, vs, p.lists, env);
    if HasError(s.errors, key) {
      forall more ensures ErrorOf(AfterValidations(s, more, p.lists, env).errors, key) == ErrorOf(s.errors, key) {
        ErrorsKept(s, more, p.lists, env, key);
      }
    } else {
      SectionsUnbroken(screen.sections, env);
      var m := EmptyComesFrom(p.state, vs, p.lists, env, key);
      FieldsStay(p.state, vs, p.lists, env);
      var louder := vs[m].(message := "broken");
      assert Breaks(louder, s.fields, p.lists, env, key) by {
        LouderBreaks(vs[m], "broken", s.fields, p.lists, env, key);
      }
      ValidationStanding(s, louder, p.lists, env, key);
      assert [louder][..0] == [];
      assert AfterValidations(s, [louder], p.lists, env) == AfterValidation(s, louder, p.lists, env);
    }
  }

  lemma LouderBreaks(v: Validation, message: string, fields: map<string, FieldState>, lists: map<string, Field>,
      env: Env, key: string)
    requires Breaks(v, fields, lists, env, key)
    ensures Breaks(v.(message := message), fields, lists, env, key)
  {
    hide Condition, GetQuoteValue, EvaluateCondition, CellKey, ItemKey, ItemHeap;
    if Named(v.each).Some? {
      var items := ItemsOf(GetQuoteValue(env.h, env.quote, lists[v.each.value].path), env);
      var i: nat :| i < |items| && ItemBreaks(v, env, items[i], i) && key == KeyOf(v, v.each.value, i);
      assert ItemBreaks(v.(message := message), env, items[i], i) &&
          key == KeyOf(v.(message := message), v.each.value, i);
    }
  }

  /** So every error but an empty message, once found, is in the outcome of the screen. */
  lemma ErrorsReachTheEnd(screen: Screen, env: Env, n: nat, key: string)
    requires n <= |screen.validations| && key in AfterFirst(screen, env, n).errors &&
             AfterFirst(screen, env, n).errors[key] != Broken("")
    ensures key in Evaluated(screen, env).errors &&
            Evaluated(screen, env).errors[key] == AfterFirst(screen, env, n).errors[key]
  {
    hide AfterValidation, AfterSections;
    var p := AfterSections(screen.sections, env);
    var vs := screen.validations;
    assert vs == vs[..n] + vs[n..];
    ValidationsInTwo(p.state, vs[..n], vs[n..], p.lists, env);
    ErrorsKept(AfterFirst(screen, env, n), vs[n..], p.lists, env, key);
  }

  /** A screen of one field with two validations that are always broken on it. */
  function TwiceBroken(message: string): Screen
  {
    var field := Field("a", "a", TextType, false, false, None, [], 0, None, None, None);
    Screen([Section(None, [field])],
        [Validation("false", message, Some("a"), None, None), Validation("false", "second", Some("a"), None, None)])
  }

  /** An empty message is replaced: the first validation's error stands only if it says something. */
  lemma EmptyMessageReplaced(env: Env, message: string)
    ensures "a" in AfterFirst(TwiceBroken(message), env, 1).errors &&
            AfterFirst(TwiceBroken(message), env, 1).errors["a"] == Broken(message)
    ensures "a" in Evaluated(TwiceBroken(message), env).errors
    ensures Evaluated(TwiceBroken(message), env).errors["a"] == Broken(if message == "" then "second" else message)
  {
    hide EvaluateCondition, GetQuoteValue;
    var screen := TwiceBroken(message);
    assert !Condition(Some("false"), env, true) && Condition(None, env, true) && !Condition(None, env, false) by {
      FalseBreaks(env);
    }
    var section := screen.sections[0];
    var start := Progress(State([], map[], map[], []), map[]);
    var entered := start.(state := start.state.(sections := [true]));
    assert AfterSections([], env) == start && screen.sections[..0] == [];
    assert AfterFields(entered, section.fields, true, env) == AfterField(entered, section.fields[0], true, env) by {
      assert section.fields[..0] == [];
    }
    assert SectionVisible(section, env) && start.state.sections + [true] == [true] && |screen.sections| == 1;
    var p := AfterSections(screen.sections, env);
    PlainField(entered, section.fields[0], env);
    assert p == AfterField(entered, section.fields[0], true, env);
    var v, w := screen.validations[0], screen.validations[1];
    assert screen.validations[..1] == [v] && [v][..0] == [] && [v, w][..1] == [v] && screen.validations == [v, w];
    assert AfterValidations(p.state, [v], p.lists, env) == AfterValidation(p.state, v, p.lists, env);
  }

  /** An optional text field that is always shown gives no error of its own. */
  lemma PlainField(p: Progress, field: Field, env: Env)
    requires field.dataType == TextType && !field.required && field.visibleWhen == field.requiredWhen == None
    ensures var after := AfterField(p, field, true, env);
      && after.state.errors == p.state.errors && after.lists == p.lists
      && field.key in after.state.fields && after.state.fields[field.key].visible
  {
    hide GetQuoteValue;
  }

  lemma FalseBreaks(env: Env)
    ensures !Condition(Some("false"), env, true) && Condition(None, env, true) && !Condition(None, env, false)
  {
    Sources.FalseIsFalse(env.h, env.context, env.host);
  }

  // ---- the errors of single fields ------------------------------------------------------------------------------

  lemma ItemKeysDotted(list: string, i: nat, key: string)
    requires OfItem(list, i, key)
    ensures !Texts.Lacks(key, '.')
  {
    hide ValidationRules.Decimal;
    assert ItemKey(list, i)[|list|] == '.';
    if key != ItemKey(list, i) {
      var column :| key == CellKey(list, i, column);
      assert key[|list|] == '.';
    }
  }

  /** What the evaluation of a field says about its own key. */
  function OwnError(field: Field, sectionVisible: bool, env: Env): Option<Problem>
  {
    var fs := FieldStateOf(field, sectionVisible, env);
    var value := GetQuoteValue(env.h, env.quote, field.path);
    if !fs.visible then None
    else if field.dataType == ListType then ListProblem(field, fs.required, value, env)
    else FieldProblem(field, fs.required, value, env)
  }

  lemma FieldError(p: Progress, field: Field, sectionVisible: bool, env: Env, key: string)
    requires Texts.Lacks(key, '.') && (key == field.key ==> key !in p.state.errors)
    ensures ErrorOf(AfterField(p, field, sectionVisible, env).state.errors, key) ==
      if key == field.key then OwnError(field, sectionVisible, env) else ErrorOf(p.state.errors, key)
  {
    hide FieldStateOf, FieldProblem, GetQuoteValue, ListProblem, ItemsProblems, OfItem;
    var fs := FieldStateOf(field, sectionVisible, env);
    var value := GetQuoteValue(env.h, env.quote, field.path);
    if fs.visible && field.dataType == ListType {
      var items := ItemsOf(value, env);
      forall i: nat ensures !OfItem(field.key, i, key) {
        if OfItem(field.key, i, key) { ItemKeysDotted(field.key, i, key); }
      }
      ItemsProblemKeys(field, items, |items|,
          WithProblem(p.state.errors, field.key, ListProblem(field, fs.required, value, env)), env, key);
    }
  }

  lemma {:induction false} FieldsError(p: Progress, fields: seq<Field>, sectionVisible: bool, env: Env, key: string)
    requires Texts.Lacks(key, '.') && Once(FieldKeys(fields)) && (key in FieldKeys(fields) ==> key !in p.state.errors)
    ensures key !in FieldKeys(fields) ==>
            ErrorOf(AfterFields(p, fields, sectionVisible, env).state.errors, key) == ErrorOf(p.state.errors, key)
    ensures forall j :: 0 <= j < |fields| && FieldKeys(fields)[j] == key ==>
      ErrorOf(AfterFields(p, fields, sectionVisible, env).state.errors, key) == OwnError(fields[j], sectionVisible, env)
    decreases |fields|
  {
    hide AfterField, OwnError;
    if fields != [] {
      var init, last := fields[..|fields| - 1], fields[|fields| - 1];
      assert FieldKeys(fields) == FieldKeys(init) + [last.key];
      OncePrefix(FieldKeys(init), [last.key]);
      assert last.key in [last.key];
      FieldsError(p, init, sectionVisible, env, key);
      FieldError(AfterFields(p, init, sectionVisible, env), last, sectionVisible, env, key);
      forall j | 0 <= j < |fields| && FieldKeys(fields)[j] == key
        ensures ErrorOf(AfterFields(p, fields, sectionVisible, env).state.errors, key) ==
                OwnError(fields[j], sectionVisible, env)
      {
        if j < |init| { assert FieldKeys(init)[j] == key; assert key in FieldKeys(init); }
      }
    }
  }

  lemma {:induction false} SectionsError(sections: seq<Section>, env: Env, key: string)
    requires Once(Keys(sections)) && Texts.Lacks(key, '.')
    ensures key !in Keys(sections) ==> key !in AfterSections(sections, env).state.errors
    ensures forall i, j :: 0 <= i < |sections| && 0 <= j < |sections[i].fields| && sections[i].fields[j].key == key ==>
      ErrorOf(AfterSections(sections, env).state.errors, key) ==
          OwnError(sections[i].fields[j], SectionVisible(sections[i], env), env)
    decreases |sections|
  {
    hide SectionVisible, AfterFields, OwnError;
    if sections != [] {
      var init, last := sections[..|sections| - 1], sections[|sections| - 1];
      OncePrefix(Keys(init), FieldKeys(last.fields));
      SectionsError(init, env, key);
      var before := AfterSections(init, env);
      var visible := SectionVisible(last, env);
      var entered := before.(state := before.state.(sections := before.state.sections + [visible]));
      FieldsError(entered, last.fields, visible, env, key);
      forall i, j | 0 <= i < |sections| && 0 <= j < |sections[i].fields| && sections[i].fields[j].key == key
        ensures ErrorOf(AfterSections(sections, env).state.errors, key) ==
                OwnError(sections[i].fields[j], SectionVisible(sections[i], env), env)
      {
        if i < |init| {
          assert init[i].fields[j].key == key;
          KeyAmong(init, i, j);
        } else {
          assert FieldKeys(last.fields)[j] == key;
        }
      }
    }
  }

  /**
   * With distinct field keys, a field whose key holds no dot carries exactly the problem of its own value, unless a
   * validation adds one where it has none; a hidden field carries no error at all.
   */
  lemma FieldErrorsExactly(screen: Screen, env: Env, i: nat, j: nat)
    requires Once(Keys(screen.sections)) && i < |screen.sections| && j < |screen.sections[i].fields|
    requires Texts.Lacks(screen.sections[i].fields[j].key, '.')
    ensures var s, field := Evaluated(screen, env), screen.sections[i].fields[j];
      var own := OwnError(field, SectionVisible(screen.sections[i], env), env);
      && field.key in s.fields
      && (own.Some? ==> ErrorOf(s.errors, field.key) == own)
      && (!s.fields[field.key].visible ==> field.key !in s.errors)
      && ErrorOf(AfterSections(screen.sections, env).state.errors, field.key) == own
  {
    hide AfterSections, AfterValidations, OfItem, FieldProblem, ListProblem;
    var field := screen.sections[i].fields[j];
    var p := AfterSections(screen.sections, env);
    SectionsShown(screen.sections, env);
    SectionsExact(screen.sections, env);
    SectionsError(screen.sections, env, field.key);
    assert SlotExact(screen.sections[i], j, p.state, env);
    ValidationsKeep(p.state, screen.validations, p.lists, env, field.key);
    NeverEmpty(field, SectionVisible(screen.sections[i], env), env);
    forall list, k: nat ensures !OfItem(list, k, field.key) {
      if OfItem(list, k, field.key) { ItemKeysDotted(list, k, field.key); }
    }
  }

  lemma NeverEmpty(field: Field, sectionVisible: bool, env: Env)
    ensures OwnError(field, sectionVisible, env) != Some(Broken(""))
  {
    hide FieldStateOf, GetQuoteValue;
  }
}
