/** Whether a form attaches to a policy: suppress first, then match, over the trigger rules of the form. */
module Triggers {
  import opened Options
  import opened Values
  import opened Evaluator
  import S = Syntax
  import Compiler
  import Texts
  import NonInterference
  import Snapshot
  import SnapshotAgain

  // ---- rules ----------------------------------------------------------------------------------

  datatype Flag = Absent | Is(on: bool) | Malformed

  /**
   * A trigger row after projection; `wrongTypes` says its identifier or priority is not of the type the contract names.
   */
  datatype Row = Row(
    active: Flag,
    wrongTypes: bool,
    id: Option<string>,
    kind: string,
    condition: Option<string>,
    suppress: Option<string>,
    priority: Option<real>)

  type Condition = t: S.Node | CallsChecked(t) witness S.Lit(S.LNull)

  datatype Rule = Rule(id: string, priority: real, kind: string, codes: Option<seq<string>>,
      condition: Option<Condition>, suppress: Option<Condition>)

  /** A rule with the position of its row. */
  datatype Placed = Placed(rule: Rule, index: nat)

  datatype Refusal = RowLimit | BadActiveFlag | BadRow | BadDefinition | BadContext(reason: Snapshot.Reason)

  datatype Answer<+T> = Yes(value: T) | No(refusal: Refusal)

  const MAX_ROWS: nat := 1000
  const MAX_EXPRESSION: nat := 1000
  const TRIGGER_TYPES: set<string> := {"Always", "Coverage Selected", "Threshold", "UW Rule", "Attribute-based",
      "Expression"}

  /** What rule authors may name, and the character-level checks this model takes as given. */
  datatype Policy = Policy(roots: set<string>, forbidden: string -> bool, selectorsAllowed: string -> bool,
      codes: string -> Option<seq<string>>)

  predicate PathAllowed(p: Policy, path: seq<string>)
  {
    var parts := Texts.Split(Compiler.DottedName(path), '.');
    parts[0] in p.roots && forall i :: 0 <= i < |parts| ==> !p.forbidden(parts[i])
  }

  function CompileSafe(p: Policy, source: string): Option<Condition>
  {
    if Texts.IsBlankText(source) || |source| > MAX_EXPRESSION then None
    else
      match Compiler.CompileSource(source)
      case Bad(_) => None
      case Good(e) =>
        if (forall path :: path in NonInterference.Paths(e.root) ==> PathAllowed(p, path)) && p.selectorsAllowed(source)
        then Some(e.root) else None
  }

  predicate TooLongText(s: Option<string>) { s.Some? && |s.value| > MAX_EXPRESSION }

  predicate BlankOrNone(s: Option<string>) { s.None? || Texts.IsBlankText(s.value) }

  /** The compiled parts of a definition, or nothing when any part of it is invalid. */
  function CompileDefinition(p: Policy, row: Row): Option<Rule>
  {
    var base := Rule(if row.id.Some? then row.id.value else "", if row.priority.Some? then row.priority.value
        else 0.0, row.kind, None, None, None);
    if row.kind !in TRIGGER_TYPES || TooLongText(row.condition) || TooLongText(row.suppress) then None
    else
      var codes := if row.kind == "Coverage Selected" && !BlankOrNone(row.condition) then p.codes(row.condition.value)
          else None;
      var condition := if row.kind == "Coverage Selected" || BlankOrNone(row.condition) then None
          else CompileSafe(p, row.condition.value);
      var suppress := if BlankOrNone(row.suppress) then None else CompileSafe(p, row.suppress.value);
      if row.kind == "Coverage Selected" && codes.None? then None
      else if row.kind != "Coverage Selected" && condition.None? && !(row.kind == "Always" &&
          BlankOrNone(row.condition)) then None
      else if suppress.None? && !BlankOrNone(row.suppress) then None
      else Some(base.(codes := codes, condition := condition, suppress := suppress))
  }

  /** The rule of a row: none for an inactive row, a refusal for an invalid one. */
  function RuleOf(p: Policy, row: Row): Answer<Option<Rule>>
  {
    if row.active == Is(false) then Yes(None)
    else if row.active == Malformed then No(BadActiveFlag)
    else if row.wrongTypes then No(BadRow)
    else match CompileDefinition(p, row)
      case None => No(BadDefinition)
      case Some(rule) => Yes(Some(rule))
  }

  /** The active rules of rows from `index` on, or the first refusal. */
  function Active(p: Policy, rows: seq<Row>, index: nat): Answer<seq<Placed>>
    requires index <= |rows|
    decreases |rows| - index
  {
    if index == |rows| then Yes([])
    else
      match RuleOf(p, rows[index])
      case No(r) => No(r)
      case Yes(rule) =>
        match Active(p, rows, index + 1)
        case No(r) => No(r)
        case Yes(rest) => Yes((if rule.Some? then [Placed(rule.value, index)] else []) + rest)
  }

  // ---- order ----------------------------------------------------------------------------------

  /** a comes no later than b by priority, then identifier, then position. */
  predicate NoLater(a: Placed, b: Placed)
  {
    if a.rule.priority != b.rule.priority then a.rule.priority < b.rule.priority
    else if a.rule.id != b.rule.id then Texts.Before(a.rule.id, b.rule.id)
    else a.index <= b.index
  }

  function Insert(x: Placed, s: seq<Placed>): (r: seq<Placed>)
    ensures multiset(r) == multiset(s) + multiset{x}
  {
    if s == [] || NoLater(x, s[0]) then assert [x] + s == [x] + s; [x] + s
    else
      assert s == [s[0]] + s[1..];
      [s[0]] + Insert(x, s[1..])
  }

  function Sort(s: seq<Placed>): (r: seq<Placed>)
    ensures multiset(r) == multiset(s)
  {
    if s == [] then []
    else
      assert s == [s[0]] + s[1..];
      Insert(s[0], Sort(s[1..]))
  }

  // ---- decision -------------------------------------------------------------------------------

  /** A context a rule is judged in: a graph, its root, and the runtime. */
  datatype Context = Context(heap: Heap, root: Value, host: Host)

  predicate Holds(e: Condition, c: Context) { IsTruthy(c.heap, Run(e, c.heap, c.root, c.host)) }

  predicate Suppresses(rule: Rule, c: Context) { rule.suppress.Some? && Holds(rule.suppress.value, c) }

  predicate Selected(c: Context, code: string)
  {
    var selected := OrElse(Own(c.heap, c.root, "coverageCodes"), Undefined);
    IsArray(c.heap, selected) && Text(code) in Elements(c.heap, selected).value
  }

  predicate Matches(rule: Rule, c: Context)
  {
    rule.kind == "Always"
    || (if rule.codes.Some? then exists i :: 0 <= i < |rule.codes.value| && Selected(c, rule.codes.value[i])
        else rule.condition.Some? && Holds(rule.condition.value, c))
  }

  /** Distinct texts in order of first appearance. */
  function Distinct(ids: seq<string>): (r: seq<string>)
    ensures forall id :: id in r <==> id in ids
  {
    if ids == [] then []
    else
      var last := ids[|ids| - 1];
      var before := Distinct(ids[..|ids| - 1]);
      if last in before then before else before + [last]
  }

  /** The identifiers, in order, of the rules that pass; a rule without one is left out. */
  function Ids(rules: seq<Placed>, pass: Rule -> bool): seq<string>
  {
    if rules == [] then []
    else (if pass(rules[0].rule) && rules[0].rule.id != "" then [rules[0].rule.id] else []) + Ids(rules[1..], pass)
  }

  datatype Decision = Decision(attach: bool, reason: string, matchedRuleIds: seq<string>)

  function DecideSorted(rules: seq<Placed>, c: Context): Decision
  {
    if exists i :: 0 <= i < |rules| && Suppresses(rules[i].rule, c) then
      Decision(false, "Suppression rule matched", Distinct(Ids(rules, r => Suppresses(r, c))))
    else if exists i :: 0 <= i < |rules| && Matches(rules[i].rule, c) then
      Decision(true, "Trigger rule matched", Distinct(Ids(rules, r => Matches(r, c))))
    else
      Decision(false, "No trigger rule matched", [])
  }

  const NO_RULES: Decision := Decision(true, "No active trigger rules configured", [])

  function Decide(p: Policy, rows: seq<Row>, c: Context): Answer<Decision>
  {
    if |rows| > MAX_ROWS then No(RowLimit)
    else
      match Active(p, rows, 0)
      case No(r) => No(r)
      case Yes(rules) => Yes(if rules == [] then NO_RULES else DecideSorted(Sort(rules), c))
  }

  /** `object(...)`: a record stays, anything else is read as a record without properties. */
  function AsRecord(h: Heap, v: Value): Value { if v.Ref? && v.id in h && h[v.id].Rec? then v else Null }

  /**
   * Judging rows in a caller's context: a context known to be a snapshot is used as it is, any other is copied first.
   */
  function DecideIn(p: Policy, rows: seq<Row>, c: Context, built: set<nat>, task: Snapshot.Task): Answer<Decision>
  {
    if |rows| > MAX_ROWS then No(RowLimit)
    else
      match Active(p, rows, 0)
      case No(r) => No(r)
      case Yes(rules) =>
        if rules == [] then Yes(NO_RULES)
        else if c.root.Ref? && c.root.id in built then Decide(p, rows, c)
        else match Snapshot.Snap(task, SnapshotAgain.EntryOf(c.root))
          case Rejected(why) => No(BadContext(why))
          case Copied(v, s) => Decide(p, rows, Context(s.out, AsRecord(s.out, v), c.host))
  }

  // ---- the decision as it runs ----------------------------------------------------------------

  function Resume(before: seq<Placed>, r: Answer<seq<Placed>>): Answer<seq<Placed>>
  {
    match r case No(why) => No(why) case Yes(rest) => Yes(before + rest)
  }

  lemma ResumeNothing(r: Answer<seq<Placed>>)
    ensures Resume([], r) == r
  {
    if r.Yes? { assert [] + r.value == r.value; }
  }

  lemma ActiveStep(p: Policy, rows: seq<Row>, index: nat, before: seq<Placed>)
    requires index < |rows| && RuleOf(p, rows[index]).Yes?
    ensures var rule := RuleOf(p, rows[index]).value;
            Resume(before, Active(p, rows, index)) ==
                Resume(before + (if rule.Some? then [Placed(rule.value, index)] else []), Active(p, rows, index + 1))
  {
    hide RuleOf;
    var rule := RuleOf(p, rows[index]).value;
    var one := if rule.Some? then [Placed(rule.value, index)] else [];
    if Active(p, rows, index + 1).Yes? {
      assert before + (one + Active(p, rows, index + 1).value) == before + one + Active(p, rows, index + 1).value;
    }
  }

  lemma {:induction false} IdsAppend(xs: seq<Placed>, ys: seq<Placed>, pass: Rule -> bool)
    ensures Ids(xs + ys, pass) == Ids(xs, pass) + Ids(ys, pass)
    decreases |xs|
  {
    if xs == [] {
      assert xs + ys == ys;
    } else {
      IdsAppend(xs[1..], ys, pass);
      assert (xs + ys)[1..] == xs[1..] + ys && (xs + ys)[0] == xs[0];
    }
  }

  /** One pass over the rules: whether any passes, and the identifiers of those that do. */
  method Gather(rules: seq<Placed>, pass: Rule -> bool) returns (some: bool, ids: seq<string>)
    ensures some <==> exists i :: 0 <= i < |rules| && pass(rules[i].rule)
    ensures ids == Ids(rules, pass)
  {
    some, ids := false, [];
    for k := 0 to |rules|
      invariant some <==> exists i :: 0 <= i < k && pass(rules[i].rule)
      invariant ids == Ids(rules[..k], pass)
    {
      var rule := rules[k].rule;
      IdsAppend(rules[..k], [rules[k]], pass);
      assert rules[..k + 1] == rules[..k] + [rules[k]];
      if pass(rule) {
        some := true;
        if rule.id != "" { ids := ids + [rule.id]; }
      }
    }
    assert rules[..|rules|] == rules;
  }

  method EvaluateFormTriggers(p: Policy, rows: seq<Row>, context: Context, built: set<nat>, task: Snapshot.Task)
      returns (r: Answer<Decision>)
    ensures r == DecideIn(p, rows, context, built, task)
  {
    hide RuleOf, Sort, Holds, Snapshot.Copy;
    if |rows| > MAX_ROWS { return No(RowLimit); }
    var active: seq<Placed> := [];
    var index := 0;
    ResumeNothing(Active(p, rows, 0));
    while index < |rows|
      invariant 0 <= index <= |rows|
      invariant Active(p, rows, 0) == Resume(active, Active(p, rows, index))
    {
      var row := rows[index];
      var rule := RuleOf(p, row);
      if rule.No? { return No(rule.refusal); }
      ActiveStep(p, rows, index, active);
      if rule.value.Some? {
        active := active + [Placed(rule.value.value, index)];
      } else {
        assert active + [] == active;
      }
      index := index + 1;
    }
    assert active + [] == active;
    if active == [] { return Yes(NO_RULES); }
    var sorted := Sort(active);
    var c := context;
    if !(context.root.Ref? && context.root.id in built) {
      var copied := Snapshot.TakeSnapshot(task, SnapshotAgain.EntryOf(context.root));
      if copied.Rejected? { return No(BadContext(copied.reason)); }
      c := Context(copied.state.out, AsRecord(copied.state.out, copied.value), context.host);
    }
    var suppressionMatched, suppressed := Gather(sorted, r => Suppresses(r, c));
    if suppressionMatched { return Yes(Decision(false, "Suppression rule matched", Distinct(suppressed))); }
    var attach, matched := Gather(sorted, r => Matches(r, c));
    if !attach { return Yes(Decision(false, "No trigger rule matched", [])); }
    return Yes(Decision(true, "Trigger rule matched", Distinct(matched)));
  }
}
