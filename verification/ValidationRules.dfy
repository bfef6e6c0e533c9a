/** Carrier-configured validation rules: field paths with wildcards, which rules apply, and what they find. */
module ValidationRules {
  import opened Options
  import opened Values
  import opened Evaluator
  import Compiler
  import Lexer
  import Texts

  // ---- field paths --------------------------------------------------------------------------------------

  predicate DollarWordPart(c: char) { Lexer.IsWordPart(c) || c == '$' }

  predicate PathPart(s: string)
  {
    s == "*" || Texts.AllDigits(s)
    || (s != "" && (Lexer.IsWordStart(s[0]) || s[0] == '$') && forall i :: 0 <= i < |s| ==> DollarWordPart(s[i]))
  }

  const STAR: string := "*"

  const RESERVED: set<string> := {"__proto__", "constructor", "prototype"}

  /** Length of an index in brackets, or a star in brackets, at the start of a text; zero if there is none. */
  function BracketLength(s: string): (n: nat)
    ensures n <= |s| && (n > 0 ==> n > 2)
  {
    if s == "" || s[0] != '[' then 0
    else if |s| > 2 && s[1] == '*' && s[2] == ']' then 3
    else
      var e := Lexer.DigitsEnd(s, 1);
      if e > 1 && e < |s| && s[e] == ']' then e + 1 else 0
  }

  /** Indices and stars in brackets become parts after a dot. */
  function Unbracketed(s: string): string
  {
    if s == "" then ""
    else
      var n := BracketLength(s);
      if n > 0 then "." + s[1..n - 1] + Unbracketed(s[n..]) else [s[0]] + Unbracketed(s[1..])
  }

  function NonEmpty(parts: seq<string>): (r: seq<string>)
    ensures forall p :: p in r <==> p in parts && p != ""
  {
    if parts == [] then [] else (if parts[0] == "" then [] else [parts[0]]) + NonEmpty(parts[1..])
  }

  function SplitFieldPath(path: string): (r: Option<seq<string>>)
    ensures r.Some? ==> r.value != [] && forall p :: p in r.value ==> PathPart(p) && p !in RESERVED
  {
    var parts := NonEmpty(Texts.Split(Unbracketed(Texts.Trim(path)), '.'));
    if parts == [] || (exists p :: p in parts && !PathPart(p)) || (exists p :: p in parts && p in RESERVED) then None
    else Some(parts)
  }

  // ---- the values of a path -----------------------------------------------------------------------------

  function Decimal(n: nat): (s: string)
    ensures s != ""
  {
    if n < 10 then [n as char + '0'] else Decimal(n / 10) + [(n % 10) as char + '0']
  }

  datatype Found = Found(path: string, value: Value)

  /** One part further; nothing on the way is undefined. */
  function Next(h: Heap, v: Value, part: string): Value {
    if IsObject(v) then OrElse(Own(h, v, part), Undefined) else Undefined
  }

  function ResolveAll(h: Heap, root: Value, parts: seq<string>, prefix: seq<string>): seq<Found>
    decreases |parts|, 0
  {
    if parts == [] then [Found(Texts.Join(prefix, '.'), root)]
    else if parts[0] == STAR then
      if IsArray(h, root) then ResolveItems(h, Elements(h, root).value, parts[1..], prefix, 0) else []
    else ResolveAll(h, Next(h, root, parts[0]), parts[1..], prefix + [parts[0]])
  }

  function ResolveItems(h: Heap, items: seq<Value>, parts: seq<string>, prefix: seq<string>, index: nat): seq<Found>
    requires index <= |items|
    decreases |parts|, 1, |items| - index
  {
    if index == |items| then []
    else
      ResolveAll(h, items[index], parts, prefix + [Decimal(index)]) + ResolveItems(h, items, parts, prefix, index + 1)
  }

  // ---- rules --------------------------------------------------------------------------------------------

  datatype Level = Screen | Rate | Bind | Issue

  datatype Kind = Required | Condition

  datatype Rule = Rule(
    code: string, kind: Kind, fieldPath: Option<string>, condition: Option<string>, appliesWhen: Option<string>,
    levels: seq<Level>, transactionTypes: seq<string>, productCode: Option<string>, stateCode: Option<string>,
        screen: Option<string>,
    isError: bool, message: string, effectiveDate: Option<string>, expirationDate: Option<string>, active: Option<bool>)

  datatype Target = Target(level: Level, transactionType: string, productCode: Option<string>,
      stateCode: Option<string>, asOf: Option<string>)

  datatype Finding = Finding(code: string, isError: bool, message: string, fieldPath: Option<string>,
      screen: Option<string>)

  datatype Outcome = Outcome(errors: seq<Finding>, warnings: seq<Finding>)

  /** An empty text counts as none. */
  function OrNone(s: Option<string>): Option<string> { if s == Some("") then None else s }

  function Day(s: string): string { if |s| > 10 then s[..10] else s }

  predicate RuleAppliesTo(rule: Rule, target: Target, host: Host)
  {
    && rule.active != Some(false)
    && target.level in rule.levels
    && ("common" in rule.transactionTypes || target.transactionType in rule.transactionTypes)
    && (OrNone(rule.productCode).Some? ==> rule.productCode == target.productCode)
    && (OrNone(rule.stateCode).Some? ==>
          host.upper(rule.stateCode.value) == host.upper(if target.stateCode.Some? then target.stateCode.value else ""))
    && (OrNone(target.asOf).Some? && OrNone(rule.effectiveDate).Some? ==>
        !Texts.Before(Day(target.asOf.value), Day(rule.effectiveDate.value)))
    && (OrNone(target.asOf).Some? && OrNone(rule.expirationDate).Some? ==>
        !Texts.Before(Day(rule.expirationDate.value), Day(target.asOf.value)))
  }

  /** What rules are checked against: the payload, and the context that expressions read. */
  datatype Facts = Facts(h: Heap, payload: Value, context: Value, host: Host)

  /** Whether a condition is true; none if it cannot be compiled. A blank one is true. */
  function Holds(source: Option<string>, facts: Facts): Option<bool>
  {
    if source.None? || Texts.IsBlankText(source.value) then Some(true)
    else
      match Compiler.CompileSource(source.value)
      case Bad(_) => None
      case Good(e) => Some(IsTruthy(facts.h, Run(e.root, facts.h, facts.context, facts.host)))
  }

  function RootOf(facts: Facts, parts: seq<string>): Value
    requires parts != []
  {
    if parts[0] in {"transaction", "policy", "premium"} then facts.context else facts.payload
  }

  function RequiredValues(facts: Facts, parts: seq<string>): seq<Found>
    requires parts != []
  {
    ResolveAll(facts.h, RootOf(facts, parts), parts, [])
  }

  function FindingOf(rule: Rule, path: Option<string>, suffix: string): Finding
  {
    Finding(rule.code, rule.isError, rule.message + suffix, path, OrNone(rule.screen))
  }

  function Blanks(rule: Rule, facts: Facts, found: seq<Found>): seq<Finding>
  {
    if found == [] then []
    else
      (if IsBlank(facts.h, found[0].value) then [FindingOf(rule, Some(found[0].path), "")] else []) +
          Blanks(rule, facts, found[1..])
  }

  function RequiredFindings(rule: Rule, facts: Facts): seq<Finding>
  {
    match SplitFieldPath(if rule.fieldPath.Some? then rule.fieldPath.value else "")
    case None => [FindingOf(rule, OrNone(rule.fieldPath), " (rule field path is not valid)")]
    case Some(parts) =>
      var found := RequiredValues(facts, parts);
      if found == [] && STAR in parts then []
      else (if found == [] then [FindingOf(rule, OrNone(rule.fieldPath), "")] else []) + Blanks(rule, facts, found)
  }

  /** What one rule finds. A rule that cannot be evaluated is reported. */
  function Findings(rule: Rule, target: Target, facts: Facts): seq<Finding>
  {
    var broken := [FindingOf(rule, OrNone(rule.fieldPath), " (rule could not be evaluated)")];
    if !RuleAppliesTo(rule, target, facts.host) then []
    else
      match Holds(rule.appliesWhen, facts)
      case None => broken
      case Some(applies) =>
        if !applies then []
        else if rule.kind == Required then RequiredFindings(rule, facts)
        else
          match Holds(rule.condition, facts)
          case None => broken
          case Some(true) => []
          case Some(false) => [FindingOf(rule, OrNone(rule.fieldPath), "")]
  }

  /** The findings of these rules of one severity, in order. */
  function Collected(rules: seq<Rule>, target: Target, facts: Facts, isError: bool): seq<Finding>
  {
    if rules == [] then []
    else
      var last := rules[|rules| - 1];
      Collected(rules[..|rules| - 1], target, facts, isError) +
          if last.isError == isError then Findings(last, target, facts) else []
  }

  /** Where the findings of a rule go. */
  function Added(outcome: Outcome, rule: Rule, findings: seq<Finding>): Outcome
  {
    if rule.isError then outcome.(errors := outcome.errors + findings)
    else outcome.(warnings := outcome.warnings + findings)
  }

  method EvaluateValidationRules(rules: seq<Rule>, target: Target, facts: Facts) returns (outcome: Outcome)
    ensures outcome == Outcome(Collected(rules, target, facts, true), Collected(rules, target, facts, false))
  {
    hide RequiredFindings, Holds, RuleAppliesTo;
    outcome := Outcome([], []);
    var i := 0;
    while i < |rules|
      invariant 0 <= i <= |rules|
      invariant outcome ==
                Outcome(Collected(rules[..i], target, facts, true), Collected(rules[..i], target, facts, false))
    {
      var rule := rules[i];
      ghost var before := outcome;
      assert rules[..i + 1][..i] == rules[..i];
      i := i + 1;
      if !RuleAppliesTo(rule, target, facts.host) { continue; }
      var applies := Holds(rule.appliesWhen, facts);
      if applies == Some(false) { continue; }
      if applies.None? {
        outcome := Added(outcome, rule, [FindingOf(rule, OrNone(rule.fieldPath), " (rule could not be evaluated)")]);
      } else if rule.kind == Required {
        outcome := AddRequired(outcome, rule, facts);
      } else {
        var holds := Holds(rule.condition, facts);
        if holds.None? {
          outcome := Added(outcome, rule, [FindingOf(rule, OrNone(rule.fieldPath), " (rule could not be evaluated)")]);
        } else if !holds.value {
          outcome := Added(outcome, rule, [FindingOf(rule, OrNone(rule.fieldPath), "")]);
        }
      }
    }
    assert rules[..i] == rules;
  }

  method AddRequired(outcome: Outcome, rule: Rule, facts: Facts) returns (next: Outcome)
    ensures next == Added(outcome, rule, RequiredFindings(rule, facts))
  {
    hide SplitFieldPath, RequiredValues, FindingOf, IsBlank;
    next := outcome;
    var parts := SplitFieldPath(if rule.fieldPath.Some? then rule.fieldPath.value else "");
    if parts.None? {
      return Added(next, rule, [FindingOf(rule, OrNone(rule.fieldPath), " (rule field path is not valid)")]);
    }
    var found := RequiredValues(facts, parts.value);
    if |found| == 0 && STAR in parts.value { return; }
    ghost var done := if |found| == 0 then [FindingOf(rule, OrNone(rule.fieldPath), "")] else [];
    if |found| == 0 { next := Added(next, rule, [FindingOf(rule, OrNone(rule.fieldPath), "")]); }
    ghost var all := RequiredFindings(rule, facts);
    assert all == done + Blanks(rule, facts, found);
    hide RequiredFindings;
    var i := 0;
    while i < |found|
      invariant 0 <= i <= |found|
      invariant next == Added(outcome, rule, done) && all == done + Blanks(rule, facts, found[i..])
    {
      BlanksStep(rule, facts, found, i);
      if IsBlank(facts.h, found[i].value) {
        next := Added(next, rule, [FindingOf(rule, Some(found[i].path), "")]);
        done := done + [FindingOf(rule, Some(found[i].path), "")];
      }
      i := i + 1;
    }
  }

  lemma BlanksStep(rule: Rule, facts: Facts, found: seq<Found>, i: nat)
    requires i < |found|
    ensures Blanks(rule, facts, found[i..]) ==
      (if IsBlank(facts.h, found[i].value) then [FindingOf(rule, Some(found[i].path), "")] else []) +
          Blanks(rule, facts, found[i + 1..])
  {
    hide IsBlank, FindingOf;
    assert found[i..][1..] == found[i + 1..];
  }

  /** The warnings a person has still to acknowledge. */
  function UnacknowledgedWarnings(warnings: seq<Finding>, acknowledged: seq<string>): (r: seq<Finding>)
    ensures forall f :: f in r <==> f in warnings && f.code !in acknowledged
  {
    if warnings == [] then []
    else
      (if warnings[0].code in acknowledged then [] else [warnings[0]]) +
          UnacknowledgedWarnings(warnings[1..], acknowledged)
  }
}
