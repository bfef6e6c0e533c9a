/** What each kind of rule adds to an outcome, said of the rule, the target and the facts. */
module ValidationMeaning {
  import opened Options
  import opened Values
  import opened Evaluator
  import opened EvaluationLaws
  import opened ValidationRules
  import Compiler
  import Lexer
  import Numerals
  import Texts
  import ValidationProof

  // ---- which rules apply ----------------------------------------------------------------------

  predicate Given(s: Option<string>) { s.Some? && s.value != "" }

  function FirstTen(s: string): string { s[..if |s| < 10 then |s| else 10] }

  ghost predicate Precedes(s: string, t: string) { exists k: nat :: Texts.PartsAt(s, t, k) }

  /** The reasons for which a rule does not apply. */
  ghost predicate Excluded(rule: Rule, target: Target, host: Host)
  {
    || rule.active == Some(false)
    || (forall i :: 0 <= i < |rule.levels| ==> rule.levels[i] != target.level)
    || (forall i :: 0 <= i < |rule.transactionTypes| ==>
          rule.transactionTypes[i] != "common" && rule.transactionTypes[i] != target.transactionType)
    || (Given(rule.productCode) && target.productCode != rule.productCode)
    || (Given(rule.stateCode)
        && host.upper(rule.stateCode.value) !=
           host.upper(if target.stateCode.Some? then target.stateCode.value else ""))
    || (Given(target.asOf) && Given(rule.effectiveDate)
        && Precedes(FirstTen(target.asOf.value), FirstTen(rule.effectiveDate.value)))
    || (Given(target.asOf) && Given(rule.expirationDate)
        && Precedes(FirstTen(rule.expirationDate.value), FirstTen(target.asOf.value)))
  }

  lemma AppliesExactly(rule: Rule, target: Target, host: Host)
    ensures RuleAppliesTo(rule, target, host) <==> !Excluded(rule, target, host)
  {
    forall s, t ensures Texts.Before(Day(s), Day(t)) <==> Precedes(FirstTen(s), FirstTen(t)) {
      Texts.BeforeExactly(Day(s), Day(t));
      assert Day(s) == FirstTen(s) && Day(t) == FirstTen(t);
    }
    hide Texts.Before, Precedes, FirstTen, Day;
  }

  // ---- what a rule finds ----------------------------------------------------------------------

  predicate NoText(s: Option<string>) { s.None? || !Inked(s.value) }

  ghost predicate DoesNotCompile(s: Option<string>) { !NoText(s) && !Compiler.CompileSource(s.value).Good? }

  ghost predicate TrueWhenCompiled(source: string, e: Compiler.Compiled, facts: Facts)
  {
    && Compiler.CompileSource(source) == Compiler.Good(e) && CallsChecked(e.root)
    && !CountsAsFalse(facts.h, Run(e.root, facts.h, facts.context, facts.host))
  }

  /** A blank condition is true, and another if it compiles to a tree that does not count as false in the context. */
  ghost predicate IsTrue(s: Option<string>, facts: Facts)
  {
    NoText(s) || exists e :: TrueWhenCompiled(s.value, e, facts)
  }

  function NonEmptyText(s: Option<string>): Option<string> { if Given(s) then s else None }

  /** A finding of the rule, with its own code, severity and screen. */
  function Says(rule: Rule, path: Option<string>, message: string): Finding
  {
    Finding(rule.code, rule.isError, message, path, NonEmptyText(rule.screen))
  }

  /** The value that paths of these parts start from. */
  function StartOf(facts: Facts, parts: seq<string>): Value
    requires parts != []
  {
    if parts[0] == "transaction" || parts[0] == "policy" || parts[0] == "premium" then facts.context else facts.payload
  }

  /** The path is covered, and nothing but an empty value stands there. */
  ghost predicate BlankAt(facts: Facts, parts: seq<string>, path: seq<string>)
    requires parts != []
  {
    ValidationProof.Covers(facts.h, StartOf(facts, parts), parts, path)
    && Empty(facts.h, ValidationProof.ReadPath(facts.h, StartOf(facts, parts), path))
  }

  ghost predicate FindsBlanks(rule: Rule, facts: Facts, parts: seq<string>, fs: seq<Finding>)
    requires parts != []
  {
    && (forall f :: f in fs <==>
          exists path :: BlankAt(facts, parts, path) && f == Says(rule, Some(Texts.Join(path, '.')), rule.message))
    && (forall i, j :: 0 <= i < j < |fs| ==> fs[i].fieldPath != fs[j].fieldPath)
  }

  /** What one rule adds to an outcome. */
  ghost predicate Adds(rule: Rule, target: Target, facts: Facts, fs: seq<Finding>)
  {
    var broken := [Says(rule, NonEmptyText(rule.fieldPath), rule.message + " (rule could not be evaluated)")];
    if Excluded(rule, target, facts.host) then fs == []
    else if DoesNotCompile(rule.appliesWhen) then fs == broken
    else if !IsTrue(rule.appliesWhen, facts) then fs == []
    else if rule.kind == Condition then
      if DoesNotCompile(rule.condition) then fs == broken
      else if IsTrue(rule.condition, facts) then fs == []
      else fs == [Says(rule, NonEmptyText(rule.fieldPath), rule.message)]
    else
      match SplitFieldPath(if rule.fieldPath.Some? then rule.fieldPath.value else "")
      case None =>
        fs == [Says(rule, NonEmptyText(rule.fieldPath), rule.message + " (rule field path is not valid)")]
      case Some(parts) => parts != [] && FindsBlanks(rule, facts, parts, fs)
  }

  lemma HoldsExactly(s: Option<string>, facts: Facts)
    ensures Holds(s, facts).None? <==> DoesNotCompile(s)
    ensures Holds(s, facts) == Some(true) <==> IsTrue(s, facts)
  {
    if !NoText(s) && Compiler.CompileSource(s.value).Good? {
      var e := Compiler.CompileSource(s.value).expression;
      TruthExactly(facts.h, Run(e.root, facts.h, facts.context, facts.host));
      assert TrueWhenCompiled(s.value, e, facts) <==> Holds(s, facts) == Some(true);
    }
    hide Run, IsTruthy, CountsAsFalse, Compiler.CompileSource, CallsChecked;
  }

  lemma SaysExactly(rule: Rule, path: Option<string>, suffix: string)
    ensures FindingOf(rule, path, suffix) == Says(rule, path, rule.message + suffix)
    ensures FindingOf(rule, path, "") == Says(rule, path, rule.message)
  {
    assert rule.message + "" == rule.message;
  }

  lemma RuleExactly(rule: Rule, target: Target, facts: Facts)
    ensures Adds(rule, target, facts, Findings(rule, target, facts))
  {
    AppliesExactly(rule, target, facts.host);
    HoldsExactly(rule.appliesWhen, facts);
    HoldsExactly(rule.condition, facts);
    forall path, suffix ensures FindingOf(rule, path, suffix) == Says(rule, path, rule.message + suffix) {
      SaysExactly(rule, path, suffix);
    }
    forall path ensures FindingOf(rule, path, "") == Says(rule, path, rule.message) { SaysExactly(rule, path, ""); }
    hide Holds, RuleAppliesTo, Excluded, IsTrue, DoesNotCompile, SplitFieldPath, FindingOf, RequiredFindings,
        FindsBlanks;
    var runs := RuleAppliesTo(rule, target, facts.host) && Holds(rule.appliesWhen, facts) == Some(true);
    if runs && rule.kind == Required {
      RequiredRule(rule, target, facts);
    }
  }

  lemma RequiredRule(rule: Rule, target: Target, facts: Facts)
    requires RuleAppliesTo(rule, target, facts.host) && Holds(rule.appliesWhen, facts) == Some(true)
    requires rule.kind == Required
    ensures match SplitFieldPath(if rule.fieldPath.Some? then rule.fieldPath.value else "")
      case None => Findings(rule, target, facts)
        == [Says(rule, NonEmptyText(rule.fieldPath), rule.message + " (rule field path is not valid)")]
      case Some(parts) => parts != [] && FindsBlanks(rule, facts, parts, Findings(rule, target, facts))
  {
    var text := if rule.fieldPath.Some? then rule.fieldPath.value else "";
    SaysExactly(rule, OrNone(rule.fieldPath), " (rule field path is not valid)");
    hide RuleAppliesTo, Holds;
    if SplitFieldPath(text).Some? {
      NoPathText();
      BlanksFound(rule, target, facts, SplitFieldPath(text).value);
    }
  }

  lemma NoPathText()
    ensures SplitFieldPath("").None?
  {
    assert Texts.Split("", '.') == [""];
  }

  lemma BlanksFound(rule: Rule, target: Target, facts: Facts, parts: seq<string>)
    requires RuleAppliesTo(rule, target, facts.host) && Holds(rule.appliesWhen, facts) == Some(true)
    requires rule.kind == Required && rule.fieldPath.Some? && SplitFieldPath(rule.fieldPath.value) == Some(parts)
    ensures parts != [] && FindsBlanks(rule, facts, parts, Findings(rule, target, facts))
  {
    hide SplitFieldPath, RuleAppliesTo, Holds, RequiredFindings, Findings, BlankAt, ValidationProof.Reports;
    var fs := Findings(rule, target, facts);
    ValidationProof.RequiredExactly(rule, target, facts, parts, Says(rule, None, ""));
    forall f
      ensures f in fs <==>
        exists path :: BlankAt(facts, parts, path) && f == Says(rule, Some(Texts.Join(path, '.')), rule.message)
    {
      ValidationProof.RequiredExactly(rule, target, facts, parts, f);
      if path :| ValidationProof.Reports(rule, facts, parts, path, f) { ReportExactly(rule, facts, parts, path, f); }
      if path :| BlankAt(facts, parts, path) && f == Says(rule, Some(Texts.Join(path, '.')), rule.message) {
        ReportExactly(rule, facts, parts, path, f);
      }
    }
  }

  lemma ReportExactly(rule: Rule, facts: Facts, parts: seq<string>, path: seq<string>, f: Finding)
    requires parts != []
    ensures ValidationProof.Reports(rule, facts, parts, path, f)
      <==> BlankAt(facts, parts, path) && f == Says(rule, Some(Texts.Join(path, '.')), rule.message)
  {
    SaysExactly(rule, Some(Texts.Join(path, '.')), "");
    EmptyExactly(facts.h, ValidationProof.ReadPath(facts.h, StartOf(facts, parts), path));
    hide ValidationProof.Covers, ValidationProof.ReadPath, IsBlank, Empty;
  }

  // ---- main result ----------------------------------------------------------------------------

  /** What the rules of one severity add, one after the other. */
  function Joined(rules: seq<Rule>, fss: seq<seq<Finding>>, isError: bool): seq<Finding>
    requires |rules| == |fss|
  {
    if rules == [] then []
    else (if rules[0].isError == isError then fss[0] else []) + Joined(rules[1..], fss[1..], isError)
  }

  lemma {:induction false} JoinedLast(rules: seq<Rule>, fss: seq<seq<Finding>>, rule: Rule, fs: seq<Finding>,
      isError: bool)
    requires |rules| == |fss|
    ensures Joined(rules + [rule], fss + [fs], isError)
      == Joined(rules, fss, isError) + if rule.isError == isError then fs else []
    decreases |rules|
  {
    if rules == [] {
      assert rules + [rule] == [rule] && fss + [fs] == [fs];
    } else {
      JoinedLast(rules[1..], fss[1..], rule, fs, isError);
      assert (rules + [rule])[1..] == rules[1..] + [rule] && (fss + [fs])[1..] == fss[1..] + [fs];
    }
  }

  /**
   * The outcome of a list of rules: every rule adds what it is to add, in order, the errors to the errors and the
   * warnings to the warnings.
   */
  lemma {:induction false} OutcomeExactly(rules: seq<Rule>, target: Target, facts: Facts)
      returns (fss: seq<seq<Finding>>)
    ensures |fss| == |rules| && forall i :: 0 <= i < |rules| ==> Adds(rules[i], target, facts, fss[i])
    ensures Collected(rules, target, facts, true) == Joined(rules, fss, true)
    ensures Collected(rules, target, facts, false) == Joined(rules, fss, false)
    decreases |rules|
  {
    hide Findings, Adds;
    if rules == [] {
      fss := [];
    } else {
      var init, last := rules[..|rules| - 1], rules[|rules| - 1];
      var before := OutcomeExactly(init, target, facts);
      RuleExactly(last, target, facts);
      fss := before + [Findings(last, target, facts)];
      JoinedLast(init, before, last, Findings(last, target, facts), true);
      JoinedLast(init, before, last, Findings(last, target, facts), false);
      assert rules == init + [last];
      forall i | 0 <= i < |rules| ensures Adds(rules[i], target, facts, fss[i]) {
        if i < |init| { assert rules[i] == init[i] && fss[i] == before[i]; }
      }
    }
  }

  // ---- field paths ----------------------------------------------------------------------------

  /** Reading along a path gives the value at its end, and undefined if it leads nowhere. */
  lemma {:induction false} ValueOfPath(h: Heap, from: Value, path: seq<string>)
    ensures (exists vs :: Met(h, from, path, vs) && ValidationProof.ReadPath(h, from, path) == vs[|path|])
      || ((forall vs :: !Met(h, from, path, vs)) && ValidationProof.ReadPath(h, from, path) == Undefined)
    decreases |path|
  {
    hide Own;
    if path == [] {
      assert Met(h, from, path, [from]);
    } else {
      var next := Next(h, from, path[0]);
      ValueOfPath(h, next, path[1..]);
      if (from.Ref? || from.Fresh?) && Own(h, from, path[0]).Some? {
        if vs :| Met(h, next, path[1..], vs) && ValidationProof.ReadPath(h, next, path[1..]) == vs[|path| - 1] {
          MetOn(h, from, path, vs);
          assert ([from] + vs)[|path|] == vs[|path| - 1];
        } else {
          forall vs ensures !Met(h, from, path, vs) { if Met(h, from, path, vs) { MetRest(h, from, path, vs); } }
        }
      } else {
        NothingMet(h, path[1..]);
        forall vs ensures !Met(h, from, path, vs) { if Met(h, from, path, vs) { MetFirst(h, from, path, vs); } }
      }
    }
  }

  lemma MetOn(h: Heap, from: Value, path: seq<string>, vs: seq<Value>)
    requires path != [] && (from.Ref? || from.Fresh?) && Own(h, from, path[0]).Some?
    requires Met(h, Own(h, from, path[0]).value, path[1..], vs)
    ensures Met(h, from, path, [from] + vs)
  {
    hide Own;
    var longer := [from] + vs;
    forall i | 0 <= i < |path|
      ensures (longer[i].Ref? || longer[i].Fresh?) && Own(h, longer[i], path[i]) == Some(longer[i + 1])
    {
      if i > 0 { assert longer[i] == vs[i - 1] && longer[i + 1] == vs[i] && path[i] == path[1..][i - 1]; }
    }
  }

  lemma MetRest(h: Heap, from: Value, path: seq<string>, vs: seq<Value>)
    requires path != [] && Met(h, from, path, vs)
    ensures Own(h, from, path[0]).Some? && Met(h, Own(h, from, path[0]).value, path[1..], vs[1..])
  {
    hide Own;
    MetFirst(h, from, path, vs);
    forall i | 0 <= i < |path| - 1
      ensures (vs[1..][i].Ref? || vs[1..][i].Fresh?) && Own(h, vs[1..][i], path[1..][i]) == Some(vs[1..][i + 1])
    {
      assert vs[1..][i] == vs[i + 1] && path[1..][i] == path[i + 1];
    }
  }

  lemma MetFirst(h: Heap, from: Value, path: seq<string>, vs: seq<Value>)
    requires path != [] && Met(h, from, path, vs)
    ensures (from.Ref? || from.Fresh?) && Own(h, from, path[0]) == Some(vs[1])
  {
    hide Own;
    assert (vs[0].Ref? || vs[0].Fresh?) && Own(h, vs[0], path[0]) == Some(vs[1]);
  }

  lemma {:induction false} NothingMet(h: Heap, path: seq<string>)
    ensures ValidationProof.ReadPath(h, Undefined, path) == Undefined
    decreases |path|
  {
    if path != [] { NothingMet(h, path[1..]); }
  }

  /** A step of a field path as it is written: a part after a dot, or an index or a star in brackets. */
  datatype Step = Dot(part: string) | Bracket(part: string)

  function Written(steps: seq<Step>): string
  {
    if steps == [] then ""
    else (if steps[0].Dot? then "." + steps[0].part else "[" + steps[0].part + "]") + Written(steps[1..])
  }

  function Parts(steps: seq<Step>): seq<string> { if steps == [] then [] else [steps[0].part] + Parts(steps[1..]) }

  /** A part that holds nothing that would end it: a blank, a dot or an opening bracket. */
  predicate Solid(part: string)
  {
    part != "" && forall i :: 0 <= i < |part| ==> !Lexer.IsSpace(part[i]) && part[i] != '.' && part[i] != '['
  }

  predicate Readable(step: Step)
  {
    if step.Dot? then Solid(step.part) else step.part == "*" || Texts.AllDigits(step.part)
  }

  lemma BracketSolid(step: Step)
    requires Readable(step)
    ensures Solid(step.part)
  {
    if step.part == "*" { assert step.part[0] == '*'; }
  }

  lemma {:induction false} PartCopied(part: string, rest: string)
    requires forall i :: 0 <= i < |part| ==> part[i] != '['
    ensures Unbracketed(part + rest) == part + Unbracketed(rest)
    decreases |part|
  {
    if part == "" {
      assert part + rest == rest;
    } else {
      PartCopied(part[1..], rest);
      assert (part + rest)[1..] == part[1..] + rest && (part + rest)[0] == part[0];
      assert part == [part[0]] + part[1..];
    }
  }

  lemma BracketOpened(part: string, rest: string)
    requires part == "*" || Texts.AllDigits(part)
    ensures Unbracketed("[" + part + "]" + rest) == "." + part + Unbracketed(rest)
  {
    var s := "[" + part + "]" + rest;
    assert s[0] == '[' && s[1] == part[0] && s[|part| + 1] == ']';
    if part == "*" {
      assert BracketLength(s) == 3;
    } else {
      Numerals.DigitsStopAt(s, 1, |part| + 1, part);
      assert BracketLength(s) == |part| + 2;
    }
    assert s[1..|part| + 1] == part && s[|part| + 2..] == rest;
  }

  lemma StepOpened(step: Step, rest: string)
    requires Readable(step)
    ensures Unbracketed((if step.Dot? then "." + step.part else "[" + step.part + "]") + rest)
      == "." + (step.part + Unbracketed(rest))
  {
    hide Unbracketed, Lexer.IsSpace;
    BracketSolid(step);
    if step.Dot? {
      PartCopied("." + step.part, rest);
      assert "." + step.part + Unbracketed(rest) == "." + (step.part + Unbracketed(rest));
    } else {
      BracketOpened(step.part, rest);
      assert "." + step.part + Unbracketed(rest) == "." + (step.part + Unbracketed(rest));
    }
  }

  lemma {:induction false} WrittenOpened(steps: seq<Step>)
    requires forall i :: 0 <= i < |steps| ==> Readable(steps[i])
    ensures Unbracketed(Written(steps)) == if steps == [] then "" else "." + Texts.Join(Parts(steps), '.')
    decreases |steps|
  {
    if steps != [] {
      hide Unbracketed, Readable, Texts.Join;
      assert Readable(steps[0]);
      WrittenOpened(steps[1..]);
      StepOpened(steps[0], Written(steps[1..]));
      JoinedOn(steps[0].part, Parts(steps[1..]));
      var part := steps[0].part;
      if steps[1..] == [] {
        assert part + "" == part;
      } else {
        var joined := Texts.Join(Parts(steps[1..]), '.');
        assert part + ("." + joined) == part + "." + joined;
      }
    }
  }

  lemma JoinedOn(part: string, rest: seq<string>)
    ensures Texts.Join([part] + rest, '.') == if rest == [] then part else part + "." + Texts.Join(rest, '.')
  {
    assert ([part] + rest)[1..] == rest;
  }

  lemma {:induction false} NothingDropped(parts: seq<string>)
    requires forall i :: 0 <= i < |parts| ==> parts[i] != ""
    ensures NonEmpty(parts) == parts
    decreases |parts|
  {
    if parts != [] { NothingDropped(parts[1..]); assert parts == [parts[0]] + parts[1..]; }
  }

  lemma {:induction false} PartsSolid(steps: seq<Step>)
    requires forall i :: 0 <= i < |steps| ==> Readable(steps[i])
    ensures |Parts(steps)| == |steps| &&
            forall i :: 0 <= i < |steps| ==> Parts(steps)[i] == steps[i].part && Solid(steps[i].part)
    decreases |steps|
  {
    if steps != [] {
      BracketSolid(steps[0]);
      PartsSolid(steps[1..]);
    }
  }

  lemma {:induction false} EndsSolid(steps: seq<Step>)
    requires forall i :: 0 <= i < |steps| ==> Readable(steps[i])
    ensures steps != [] ==> Written(steps) != "" && !Lexer.IsSpace(Written(steps)[|Written(steps)| - 1])
    decreases |steps|
  {
    if steps != [] {
      EndsSolid(steps[1..]);
      BracketSolid(steps[0]);
    }
  }

  /** A name part: a letter, an underscore or a dollar sign, and then these and digits. An index part: digits. */
  predicate Nameable(part: string)
  {
    || part == "*"
    || (part != "" && forall i :: 0 <= i < |part| ==> '0' <= part[i] <= '9')
    || (part != "" && !('0' <= part[0] <= '9') && forall i :: 0 <= i < |part| ==>
          'a' <= part[i] <= 'z' || 'A' <= part[i] <= 'Z' || part[i] == '_' || part[i] == '$' || '0' <= part[i] <= '9')
  }

  lemma NameableExactly(part: string)
    ensures PathPart(part) <==> Nameable(part)
  {
  }

  /**
   * A field path, its indices after dots or in brackets and blanks around it aside, is read as its parts, if every one
   * is a name, an index or a star and none a reserved name, and otherwise refused.
   */
  lemma PathReadExactly(before: string, first: string, steps: seq<Step>, after: string)
    requires Texts.IsBlankText(before) && Texts.IsBlankText(after)
    requires Solid(first) && forall i :: 0 <= i < |steps| ==> Readable(steps[i])
    ensures var parts := [first] + Parts(steps);
      SplitFieldPath(before + (first + Written(steps)) + after) ==
        if forall i :: 0 <= i < |parts| ==> Nameable(parts[i]) && parts[i] !in {"__proto__", "constructor", "prototype"}
        then Some(parts) else None
  {
    var parts, text := [first] + Parts(steps), first + Written(steps);
    hide Solid, Readable, SplitFieldPath, Nameable;
    PathText(before, first, steps, after);
    PathParts(first, steps);
    hide Unbracketed, Texts.Trim, Texts.Split, Texts.Join, NonEmpty, Parts, Written;
    AcceptedExactly(before + text + after, parts);
  }

  lemma AcceptedExactly(text: string, parts: seq<string>)
    requires parts != [] && NonEmpty(Texts.Split(Unbracketed(Texts.Trim(text)), '.')) == parts
    ensures SplitFieldPath(text) ==
      if forall i :: 0 <= i < |parts| ==> Nameable(parts[i]) && parts[i] !in {"__proto__", "constructor", "prototype"}
      then Some(parts) else None
  {
    hide Unbracketed, Texts.Trim, Texts.Split, NonEmpty;
    forall i | 0 <= i < |parts| ensures PathPart(parts[i]) <==> Nameable(parts[i]) { NameableExactly(parts[i]); }
    hide PathPart, Nameable;
    assert forall part :: part in parts <==> exists i :: 0 <= i < |parts| && parts[i] == part;
  }

  lemma PathText(before: string, first: string, steps: seq<Step>, after: string)
    requires Texts.IsBlankText(before) && Texts.IsBlankText(after)
    requires Solid(first) && forall i :: 0 <= i < |steps| ==> Readable(steps[i])
    ensures Unbracketed(Texts.Trim(before + (first + Written(steps)) + after)) ==
            Texts.Join([first] + Parts(steps), '.')
  {
    var text := first + Written(steps);
    hide Unbracketed, Texts.Trim, Written, Parts, Readable;
    EndsSolid(steps);
    WrittenNothing();
    assert text[0] == first[0];
    assert text[|text| - 1] == if steps == [] then first[|first| - 1] else Written(steps)[|Written(steps)| - 1];
    Texts.TrimExactly(before, text, after);
    PartCopied(first, Written(steps));
    WrittenOpened(steps);
    JoinedOn(first, Parts(steps));
    PartsLength(steps);
    if steps != [] {
      var joined := Texts.Join(Parts(steps), '.');
      assert first + ("." + joined) == first + "." + joined;
    }
  }

  lemma WrittenNothing()
    ensures Written([]) == ""
  {
  }

  lemma {:induction false} PartsLength(steps: seq<Step>)
    ensures |Parts(steps)| == |steps|
    decreases |steps|
  {
    if steps != [] { PartsLength(steps[1..]); }
  }

  lemma PathParts(first: string, steps: seq<Step>)
    requires Solid(first) && forall i :: 0 <= i < |steps| ==> Readable(steps[i])
    ensures var parts := [first] + Parts(steps); NonEmpty(Texts.Split(Texts.Join(parts, '.'), '.')) == parts
  {
    var parts := [first] + Parts(steps);
    PartsSolid(steps);
    forall i | 0 <= i < |parts| ensures Texts.Lacks(parts[i], '.') && parts[i] != "" {
      if i > 0 { assert parts[i] == Parts(steps)[i - 1] == steps[i - 1].part; }
    }
    hide Parts, Solid, Readable;
    Texts.SplitOfJoin(parts, '.');
    NothingDropped(parts);
  }
}
