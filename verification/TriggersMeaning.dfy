/**
 * The trigger decision, said of the rows and the context: which rows are valid, match and suppress, and what follows.
 */
module TriggersMeaning {
  import opened Options
  import opened Values
  import opened Evaluator
  import opened EvaluationLaws
  import opened Triggers
  import Compiler
  import NonInterference
  import Snapshot
  import SnapshotAgain
  import Texts
  import TriggersProof

  // ---- rows -----------------------------------------------------------------------------------

  predicate Skipped(row: Row) { row.active == Is(false) }

  predicate NoText(s: Option<string>) { s.None? || !Inked(s.value) }

  /** A path, its parts taken apart at their dots. */
  function Pieces(path: seq<string>): (r: seq<string>)
    ensures r != []
  {
    if path == [] then [""] else if |path| == 1 then Texts.Split(path[0], '.')
    else Texts.Split(path[0], '.') + Pieces(path[1..])
  }

  /** The path starts at a root that rules may name, and holds no forbidden name. */
  ghost predicate Clear(p: Policy, path: seq<string>)
  {
    Pieces(path)[0] in p.roots && forall piece :: piece in Pieces(path) ==> !p.forbidden(piece)
  }

  ghost predicate ClearSource(p: Policy, source: string, e: Compiler.Compiled)
  {
    Compiler.CompileSource(source) == Compiler.Good(e) &&
        forall path :: path in NonInterference.Paths(e.root) ==> Clear(p, path)
  }

  /** An expression that may stand in a rule. */
  ghost predicate Allowed(p: Policy, source: string)
  {
    Inked(source) && |source| <= 1000 && p.selectorsAllowed(source) && exists e :: ClearSource(p, source, e)
  }

  predicate Short(s: Option<string>) { s.Some? ==> |s.value| <= 1000 }

  ghost predicate ValidCondition(p: Policy, row: Row)
  {
    if row.kind == "Coverage Selected" then !NoText(row.condition) && p.codes(row.condition.value).Some?
    else if NoText(row.condition) then row.kind == "Always"
    else Allowed(p, row.condition.value)
  }

  ghost predicate ValidRow(p: Policy, row: Row)
  {
    && row.active != Malformed && !row.wrongTypes && Short(row.condition) && Short(row.suppress)
    && row.kind in {"Always", "Coverage Selected", "Threshold", "UW Rule", "Attribute-based", "Expression"}
    && ValidCondition(p, row) && (NoText(row.suppress) || Allowed(p, row.suppress.value))
  }

  /** The compiled expression does not count as false in the context. */
  ghost predicate IsTrue(source: string, c: Context)
  {
    exists e :: Compiler.CompileSource(source) == Compiler.Good(e) && CallsChecked(e.root)
      && !CountsAsFalse(c.heap, Run(e.root, c.heap, c.root, c.host))
  }

  ghost predicate RowSuppresses(row: Row, c: Context) { !NoText(row.suppress) && IsTrue(row.suppress.value, c) }

  /** The context lists this code among its coverages. */
  ghost predicate Covered(c: Context, code: string)
  {
    exists list, items ::
      Own(c.heap, c.root, "coverageCodes") == Some(list) && ListOf(c.heap, list, items) && Text(code) in items
  }

  ghost predicate SomeCovered(codes: seq<string>, c: Context) { exists i :: 0 <= i < |codes| && Covered(c, codes[i]) }

  ghost predicate RowMatches(p: Policy, row: Row, c: Context)
    requires ValidRow(p, row)
  {
    if row.kind == "Always" then true
    else if row.kind == "Coverage Selected" then SomeCovered(p.codes(row.condition.value).value, c)
    else IsTrue(row.condition.value, c)
  }

  function RowId(row: Row): string { if row.id.Some? then row.id.value else "" }

  function RowPriority(row: Row): real { if row.priority.Some? then row.priority.value else 0.0 }

  // ---- rows and their rules -------------------------------------------------------------------

  lemma {:induction false} SplitTwo(s: string, t: string, c: char)
    ensures Texts.Split(s + [c] + t, c) == Texts.Split(s, c) + Texts.Split(t, c)
    decreases |s|
  {
    if s == "" {
      assert s + [c] + t == [c] + t && ([c] + t)[1..] == t;
    } else {
      SplitTwo(s[1..], t, c);
      assert (s + [c] + t)[1..] == s[1..] + [c] + t && (s + [c] + t)[0] == s[0];
      SplitOn(s + [c] + t, c);
      SplitOn(s, c);
      hide Texts.Split;
      HeadKept(s[0], Texts.Split(s[1..], c), Texts.Split(t, c));
    }
  }

  lemma SplitOn(s: string, c: char)
    requires s != ""
    ensures var r := Texts.Split(s[1..], c);
      Texts.Split(s, c) == if s[0] == c then [""] + r else [[s[0]] + r[0]] + r[1..]
  {
  }

  lemma HeadKept(first: char, r: seq<string>, rest: seq<string>)
    requires r != []
    ensures [""] + (r + rest) == [""] + r + rest
    ensures [[first] + (r + rest)[0]] + (r + rest)[1..] == [[first] + r[0]] + r[1..] + rest
  {
    assert (r + rest)[1..] == r[1..] + rest;
  }

  lemma {:induction false} PiecesExactly(path: seq<string>)
    ensures Texts.Split(Compiler.DottedName(path), '.') == Pieces(path)
    decreases |path|
  {
    if |path| > 1 {
      PiecesExactly(path[1..]);
      SplitTwo(path[0], Compiler.DottedName(path[1..]), '.');
    }
  }

  lemma BlankExactly(s: Option<string>)
    ensures BlankOrNone(s) <==> NoText(s)
  {
  }

  lemma CompiledExactly(p: Policy, source: string)
    ensures CompileSafe(p, source).Some? <==> Allowed(p, source)
    ensures CompileSafe(p, source).Some? ==>
      exists e :: Compiler.CompileSource(source) == Compiler.Good(e) && CompileSafe(p, source).value == e.root
  {
    hide Compiler.CompileSource, NonInterference.Paths, Compiler.DottedName, Texts.Split, Pieces;
    forall path ensures PathAllowed(p, path) <==> Clear(p, path) {
      PiecesExactly(path);
      PieceAt(Pieces(path));
    }
    BlankExactly(Some(source));
    if Compiler.CompileSource(source).Good? {
      var e := Compiler.CompileSource(source).expression;
      assert ClearSource(p, source, e) <==>
        forall path :: path in NonInterference.Paths(e.root) ==> PathAllowed(p, path);
    }
  }

  lemma PieceAt(pieces: seq<string>)
    ensures forall i :: 0 <= i < |pieces| ==> pieces[i] in pieces
  {
  }

  lemma TrueExactly(p: Policy, source: string, c: Context)
    requires CompileSafe(p, source).Some?
    ensures Holds(CompileSafe(p, source).value, c) <==> IsTrue(source, c)
  {
    CompiledExactly(p, source);
    var root := CompileSafe(p, source).value;
    hide CompileSafe, Compiler.CompileSource, Run, CountsAsFalse, IsTruthy, CallsChecked;
    TruthExactly(c.heap, Run(root, c.heap, c.root, c.host));
  }

  lemma CoveredExactly(c: Context, code: string)
    ensures Selected(c, code) <==> Covered(c, code)
  {
    hide Own;
    var own := Own(c.heap, c.root, "coverageCodes");
    if own.Some? { ListExactly(c.heap, own.value); }
    if Selected(c, code) {
      var items := Elements(c.heap, own.value).value;
      assert ListOf(c.heap, own.value, items);
    }
  }

  /** What becomes of a row: nothing if it is skipped, a rule if it is valid, and otherwise a refusal. */
  lemma RowExactly(p: Policy, row: Row)
    ensures Skipped(row) ==> RuleOf(p, row) == Yes(None)
    ensures !Skipped(row) && !ValidRow(p, row) ==>
      RuleOf(p, row) ==
        No(if row.active == Malformed then BadActiveFlag else if row.wrongTypes then BadRow else BadDefinition)
    ensures !Skipped(row) && ValidRow(p, row) ==>
      && RuleOf(p, row).Yes? && RuleOf(p, row).value.Some?
      && RuleOf(p, row).value.value.id == RowId(row) && RuleOf(p, row).value.value.priority == RowPriority(row)
  {
    BlankExactly(row.condition);
    BlankExactly(row.suppress);
    if row.condition.Some? { CompiledExactly(p, row.condition.value); }
    if row.suppress.Some? { CompiledExactly(p, row.suppress.value); }
    hide CompileSafe, Allowed, NoText, BlankOrNone;
  }

  lemma RuleExactly(p: Policy, row: Row, c: Context)
    requires !Skipped(row) && ValidRow(p, row)
    ensures RuleOf(p, row).Yes? && RuleOf(p, row).value.Some?
    ensures var rule := RuleOf(p, row).value.value;
      (Matches(rule, c) <==> RowMatches(p, row, c)) && (Suppresses(rule, c) <==> RowSuppresses(row, c))
  {
    RowExactly(p, row);
    BlankExactly(row.condition);
    BlankExactly(row.suppress);
    if row.condition.Some? {
      CompiledExactly(p, row.condition.value);
      if CompileSafe(p, row.condition.value).Some? { TrueExactly(p, row.condition.value, c); }
    }
    if row.suppress.Some? {
      CompiledExactly(p, row.suppress.value);
      if CompileSafe(p, row.suppress.value).Some? { TrueExactly(p, row.suppress.value, c); }
    }
    forall code ensures Selected(c, code) <==> Covered(c, code) { CoveredExactly(c, code); }
    hide CompileSafe, Allowed, NoText, BlankOrNone, Selected, Covered, Holds, IsTrue;
  }

  // ---- the decision ---------------------------------------------------------------------------

  /** The rows are read: none is neither skipped nor valid. */
  ghost predicate AllRead(p: Policy, rows: seq<Row>)
  {
    forall i :: 0 <= i < |rows| ==> Skipped(rows[i]) || ValidRow(p, rows[i])
  }

  /** An active row that suppresses or, when that is not asked, that matches. */
  ghost predicate Acts(p: Policy, row: Row, c: Context, suppressing: bool)
  {
    !Skipped(row) && ValidRow(p, row) && (if suppressing then RowSuppresses(row, c) else RowMatches(p, row, c))
  }

  ghost predicate ActsAt(p: Policy, rows: seq<Row>, c: Context, suppressing: bool, i: nat)
  {
    i < |rows| && Acts(p, rows[i], c, suppressing)
  }

  ghost predicate SomeActs(p: Policy, rows: seq<Row>, c: Context, suppressing: bool)
  {
    exists i: nat :: ActsAt(p, rows, c, suppressing, i)
  }

  ghost predicate SomeActive(rows: seq<Row>) { exists i :: 0 <= i < |rows| && !Skipped(rows[i]) }

  /** Smaller priority first, then smaller identifier. */
  ghost predicate Sooner(a: Row, b: Row)
  {
    RowPriority(a) < RowPriority(b)
    || (RowPriority(a) == RowPriority(b) && exists k: nat :: Texts.PartsAt(RowId(a), RowId(b), k))
  }

  /** The identifiers are those of the acting rows, each once and in the order of the first row that bears it. */
  ghost predicate IdsOf(p: Policy, rows: seq<Row>, c: Context, suppressing: bool, ids: seq<string>)
  {
    && (forall id :: id in ids <==>
        id != "" && exists i: nat :: ActsAt(p, rows, c, suppressing, i) && RowId(rows[i]) == id)
    && (forall x, y :: 0 <= x < y < |ids| ==> ids[x] != ids[y])
    && (forall x, y :: 0 <= x < y < |ids| ==> SomeLeads(p, rows, c, suppressing, ids[x], ids[y]))
  }

  /** This acting row bears the one identifier and comes before every acting row that bears the other. */
  ghost predicate Leads(p: Policy, rows: seq<Row>, c: Context, suppressing: bool, id: string, other: string, i: nat)
  {
    && ActsAt(p, rows, c, suppressing, i) && RowId(rows[i]) == id
    && forall j: nat :: ActsAt(p, rows, c, suppressing, j) && RowId(rows[j]) == other ==> Sooner(rows[i], rows[j])
  }

  ghost predicate SomeLeads(p: Policy, rows: seq<Row>, c: Context, suppressing: bool, id: string, other: string)
  {
    exists i: nat :: Leads(p, rows, c, suppressing, id, other, i)
  }

  /** Placed rules that come of these rows: one for each active row, at its position. */
  ghost predicate From(p: Policy, rows: seq<Row>, s: seq<Placed>)
  {
    && (forall k :: 0 <= k < |s| ==> FromRow(p, rows, s[k]))
    && (forall i :: 0 <= i < |rows| && !Skipped(rows[i]) ==> exists k :: 0 <= k < |s| && s[k].index == i)
  }

  ghost predicate FromRow(p: Policy, rows: seq<Row>, x: Placed)
  {
    && x.index < |rows| && !Skipped(rows[x.index]) && ValidRow(p, rows[x.index])
    && RuleOf(p, rows[x.index]) == Yes(Some(x.rule))
  }

  /** The rows are turned into rules exactly if all can be read; otherwise the first that cannot names the refusal. */
  lemma {:induction false} ActiveExactly(p: Policy, rows: seq<Row>, index: nat)
    requires index <= |rows|
    ensures Active(p, rows, index).Yes? <==>
            forall i :: index <= i < |rows| ==> Skipped(rows[i]) || ValidRow(p, rows[i])
    ensures Active(p, rows, index).Yes? ==>
      && (forall k :: 0 <= k < |Active(p, rows, index).value| ==> FromRow(p, rows, Active(p, rows, index).value[k]))
      && (forall i :: index <= i < |rows| && !Skipped(rows[i]) ==>
            exists k :: 0 <= k < |Active(p, rows, index).value| && Active(p, rows, index).value[k].index == i)
    decreases |rows| - index
  {
    hide RuleOf, ValidRow;
    if index < |rows| {
      RowExactly(p, rows[index]);
      ActiveExactly(p, rows, index + 1);
      if RuleOf(p, rows[index]).Yes? && Active(p, rows, index + 1).Yes? {
        var rest, rule := Active(p, rows, index + 1).value, RuleOf(p, rows[index]).value;
        var one: seq<Placed> := if rule.Some? then [Placed(rule.value, index)] else [];
        assert Active(p, rows, index).value == one + rest;
        forall i | index <= i < |rows| && !Skipped(rows[i])
          ensures exists k :: 0 <= k < |one + rest| && (one + rest)[k].index == i
        {
          if i == index {
            assert (one + rest)[0].index == i;
          } else {
            var k :| 0 <= k < |rest| && rest[k].index == i;
            assert (one + rest)[|one| + k] == rest[k];
          }
        }
      }
    }
  }

  /** Which refusal: that of the first row that cannot be read. */
  lemma {:induction false} RefusedExactly(p: Policy, rows: seq<Row>, index: nat, i: nat)
    requires index <= i < |rows| && !Skipped(rows[i]) && !ValidRow(p, rows[i])
    requires forall j :: index <= j < i ==> Skipped(rows[j]) || ValidRow(p, rows[j])
    ensures Active(p, rows, index) == No(if rows[i].active == Malformed then BadActiveFlag
      else if rows[i].wrongTypes then BadRow else BadDefinition)
    decreases i - index
  {
    hide RuleOf, ValidRow;
    RowExactly(p, rows[index]);
    if index < i { RefusedExactly(p, rows, index + 1, i); }
  }

  lemma SortedFrom(p: Policy, rows: seq<Row>, s: seq<Placed>)
    requires From(p, rows, s)
    ensures From(p, rows, Sort(s)) && TriggersProof.InOrder(Sort(s))
  {
    hide Sort, FromRow;
    TriggersProof.SortInOrder(s);
    hide TriggersProof.InOrder;
    var t := Sort(s);
    forall k | 0 <= k < |t| ensures FromRow(p, rows, t[k]) {
      assert t[k] in multiset(t);
      assert t[k] in multiset(s);
    }
    forall i | 0 <= i < |rows| && !Skipped(rows[i]) ensures exists k :: 0 <= k < |t| && t[k].index == i {
      var k :| 0 <= k < |s| && s[k].index == i;
      assert s[k] in multiset(s);
      assert s[k] in multiset(t);
    }
  }

  /** A test of rules says of every placed rule whether its row acts. */
  ghost predicate Tells(p: Policy, rows: seq<Row>, c: Context, suppressing: bool, s: seq<Placed>, pass: Rule -> bool)
  {
    forall k :: 0 <= k < |s| ==> (pass(s[k].rule) <==> ActsAt(p, rows, c, suppressing, s[k].index))
  }

  lemma TestsTell(p: Policy, rows: seq<Row>, c: Context, s: seq<Placed>, suppresses: Rule -> bool,
      matches: Rule -> bool)
    requires From(p, rows, s)
    requires forall r :: (suppresses(r) <==> Suppresses(r, c)) && (matches(r) <==> Matches(r, c))
    ensures Tells(p, rows, c, true, s, suppresses) && Tells(p, rows, c, false, s, matches)
  {
    hide RuleOf, ValidRow, Suppresses, Matches, RowSuppresses, RowMatches;
    forall k | 0 <= k < |s|
      ensures suppresses(s[k].rule) <==> ActsAt(p, rows, c, true, s[k].index)
      ensures matches(s[k].rule) <==> ActsAt(p, rows, c, false, s[k].index)
    {
      assert FromRow(p, rows, s[k]);
      RuleExactly(p, rows[s[k].index], c);
    }
  }

  lemma SomeTold(p: Policy, rows: seq<Row>, c: Context, suppressing: bool, s: seq<Placed>, pass: Rule -> bool)
    requires From(p, rows, s) && Tells(p, rows, c, suppressing, s, pass)
    ensures (exists k :: 0 <= k < |s| && pass(s[k].rule)) <==> SomeActs(p, rows, c, suppressing)
  {
    hide FromRow, RowSuppresses, RowMatches, ValidRow;
    if exists k :: 0 <= k < |s| && pass(s[k].rule) {
      var k :| 0 <= k < |s| && pass(s[k].rule);
      assert ActsAt(p, rows, c, suppressing, s[k].index);
    }
    if SomeActs(p, rows, c, suppressing) {
      var i :| ActsAt(p, rows, c, suppressing, i);
      var k :| 0 <= k < |s| && s[k].index == i;
      assert pass(s[k].rule);
    }
  }

  ghost predicate Bears(s: seq<Placed>, pass: Rule -> bool, id: string, k: nat)
  {
    k < |s| && pass(s[k].rule) && s[k].rule.id == id
  }

  /** The one at k bears the identifier, and none up to it bears the other. */
  ghost predicate Precedes(s: seq<Placed>, pass: Rule -> bool, id: string, other: string, k: nat)
  {
    Bears(s, pass, id, k) && forall l: nat :: l <= k ==> !Bears(s, pass, other, l)
  }

  ghost predicate SomePrecedes(s: seq<Placed>, pass: Rule -> bool, id: string, other: string)
  {
    exists k: nat :: Precedes(s, pass, id, other, k)
  }

  lemma ListedBears(s: seq<Placed>, n: nat, pass: Rule -> bool, id: string)
    requires n <= |s|
    ensures id in Ids(s[..n], pass) <==> id != "" && exists k: nat :: k < n && Bears(s, pass, id, k)
  {
    hide Ids;
    TriggersProof.IdListed(s[..n], pass, id);
    if id in Ids(s[..n], pass) {
      var k :| 0 <= k < n && pass(s[..n][k].rule) && s[..n][k].rule.id == id;
      assert Bears(s, pass, id, k);
    }
    if k: nat :| k < n && Bears(s, pass, id, k) { assert s[..n][k] == s[k]; }
  }

  ghost predicate Ordered(s: seq<Placed>, pass: Rule -> bool, ids: seq<string>)
  {
    forall x, y :: 0 <= x < y < |ids| ==> ids[x] != ids[y] && SomePrecedes(s, pass, ids[x], ids[y])
  }

  /** Identifiers are listed in the order of the first that bears each. */
  lemma {:induction false} ListedInOrder(s: seq<Placed>, pass: Rule -> bool, n: nat)
    requires n <= |s|
    ensures Ordered(s, pass, Distinct(Ids(s[..n], pass)))
    decreases n
  {
    hide Precedes;
    if n > 0 {
      hide Ordered, Distinct;
      ListedInOrder(s, pass, n - 1);
      assert s[..n] == s[..n - 1] + [s[n - 1]];
      IdsAppend(s[..n - 1], [s[n - 1]], pass);
      hide Ids;
      LastListed(s, pass, n);
    }
  }

  lemma DistinctStep(ids: seq<string>, id: string)
    ensures Distinct(ids + [id]) == if id in Distinct(ids) then Distinct(ids) else Distinct(ids) + [id]
  {
    assert (ids + [id])[..|ids|] == ids;
  }

  lemma OneId(x: Placed, pass: Rule -> bool)
    ensures Ids([x], pass) == if pass(x.rule) && x.rule.id != "" then [x.rule.id] else []
  {
  }

  lemma LastListed(s: seq<Placed>, pass: Rule -> bool, n: nat)
    requires 0 < n <= |s| && Ids(s[..n], pass) == Ids(s[..n - 1], pass) + Ids([s[n - 1]], pass)
    requires Ordered(s, pass, Distinct(Ids(s[..n - 1], pass)))
    ensures Ordered(s, pass, Distinct(Ids(s[..n], pass)))
  {
    hide Ids, Distinct, Ordered, SomePrecedes;
    var listed := Ids(s[..n - 1], pass);
    var before := Distinct(listed);
    OneId(s[n - 1], pass);
    if Ids([s[n - 1]], pass) == [] {
      assert listed + [] == listed;
    } else {
      var id := s[n - 1].rule.id;
      DistinctStep(listed, id);
      if id !in before {
        forall x | 0 <= x < |before| ensures SomePrecedes(s, pass, before[x], id) {
          NewcomerLast(s, pass, n, id, before[x]);
        }
        OneMoreOrdered(s, pass, before, id);
      }
    }
  }

  lemma OneMoreOrdered(s: seq<Placed>, pass: Rule -> bool, ids: seq<string>, id: string)
    requires Ordered(s, pass, ids) && id !in ids
    requires forall x :: 0 <= x < |ids| ==> SomePrecedes(s, pass, ids[x], id)
    ensures Ordered(s, pass, ids + [id])
  {
    hide Precedes;
    var longer := ids + [id];
    forall x, y | 0 <= x < y < |longer|
      ensures longer[x] != longer[y] && SomePrecedes(s, pass, longer[x], longer[y])
    {
      assert longer[x] == ids[x];
      if y < |ids| { assert longer[y] == ids[y]; } else { assert longer[y] == id; }
    }
  }

  lemma NewcomerLast(s: seq<Placed>, pass: Rule -> bool, n: nat, id: string, other: string)
    requires 0 < n <= |s| && id != "" && other in Ids(s[..n - 1], pass) && id !in Ids(s[..n - 1], pass)
    ensures SomePrecedes(s, pass, other, id)
  {
    hide Ids;
    ListedBears(s, n - 1, pass, id);
    ListedBears(s, n - 1, pass, other);
    var k: nat :| k < n - 1 && Bears(s, pass, other, k);
    assert Precedes(s, pass, other, id, k);
  }

  lemma LeadsFrom(p: Policy, rows: seq<Row>, c: Context, suppressing: bool, s: seq<Placed>, pass: Rule -> bool,
      id: string, other: string, k: nat)
    requires From(p, rows, s) && Tells(p, rows, c, suppressing, s, pass) && TriggersProof.InOrder(s)
    requires id != other && Precedes(s, pass, id, other, k)
    ensures SomeLeads(p, rows, c, suppressing, id, other)
  {
    hide ValidRow, RowSuppresses, RowMatches, Acts;
    assert FromRow(p, rows, s[k]);
    RowExactly(p, rows[s[k].index]);
    forall j: nat | ActsAt(p, rows, c, suppressing, j) && RowId(rows[j]) == other
      ensures Sooner(rows[s[k].index], rows[j])
    {
      ActsActive(p, rows, c, suppressing, j);
      var l :| 0 <= l < |s| && s[l].index == j;
      assert FromRow(p, rows, s[l]);
      RowExactly(p, rows[j]);
      assert Bears(s, pass, other, l);
      assert NoLater(s[k], s[l]);
      Texts.BeforeExactly(id, other);
    }
    assert Leads(p, rows, c, suppressing, id, other, s[k].index);
  }

  lemma ActsActive(p: Policy, rows: seq<Row>, c: Context, suppressing: bool, i: nat)
    requires ActsAt(p, rows, c, suppressing, i)
    ensures i < |rows| && !Skipped(rows[i]) && ValidRow(p, rows[i])
  {
    hide ValidRow, RowSuppresses, RowMatches;
  }

  lemma IdsExactly(p: Policy, rows: seq<Row>, c: Context, suppressing: bool, s: seq<Placed>, pass: Rule -> bool)
    requires From(p, rows, s) && Tells(p, rows, c, suppressing, s, pass) && TriggersProof.InOrder(s)
    ensures IdsOf(p, rows, c, suppressing, Distinct(Ids(s, pass)))
  {
    hide ValidRow, RowSuppresses, RowMatches, Acts, TriggersProof.InOrder, Distinct, Ids, Precedes, SomeLeads;
    var ids := Distinct(Ids(s, pass));
    assert s[..|s|] == s;
    ListedInOrder(s, pass, |s|);
    forall id
      ensures id in ids <==> id != "" && exists i: nat :: ActsAt(p, rows, c, suppressing, i) && RowId(rows[i]) == id
    {
      ListedActs(p, rows, c, suppressing, s, pass, id);
    }
    forall x, y | 0 <= x < y < |ids| ensures SomeLeads(p, rows, c, suppressing, ids[x], ids[y]) {
      var k: nat :| Precedes(s, pass, ids[x], ids[y], k);
      LeadsFrom(p, rows, c, suppressing, s, pass, ids[x], ids[y], k);
    }
  }

  lemma ListedActs(p: Policy, rows: seq<Row>, c: Context, suppressing: bool, s: seq<Placed>, pass: Rule -> bool,
      id: string)
    requires From(p, rows, s) && Tells(p, rows, c, suppressing, s, pass)
    ensures id in Ids(s, pass) <==>
      id != "" && exists i: nat :: ActsAt(p, rows, c, suppressing, i) && RowId(rows[i]) == id
  {
    hide ValidRow, RowSuppresses, RowMatches, Acts, Ids;
    assert s[..|s|] == s;
    ListedBears(s, |s|, pass, id);
    if k: nat :| k < |s| && Bears(s, pass, id, k) {
      assert FromRow(p, rows, s[k]);
      RowExactly(p, rows[s[k].index]);
      assert ActsAt(p, rows, c, suppressing, s[k].index);
    }
    if i: nat :| ActsAt(p, rows, c, suppressing, i) && RowId(rows[i]) == id {
      ActsActive(p, rows, c, suppressing, i);
      var k :| 0 <= k < |s| && s[k].index == i;
      assert FromRow(p, rows, s[k]);
      RowExactly(p, rows[i]);
      assert Bears(s, pass, id, k);
    }
  }

  // ---- main results ---------------------------------------------------------------------------

  /**
   * The decision on rows that can all be read: without an active one the form attaches; otherwise it does not if some
   * row suppresses, and does if some row matches. The identifiers are those of the rows that decided it.
   */
  lemma DecisionExactly(p: Policy, rows: seq<Row>, c: Context)
    requires |rows| <= 1000 && AllRead(p, rows)
    ensures Decide(p, rows, c).Yes?
    ensures var d := Decide(p, rows, c).value;
      if !SomeActive(rows) then d == Decision(true, "No active trigger rules configured", [])
      else if SomeActs(p, rows, c, true) then
        !d.attach && d.reason == "Suppression rule matched" && IdsOf(p, rows, c, true, d.matchedRuleIds)
      else if SomeActs(p, rows, c, false) then
        d.attach && d.reason == "Trigger rule matched" && IdsOf(p, rows, c, false, d.matchedRuleIds)
      else d == Decision(false, "No trigger rule matched", [])
  {
    hide ValidRow, RowSuppresses, RowMatches, Acts, IdsOf, SomeActs, FromRow, Suppresses, Matches, RuleOf, Distinct,
        Ids;
    ActiveExactly(p, rows, 0);
    var s := Active(p, rows, 0).value;
    var suppresses, matches := (r: Rule) => Suppresses(r, c), (r: Rule) => Matches(r, c);
    hide Active;
    if s != [] {
      assert FromRow(p, rows, s[0]);
      FromActive(p, rows, s[0]);
      SortedFrom(p, rows, s);
      hide TriggersProof.InOrder;
      TestsTell(p, rows, c, Sort(s), suppresses, matches);
      hide Tells;
      SomeTold(p, rows, c, true, Sort(s), suppresses);
      SomeTold(p, rows, c, false, Sort(s), matches);
      IdsExactly(p, rows, c, true, Sort(s), suppresses);
      IdsExactly(p, rows, c, false, Sort(s), matches);
    }
  }

  lemma FromActive(p: Policy, rows: seq<Row>, x: Placed)
    requires FromRow(p, rows, x)
    ensures SomeActive(rows)
  {
  }

  /** There is no decision for too many rows or if some row cannot be read; the first such row gives the reason. */
  lemma RefusalExactly(p: Policy, rows: seq<Row>, c: Context)
    ensures |rows| > 1000 ==> Decide(p, rows, c) == No(RowLimit)
    ensures |rows| <= 1000 ==> forall i: nat :: FirstBad(p, rows, i) ==>
      Decide(p, rows, c) == No(if rows[i].active == Malformed then BadActiveFlag
        else if rows[i].wrongTypes then BadRow else BadDefinition)
  {
    hide ValidRow, Active;
    forall i: nat | FirstBad(p, rows, i)
      ensures Active(p, rows, 0) == No(if rows[i].active == Malformed then BadActiveFlag
      else if rows[i].wrongTypes then BadRow else BadDefinition)
    {
      RefusedExactly(p, rows, 0, i);
    }
  }

  ghost predicate FirstBad(p: Policy, rows: seq<Row>, i: nat)
  {
    && i < |rows| && !Skipped(rows[i]) && !ValidRow(p, rows[i])
    && forall j :: 0 <= j < i ==> Skipped(rows[j]) || ValidRow(p, rows[j])
  }

  /**
   * In which context a caller's rows are judged: its own if that is known to be a snapshot, and otherwise a snapshot of
   * it, without which there is no decision; if there is nothing to judge, in none.
   */
  lemma ContextExactly(p: Policy, rows: seq<Row>, c: Context, built: set<nat>, task: Snapshot.Task)
    ensures |rows| > 1000 || !AllRead(p, rows) || !SomeActive(rows) || (c.root.Ref? && c.root.id in built) ==>
      DecideIn(p, rows, c, built, task) == Decide(p, rows, c)
    ensures |rows| <= 1000 && AllRead(p, rows) && SomeActive(rows) && !(c.root.Ref? && c.root.id in built) ==>
      match Snapshot.Snap(task, SnapshotAgain.EntryOf(c.root))
      case Rejected(why) => DecideIn(p, rows, c, built, task) == No(BadContext(why))
      case Copied(v, s) =>
        DecideIn(p, rows, c, built, task)
          == Decide(p, rows, Context(s.out, if v.Ref? && v.id in s.out && s.out[v.id].Rec? then v else Null, c.host))
  {
    hide ValidRow, RuleOf, Snapshot.Snap, DecideSorted, FromRow;
    ActiveExactly(p, rows, 0);
    hide Active;
    if Active(p, rows, 0).Yes? && Active(p, rows, 0).value != [] {
      assert FromRow(p, rows, Active(p, rows, 0).value[0]);
      FromActive(p, rows, Active(p, rows, 0).value[0]);
    }
  }
}
