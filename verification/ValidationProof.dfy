/** Wildcard paths are expanded exactly, and required rules find exactly the blanks. */
module ValidationProof {
  import opened Options
  import opened Values
  import opened Evaluator
  import opened ValidationRules
  import opened Sequences
  import Lexer
  import Texts

  // ---- list indices as text -----------------------------------------------------------------------------

  lemma {:induction false} DecimalReads(n: nat)
    ensures Texts.AllDigits(Decimal(n)) && Lexer.WholeValue(Decimal(n)) == n && (n > 0 ==> Decimal(n)[0] != '0')
  {
    if n < 10 {
      assert Decimal(n)[..0] == "";
    } else {
      DecimalReads(n / 10);
      var s := Decimal(n);
      assert s[..|s| - 1] == Decimal(n / 10);
    }
  }

  lemma DecimalIndexes(n: nat)
    ensures Index(Decimal(n)) == Some(n) && Decimal(n) != "length" && Texts.Lacks(Decimal(n), '.')
  {
    DecimalReads(n);
    assert Lexer.IsDigit(Decimal(n)[0]) && !Lexer.IsDigit("length"[0]);
    if n == 0 { assert Decimal(0) == "0"; }
  }

  lemma ItemRead(h: Heap, root: Value, i: nat)
    requires IsArray(h, root) && i < |Elements(h, root).value|
    ensures Next(h, root, Decimal(i)) == Elements(h, root).value[i]
  {
    DecimalIndexes(i);
  }

  // ---- what a path covers -------------------------------------------------------------------------------

  /** The value at the end of a path. */
  function ReadPath(h: Heap, v: Value, path: seq<string>): Value
    decreases |path|
  {
    if path == [] then v else ReadPath(h, Next(h, v, path[0]), path[1..])
  }

  ghost predicate ItemOf(h: Heap, list: Value, part: string)
  {
    exists i: nat :: part == Decimal(i) && IsArray(h, list) && i < |Elements(h, list).value|
  }

  /** The path is the pattern with every star replaced by an index of the list that the path reaches there. */
  ghost predicate Covers(h: Heap, root: Value, parts: seq<string>, path: seq<string>)
  {
    |path| == |parts| && forall k :: 0 <= k < |parts| ==>
      if parts[k] == STAR then ItemOf(h, ReadPath(h, root, path[..k]), path[k]) else path[k] == parts[k]
  }

  lemma CoversStep(h: Heap, root: Value, parts: seq<string>, path: seq<string>)
    requires parts != [] && path != []
    ensures Covers(h, root, parts, path) <==>
      (if parts[0] == STAR then ItemOf(h, root, path[0]) else path[0] == parts[0]) &&
          Covers(h, Next(h, root, path[0]), parts[1..], path[1..])
  {
    hide ItemOf, Next;
    assert path[..0] == [];
    forall k | 1 <= k < |path|
      ensures ReadPath(h, root, path[..k]) == ReadPath(h, Next(h, root, path[0]), path[1..][..k - 1])
    {
      assert path[..k][1..] == path[1..][..k - 1];
    }
    if |parts| == |path| {
      var rest, tail := parts[1..], path[1..];
      assert forall k :: 1 <= k < |parts| ==> parts[k] == rest[k - 1] && path[k] == tail[k - 1];
      if Covers(h, root, parts, path) {
        forall k | 0 <= k < |rest|
          ensures if rest[k] == STAR then ItemOf(h, ReadPath(h, Next(h, root, path[0]), tail[..k]), tail[k])
              else tail[k] == rest[k]
        {
          assert parts[k + 1] == rest[k] && path[k + 1] == tail[k];
        }
      }
      if Covers(h, Next(h, root, path[0]), rest, tail) {
        forall k | 1 <= k < |parts|
          ensures if parts[k] == STAR then ItemOf(h, ReadPath(h, root, path[..k]), path[k]) else path[k] == parts[k]
        {
          assert parts[k] == rest[k - 1] && path[k] == tail[k - 1];
        }
      }
    }
  }

  // ---- the paths that are expanded ------------------------------------------------------------------------

  function Prefixed(part: string, paths: seq<seq<string>>): seq<seq<string>> {
    seq(|paths|, i requires 0 <= i < |paths| => [part] + paths[i])
  }

  /** The expanded paths, in the order of the entries. */
  function Paths(h: Heap, root: Value, parts: seq<string>): seq<seq<string>>
    decreases |parts|, 0
  {
    if parts == [] then [[]]
    else if parts[0] == STAR then if IsArray(h, root) then ItemPaths(h, Elements(h, root).value, parts[1..], 0) else []
    else Prefixed(parts[0], Paths(h, Next(h, root, parts[0]), parts[1..]))
  }

  function ItemPaths(h: Heap, items: seq<Value>, parts: seq<string>, index: nat): seq<seq<string>>
    requires index <= |items|
    decreases |parts|, 1, |items| - index
  {
    if index == |items| then []
    else Prefixed(Decimal(index), Paths(h, items[index], parts)) + ItemPaths(h, items, parts, index + 1)
  }

  ghost predicate Lists(h: Heap, root: Value, found: seq<Found>, prefix: seq<string>, paths: seq<seq<string>>)
  {
    |found| == |paths| &&
        forall k :: 0 <= k < |paths| ==>
            found[k] == Found(Texts.Join(prefix + paths[k], '.'), ReadPath(h, root, paths[k]))
  }

  lemma PrefixedLists(h: Heap, root: Value, part: string, found: seq<Found>, prefix: seq<string>,
      paths: seq<seq<string>>)
    requires Lists(h, Next(h, root, part), found, prefix + [part], paths)
    ensures Lists(h, root, found, prefix, Prefixed(part, paths))
  {
    hide Next, Texts.Join;
    var longer := Prefixed(part, paths);
    forall k | 0 <= k < |longer|
      ensures found[k] == Found(Texts.Join(prefix + longer[k], '.'), ReadPath(h, root, longer[k]))
    {
      assert prefix + [part] + paths[k] == prefix + longer[k];
      assert longer[k][1..] == paths[k];
    }
  }

  /** Every entry holds the value that its path reads. */
  lemma {:induction false} EntriesRead(h: Heap, root: Value, parts: seq<string>, prefix: seq<string>)
    ensures Lists(h, root, ResolveAll(h, root, parts, prefix), prefix, Paths(h, root, parts))
    decreases |parts|, 0
  {
    hide Next, Texts.Join;
    if parts == [] {
      assert prefix + [] == prefix;
    } else if parts[0] == STAR {
      if IsArray(h, root) { ItemsRead(h, root, parts[1..], prefix, 0); }
    } else {
      EntriesRead(h, Next(h, root, parts[0]), parts[1..], prefix + [parts[0]]);
      var next := Next(h, root, parts[0]);
      PrefixedLists(h, root, parts[0], ResolveAll(h, next, parts[1..], prefix + [parts[0]]), prefix,
          Paths(h, next, parts[1..]));
    }
  }

  lemma {:induction false} ItemsRead(h: Heap, root: Value, parts: seq<string>, prefix: seq<string>, index: nat)
    requires IsArray(h, root) && index <= |Elements(h, root).value|
    ensures var items := Elements(h, root).value;
      Lists(h, root, ResolveItems(h, items, parts, prefix, index), prefix, ItemPaths(h, items, parts, index))
    decreases |parts|, 1, |Elements(h, root).value| - index
  {
    hide Next, Texts.Join, Elements, ReadPath, Lists, Prefixed;
    var items := Elements(h, root).value;
    if index == |items| { NoneListed(h, root, prefix); } else {
      ItemRead(h, root, index);
      EntriesRead(h, items[index], parts, prefix + [Decimal(index)]);
      PrefixedLists(h, root, Decimal(index), ResolveAll(h, items[index], parts, prefix + [Decimal(index)]), prefix,
          Paths(h, items[index], parts));
      ItemsRead(h, root, parts, prefix, index + 1);
      ListsJoin(h, root, prefix, ResolveAll(h, items[index], parts, prefix + [Decimal(index)]),
          ResolveItems(h, items, parts, prefix, index + 1),
                Prefixed(Decimal(index), Paths(h, items[index], parts)), ItemPaths(h, items, parts, index + 1));
    }
  }

  lemma NoneListed(h: Heap, root: Value, prefix: seq<string>)
    ensures Lists(h, root, [], prefix, [])
  {
  }

  lemma ListsJoin(h: Heap, root: Value, prefix: seq<string>, a: seq<Found>, b: seq<Found>, p: seq<seq<string>>,
      q: seq<seq<string>>)
    requires Lists(h, root, a, prefix, p) && Lists(h, root, b, prefix, q)
    ensures Lists(h, root, a + b, prefix, p + q)
  {
    hide Next, Texts.Join, ReadPath;
  }

  // ---- exactly the covered paths, each once ------------------------------------------------------------------

  lemma PrefixedHas(part: string, paths: seq<seq<string>>, path: seq<string>)
    ensures path in Prefixed(part, paths) <==> path != [] && path[0] == part && path[1..] in paths
  {
    if path != [] && path[0] == part && path[1..] in paths {
      var i :| 0 <= i < |paths| && paths[i] == path[1..];
      assert Prefixed(part, paths)[i] == path;
    }
  }

  /** Exactly the covered paths are expanded. */
  lemma {:induction false} PathsCovered(h: Heap, root: Value, parts: seq<string>, path: seq<string>)
    ensures path in Paths(h, root, parts) <==> Covers(h, root, parts, path)
    decreases |parts|, 1
  {
    hide Next, ItemOf, Covers;
    if parts == [] {
      NothingCovered(h, root, path);
    } else if path == [] {
      NoEmptyPath(h, root, parts);
    } else {
      CoversStep(h, root, parts, path);
      if parts[0] == STAR {
        StarCovered(h, root, parts, path);
      } else {
        PathsCovered(h, Next(h, root, parts[0]), parts[1..], path[1..]);
        PrefixedHas(parts[0], Paths(h, Next(h, root, parts[0]), parts[1..]), path);
      }
    }
  }

  lemma NothingCovered(h: Heap, root: Value, path: seq<string>)
    ensures Covers(h, root, [], path) <==> path == []
  {
  }

  lemma NoEmptyPath(h: Heap, root: Value, parts: seq<string>)
    requires parts != []
    ensures [] !in Paths(h, root, parts) && !Covers(h, root, parts, [])
  {
    if parts[0] != STAR { PrefixedHas(parts[0], Paths(h, Next(h, root, parts[0]), parts[1..]), []); }
    else if IsArray(h, root) { NoEmptyItemPath(h, Elements(h, root).value, parts[1..], 0); }
  }

  lemma {:induction false} NoEmptyItemPath(h: Heap, items: seq<Value>, parts: seq<string>, index: nat)
    requires index <= |items|
    ensures [] !in ItemPaths(h, items, parts, index)
    decreases |items| - index
  {
    if index < |items| {
      NoEmptyItemPath(h, items, parts, index + 1);
      PrefixedHas(Decimal(index), Paths(h, items[index], parts), []);
    }
  }

  lemma {:induction false} StarCovered(h: Heap, root: Value, parts: seq<string>, path: seq<string>)
    requires parts != [] && parts[0] == STAR && path != []
    ensures path in Paths(h, root, parts) <==>
            ItemOf(h, root, path[0]) && Covers(h, Next(h, root, path[0]), parts[1..], path[1..])
    decreases |parts|, 0
  {
    hide Covers, Next, Elements;
    if IsArray(h, root) {
      var items := Elements(h, root).value;
      ItemPathsHave(h, items, parts[1..], 0, path);
      if ItemOf(h, root, path[0]) {
        var i: nat :| path[0] == Decimal(i) && i < |items|;
        ItemRead(h, root, i);
        PathsCovered(h, items[i], parts[1..], path[1..]);
        forall j: nat | Decimal(j) == Decimal(i) ensures j == i { DecimalIndexes(i); DecimalIndexes(j); }
      }
    }
  }

  lemma {:induction false} ItemPathsHave(h: Heap, items: seq<Value>, parts: seq<string>, index: nat, path: seq<string>)
    requires index <= |items| && path != []
    ensures path in ItemPaths(h, items, parts, index) <==>
      exists i: nat :: index <= i < |items| && path[0] == Decimal(i) && path[1..] in Paths(h, items[i], parts)
    decreases |items| - index
  {
    hide Paths, Decimal;
    if index < |items| {
      ItemPathsHave(h, items, parts, index + 1, path);
      PrefixedHas(Decimal(index), Paths(h, items[index], parts), path);
    }
  }

  lemma PrefixedOnce(part: string, paths: seq<seq<string>>)
    requires Once(paths)
    ensures Once(Prefixed(part, paths))
  {
    var longer := Prefixed(part, paths);
    forall i, j | 0 <= i < j < |longer| ensures longer[i] != longer[j] {
      assert longer[i][1..] == paths[i] && longer[j][1..] == paths[j];
    }
  }

  /** Each of them once. */
  lemma {:induction false} PathsOnce(h: Heap, root: Value, parts: seq<string>)
    ensures Once(Paths(h, root, parts))
    decreases |parts|, 0
  {
    if parts != [] {
      if parts[0] != STAR {
        PathsOnce(h, Next(h, root, parts[0]), parts[1..]);
        PrefixedOnce(parts[0], Paths(h, Next(h, root, parts[0]), parts[1..]));
      } else if IsArray(h, root) {
        ItemPathsOnce(h, Elements(h, root).value, parts[1..], 0);
      }
    }
  }

  lemma {:induction false} ItemPathsOnce(h: Heap, items: seq<Value>, parts: seq<string>, index: nat)
    requires index <= |items|
    ensures Once(ItemPaths(h, items, parts, index))
    decreases |parts|, 1, |items| - index
  {
    hide Paths, Decimal;
    if index < |items| {
      PathsOnce(h, items[index], parts);
      ItemPathsOnce(h, items, parts, index + 1);
      var first, rest := Prefixed(Decimal(index), Paths(h, items[index], parts)), ItemPaths(h, items, parts, index + 1);
      PrefixedOnce(Decimal(index), Paths(h, items[index], parts));
      forall path | path in first ensures path !in rest {
        PrefixedHas(Decimal(index), Paths(h, items[index], parts), path);
        ItemPathsHave(h, items, parts, index + 1, path);
        forall i: nat | index < i ensures Decimal(i) != Decimal(index) { DecimalIndexes(i); DecimalIndexes(index); }
      }
      forall i, j | 0 <= i < j < |first + rest| ensures (first + rest)[i] != (first + rest)[j] {
        if i < |first| <= j { assert first[i] in first && rest[j - |first|] in rest; }
      }
    }
  }

  // ---- main results -----------------------------------------------------------------------------------------

  predicate Plain(parts: seq<string>) { forall k :: 0 <= k < |parts| ==> PathPart(parts[k]) }

  lemma PartsLackDots(h: Heap, root: Value, parts: seq<string>, path: seq<string>)
    requires Plain(parts) && Covers(h, root, parts, path)
    ensures forall k :: 0 <= k < |path| ==> Texts.Lacks(path[k], '.')
  {
    hide ReadPath;
    forall k | 0 <= k < |path| ensures Texts.Lacks(path[k], '.') {
      if parts[k] == STAR {
        var i: nat :| path[k] == Decimal(i);
        DecimalIndexes(i);
      } else {
        assert PathPart(parts[k]);
      }
    }
  }

  predicate PathsApart(found: seq<Found>) { forall i, j :: 0 <= i < j < |found| ==> found[i].path != found[j].path }

  /**
   * A valid pattern resolves to exactly the paths it covers, each in one entry with the value that the path reads, and
   * no two entries have one path text.
   */
  lemma ResolvesExactly(h: Heap, root: Value, parts: seq<string>)
    requires parts != [] && Plain(parts)
    ensures forall path :: Covers(h, root, parts, path) ==>
            Found(Texts.Join(path, '.'), ReadPath(h, root, path)) in ResolveAll(h, root, parts, [])
    ensures forall f :: f in ResolveAll(h, root, parts, []) ==> Resolved(h, root, parts, f)
    ensures PathsApart(ResolveAll(h, root, parts, []))
  {
    hide ReadPath, Texts.Join, Covers, ResolveAll, Paths;
    var found, paths := ResolveAll(h, root, parts, []), Paths(h, root, parts);
    EntriesRead(h, root, parts, []);
    PathsOnce(h, root, parts);
    assert forall path: seq<string> :: [] + path == path;
    forall path | Covers(h, root, parts, path) ensures Found(Texts.Join(path, '.'), ReadPath(h, root, path)) in found {
      PathsCovered(h, root, parts, path);
      var k :| 0 <= k < |paths| && paths[k] == path;
      assert found[k] == Found(Texts.Join([] + paths[k], '.'), ReadPath(h, root, paths[k]));
    }
    forall f | f in found ensures Resolved(h, root, parts, f) {
      var k :| 0 <= k < |found| && found[k] == f;
      PathsCovered(h, root, parts, paths[k]);
    }
    forall i, j | 0 <= i < j < |found| ensures found[i].path != found[j].path {
      assert paths[i] in paths && paths[j] in paths;
      PathsCovered(h, root, parts, paths[i]);
      PathsCovered(h, root, parts, paths[j]);
      JoinedApart(h, root, parts, paths[i], paths[j]);
    }
  }

  /** The entry stands for a covered path. */
  ghost predicate Resolved(h: Heap, root: Value, parts: seq<string>, f: Found)
  {
    exists path :: Covers(h, root, parts, path) && f == Found(Texts.Join(path, '.'), ReadPath(h, root, path))
  }

  lemma JoinedApart(h: Heap, root: Value, parts: seq<string>, a: seq<string>, b: seq<string>)
    requires parts != [] && Plain(parts) && Covers(h, root, parts, a) && Covers(h, root, parts, b) && a != b
    ensures Texts.Join(a, '.') != Texts.Join(b, '.')
  {
    PartsLackDots(h, root, parts, a);
    PartsLackDots(h, root, parts, b);
    Texts.SplitUndoesJoinExactly(a, '.');
    Texts.SplitUndoesJoinExactly(b, '.');
  }

  /**
   * Without a star there is exactly one entry, under the path itself, so that an applicable rule on it is always
   * checked.
   */
  lemma {:induction false} StarFreeOnce(h: Heap, root: Value, parts: seq<string>, prefix: seq<string>)
    requires STAR !in parts
    ensures ResolveAll(h, root, parts, prefix) == [Found(Texts.Join(prefix + parts, '.'), ReadPath(h, root, parts))]
    decreases |parts|
  {
    hide Next, Texts.Join;
    if parts == [] {
      assert prefix + parts == prefix;
    } else {
      assert parts[0] in parts;
      StarFreeOnce(h, Next(h, root, parts[0]), parts[1..], prefix + [parts[0]]);
      assert prefix + [parts[0]] + parts[1..] == prefix + parts;
    }
  }

  lemma {:induction false} BlanksExactly(rule: Rule, facts: Facts, found: seq<Found>, g: Finding)
    requires PathsApart(found)
    ensures g in Blanks(rule, facts, found) <==>
            exists f :: f in found && IsBlank(facts.h, f.value) && g == FindingOf(rule, Some(f.path), "")
    ensures var fs := Blanks(rule, facts, found);
            forall i, j :: 0 <= i < j < |fs| ==> fs[i].fieldPath != fs[j].fieldPath
    decreases |found|
  {
    hide IsBlank;
    if found != [] {
      BlanksExactly(rule, facts, found[1..], g);
      var rest := Blanks(rule, facts, found[1..]);
      forall i | 0 <= i < |rest| ensures rest[i].fieldPath != Some(found[0].path) {
        BlanksExactly(rule, facts, found[1..], rest[i]);
        var f :| f in found[1..] && rest[i] == FindingOf(rule, Some(f.path), "");
      }
      assert forall f :: f in found <==> f == found[0] || f in found[1..];
    }
  }

  /** The path is covered and blank, and the finding names it. */
  ghost predicate Reports(rule: Rule, facts: Facts, parts: seq<string>, path: seq<string>, f: Finding)
    requires parts != []
  {
    && Covers(facts.h, RootOf(facts, parts), parts, path) &&
        IsBlank(facts.h, ReadPath(facts.h, RootOf(facts, parts), path))
    && f == FindingOf(rule, Some(Texts.Join(path, '.')), "")
  }

  /** An applicable required rule with a valid path finds every blank its path covers, once, and nothing else. */
  lemma RequiredExactly(rule: Rule, target: Target, facts: Facts, parts: seq<string>, f: Finding)
    requires RuleAppliesTo(rule, target, facts.host) && Holds(rule.appliesWhen, facts) == Some(true) &&
             rule.kind == Required
    requires rule.fieldPath.Some? && SplitFieldPath(rule.fieldPath.value) == Some(parts)
    ensures parts != []
    ensures f in Findings(rule, target, facts) <==> exists path :: Reports(rule, facts, parts, path, f)
    ensures var fs := Findings(rule, target, facts);
            forall i, j :: 0 <= i < j < |fs| ==> fs[i].fieldPath != fs[j].fieldPath
  {
    hide Holds, RuleAppliesTo, ResolveAll, Covers, ReadPath, IsBlank, Texts.Join, FindingOf;
    var root := RootOf(facts, parts);
    var found := ResolveAll(facts.h, root, parts, []);
    assert forall k :: 0 <= k < |parts| ==> parts[k] in parts && PathPart(parts[k]);
    hide SplitFieldPath, PathPart;
    ResolvesExactly(facts.h, root, parts);
    BlanksExactly(rule, facts, found, f);
    if STAR !in parts { StarFreeOnce(facts.h, root, parts, []); }
    if f in Findings(rule, target, facts) {
      var e :| e in found && IsBlank(facts.h, e.value) && f == FindingOf(rule, Some(e.path), "");
      assert Resolved(facts.h, root, parts, e);
      var path :| Covers(facts.h, root, parts, path) && e == Found(Texts.Join(path, '.'),
          ReadPath(facts.h, root, path));
      assert Reports(rule, facts, parts, path, f);
    }
  }

  /** An outcome holds what its rules find, errors and warnings apart. */
  lemma {:induction false} CollectedExactly(rules: seq<Rule>, target: Target, facts: Facts, isError: bool, f: Finding)
    ensures f in Collected(rules, target, facts, isError) <==>
            exists rule :: rule in rules && rule.isError == isError && f in Findings(rule, target, facts)
    ensures f in Collected(rules, target, facts, isError) ==> f.isError == isError
    decreases |rules|
  {
    hide RuleAppliesTo, Holds;
    if rules != [] {
      CollectedExactly(rules[..|rules| - 1], target, facts, isError, f);
      assert forall r :: r in rules <==> r == rules[|rules| - 1] || r in rules[..|rules| - 1];
      FindingsSeverity(rules[|rules| - 1], target, facts);
    }
  }

  lemma FindingsSeverity(rule: Rule, target: Target, facts: Facts)
    ensures forall f :: f in Findings(rule, target, facts) ==> f.isError == rule.isError && f.code == rule.code
  {
    hide RuleAppliesTo, Holds, SplitFieldPath, RequiredValues;
    match SplitFieldPath(if rule.fieldPath.Some? then rule.fieldPath.value else "")
    case None =>
    case Some(parts) => BlanksSeverity(rule, facts, RequiredValues(facts, parts));
  }

  lemma {:induction false} BlanksSeverity(rule: Rule, facts: Facts, found: seq<Found>)
    ensures forall f :: f in Blanks(rule, facts, found) ==> f.isError == rule.isError && f.code == rule.code
    decreases |found|
  {
    hide IsBlank;
    if found != [] { BlanksSeverity(rule, facts, found[1..]); }
  }
}
