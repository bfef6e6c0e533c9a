/** What the trigger decision depends on, and on what it does not: row order, and copying the context first. */
module TriggersProof {
  import opened Options
  import opened Values
  import opened Evaluator
  import opened Triggers
  import NonInterference
  import Snapshot
  import SnapshotAgain
  import Texts

  // ---- permutations ---------------------------------------------------------------------------

  function Flat<T, U>(s: seq<T>, h: T -> seq<U>): seq<U> { if s == [] then [] else h(s[0]) + Flat(s[1..], h) }

  lemma {:induction false} FlatJoin<T, U>(s: seq<T>, t: seq<T>, h: T -> seq<U>)
    ensures Flat(s + t, h) == Flat(s, h) + Flat(t, h)
    decreases |s|
  {
    if s == [] {
      assert s + t == t;
    } else {
      FlatJoin(s[1..], t, h);
      assert (s + t)[0] == s[0] && (s + t)[1..] == s[1..] + t;
    }
  }

  lemma {:induction false} FlatPermutes<T, U>(s: seq<T>, t: seq<T>, h: T -> seq<U>)
    requires multiset(s) == multiset(t)
    ensures multiset(Flat(s, h)) == multiset(Flat(t, h))
    decreases |s|
  {
    if s == [] {
      assert |t| == |multiset(t)| == 0;
    } else {
      var x := s[0];
      assert x in multiset(s);
      assert x in multiset(t);
      var j :| 0 <= j < |t| && t[j] == x;
      var rest := t[..j] + t[j + 1..];
      Without(s, 0);
      Without(t, j);
      assert s[..0] + s[1..] == s[1..];
      FlatPermutes(s[1..], rest, h);
      FlatSplit(t, j, h);
    }
  }

  /** The elements but one. */
  lemma Without<T>(s: seq<T>, j: nat)
    requires j < |s|
    ensures multiset(s[..j] + s[j + 1..]) == multiset(s) - multiset{s[j]}
  {
    assert s == s[..j] + [s[j]] + s[j + 1..];
  }

  lemma FlatSplit<T, U>(t: seq<T>, j: nat, h: T -> seq<U>)
    requires j < |t|
    ensures multiset(Flat(t, h)) == multiset(h(t[j])) + multiset(Flat(t[..j] + t[j + 1..], h))
  {
    hide Flat;
    var x, y, z := Flat(t[..j], h), h(t[j]), Flat(t[j + 1..], h);
    FlatOne(t[j], h);
    FlatJoin(t[..j], [t[j]], h);
    FlatJoin(t[..j] + [t[j]], t[j + 1..], h);
    FlatJoin(t[..j], t[j + 1..], h);
    assert t == t[..j] + [t[j]] + t[j + 1..];
    assert Flat(t, h) == x + y + z;
    assert Flat(t[..j] + t[j + 1..], h) == x + z;
    MiddleFirst(x, y, z);
  }

  lemma FlatOne<T, U>(x: T, h: T -> seq<U>)
    ensures Flat([x], h) == h(x)
  {
    assert h(x) + [] == h(x);
  }

  lemma MiddleFirst<U>(x: seq<U>, y: seq<U>, z: seq<U>)
    ensures multiset(x + y + z) == multiset(y) + multiset(x + z)
  {
  }

  // ---- the order of rules ---------------------------------------------------------------------

  type Key = (real, string)

  function KeyOf(r: Rule): Key { (r.priority, r.id) }

  predicate KeyNoLater(a: Key, b: Key) { a.0 < b.0 || (a.0 == b.0 && (a.1 == b.1 || Texts.Before(a.1, b.1))) }

  lemma NoLaterChains(a: Placed, b: Placed, c: Placed)
    requires NoLater(a, b) && NoLater(b, c)
    ensures NoLater(a, c)
  {
    Texts.BeforeOrders(a.rule.id, b.rule.id);
    Texts.BeforeOrders(b.rule.id, c.rule.id);
    Texts.BeforeOrders(a.rule.id, c.rule.id);
    if Texts.Before(a.rule.id, b.rule.id) && Texts.Before(b.rule.id, c.rule.id) {
      Texts.BeforeChains(a.rule.id, b.rule.id, c.rule.id);
    }
  }

  lemma NoLaterTotal(a: Placed, b: Placed)
    ensures NoLater(a, b) || NoLater(b, a)
  {
    Texts.BeforeOrders(a.rule.id, b.rule.id);
  }

  lemma KeysEqual(a: Key, b: Key)
    requires KeyNoLater(a, b) && KeyNoLater(b, a)
    ensures a == b
  {
    Texts.BeforeOrders(a.1, b.1);
  }

  ghost predicate InOrder(s: seq<Placed>) { forall i, j :: 0 <= i < j < |s| ==> NoLater(s[i], s[j]) }

  lemma {:induction false} InsertInOrder(x: Placed, s: seq<Placed>)
    requires InOrder(s)
    ensures InOrder(Insert(x, s))
    decreases |s|
  {
    hide NoLater;
    if s != [] {
      if NoLater(x, s[0]) {
        forall k | 0 <= k < |s| ensures NoLater(x, s[k]) { if k > 0 { NoLaterChains(x, s[0], s[k]); } }
      } else {
        NoLaterTotal(x, s[0]);
        InsertInOrder(x, s[1..]);
        var r := Insert(x, s[1..]);
        forall k | 0 <= k < |r| ensures NoLater(s[0], r[k]) {
          assert r[k] in multiset(r);
          assert r[k] == x || r[k] in multiset(s[1..]);
          if r[k] != x { var j :| 0 <= j < |s[1..]| && s[1..][j] == r[k]; assert s[j + 1] == r[k]; }
        }
      }
    }
  }

  lemma {:induction false} SortInOrder(s: seq<Placed>)
    ensures InOrder(Sort(s))
    decreases |s|
  {
    if s != [] {
      SortInOrder(s[1..]);
      InsertInOrder(s[0], Sort(s[1..]));
    }
  }

  // ---- the identifiers that pass ----------------------------------------------------------------

  function PassingKey(pass: Rule -> bool): Placed -> seq<Key> {
    (x: Placed) => if pass(x.rule) then [KeyOf(x.rule)] else []
  }

  ghost predicate KeysInOrder(s: seq<Key>) { forall i, j :: 0 <= i < j < |s| ==> KeyNoLater(s[i], s[j]) }

  lemma {:induction false} PassingKeysInOrder(s: seq<Placed>, pass: Rule -> bool)
    requires InOrder(s)
    ensures KeysInOrder(Flat(s, PassingKey(pass)))
    ensures forall k :: k in Flat(s, PassingKey(pass)) ==> exists i :: 0 <= i < |s| && KeyOf(s[i].rule) == k
    decreases |s|
  {
    if s != [] {
      PassingKeysInOrder(s[1..], pass);
      var rest := Flat(s[1..], PassingKey(pass));
      var all := Flat(s, PassingKey(pass));
      forall k | k in rest
        ensures KeyNoLater(KeyOf(s[0].rule), k) && exists i :: 0 <= i < |s| && KeyOf(s[i].rule) == k
      {
        var i :| 0 <= i < |s[1..]| && KeyOf(s[1..][i].rule) == k;
        assert s[1..][i] == s[i + 1];
        assert NoLater(s[0], s[i + 1]);
      }
      assert forall i :: 0 <= i < |rest| ==> rest[i] in rest;
      forall k | k in all ensures exists i :: 0 <= i < |s| && KeyOf(s[i].rule) == k {
        if k !in rest { assert k == KeyOf(s[0].rule); }
      }
    }
  }

  lemma {:induction false} OrderedKeysUnique(a: seq<Key>, b: seq<Key>)
    requires KeysInOrder(a) && KeysInOrder(b) && multiset(a) == multiset(b)
    ensures a == b
    decreases |a|
  {
    hide KeysInOrder;
    SameLength(a, b);
    if a != [] {
      SameMember(a, b);
      SameMember(b, a);
      HeadsEqual(a, b);
      RestInOrder(a);
      RestInOrder(b);
      SameRest(a, b);
      OrderedKeysUnique(a[1..], b[1..]);
      assert a == [a[0]] + a[1..] && b == [b[0]] + b[1..];
    }
  }

  lemma SameLength<T>(a: seq<T>, b: seq<T>)
    requires multiset(a) == multiset(b)
    ensures |a| == |b|
  {
    assert |a| == |multiset(a)|;
  }

  lemma SameMember<T>(a: seq<T>, b: seq<T>)
    requires multiset(a) == multiset(b) && a != []
    ensures a[0] in b
  {
    assert a[0] in multiset(a);
  }

  lemma SameRest<T>(a: seq<T>, b: seq<T>)
    requires multiset(a) == multiset(b) && a != [] && b != [] && a[0] == b[0]
    ensures multiset(a[1..]) == multiset(b[1..])
  {
    HeadApart(a);
    HeadApart(b);
  }

  lemma HeadApart<T>(a: seq<T>)
    requires a != []
    ensures multiset(a[1..]) == multiset(a) - multiset{a[0]}
  {
    assert a == [a[0]] + a[1..];
    assert multiset(a) == multiset{a[0]} + multiset(a[1..]);
  }

  lemma RestInOrder(s: seq<Key>)
    requires KeysInOrder(s) && s != []
    ensures KeysInOrder(s[1..])
  {
    hide KeyNoLater;
  }

  lemma HeadsEqual(a: seq<Key>, b: seq<Key>)
    requires KeysInOrder(a) && KeysInOrder(b) && a != [] && b != [] && a[0] in b && b[0] in a
    ensures a[0] == b[0]
  {
    hide KeyNoLater;
    var i :| 0 <= i < |b| && b[i] == a[0];
    var j :| 0 <= j < |a| && a[j] == b[0];
    if i > 0 && j > 0 { KeysEqual(a[0], b[0]); }
  }

  function NamedIds(keys: seq<Key>): seq<string> {
    if keys == [] then [] else (if keys[0].1 != "" then [keys[0].1] else []) + NamedIds(keys[1..])
  }

  lemma {:induction false} IdsAreKeys(s: seq<Placed>, pass: Rule -> bool)
    ensures Ids(s, pass) == NamedIds(Flat(s, PassingKey(pass)))
    decreases |s|
  {
    if s != [] {
      IdsAreKeys(s[1..], pass);
      var rest := Flat(s[1..], PassingKey(pass));
      if pass(s[0].rule) { assert ([KeyOf(s[0].rule)] + rest)[1..] == rest; } else { assert [] + rest == rest; }
    }
  }

  function JustRule(): Placed -> seq<Rule> { (x: Placed) => [x.rule] }

  lemma {:induction false} KeysOfRules(s: seq<Placed>, pass: Rule -> bool)
    ensures Flat(s, PassingKey(pass)) == Flat(Flat(s, JustRule()), (r: Rule) => if pass(r) then [KeyOf(r)] else [])
    decreases |s|
  {
    if s != [] {
      KeysOfRules(s[1..], pass);
      assert ([s[0].rule] + Flat(s[1..], JustRule()))[1..] == Flat(s[1..], JustRule());
    }
  }

  /** Sorted lists of the same rules, wherever the rules stood, list the same identifiers in the same order. */
  lemma SortedIdsAgree(xs: seq<Placed>, ys: seq<Placed>, pass: Rule -> bool)
    requires multiset(Flat(xs, JustRule())) == multiset(Flat(ys, JustRule()))
    ensures Ids(Sort(xs), pass) == Ids(Sort(ys), pass)
  {
    FlatPermutes(Sort(xs), xs, JustRule());
    FlatPermutes(Sort(ys), ys, JustRule());
    var keyOfRule := (r: Rule) => if pass(r) then [KeyOf(r)] else [];
    FlatPermutes(Flat(Sort(xs), JustRule()), Flat(Sort(ys), JustRule()), keyOfRule);
    KeysOfRules(Sort(xs), pass);
    KeysOfRules(Sort(ys), pass);
    SortInOrder(xs);
    SortInOrder(ys);
    PassingKeysInOrder(Sort(xs), pass);
    PassingKeysInOrder(Sort(ys), pass);
    OrderedKeysUnique(Flat(Sort(xs), PassingKey(pass)), Flat(Sort(ys), PassingKey(pass)));
    IdsAreKeys(Sort(xs), pass);
    IdsAreKeys(Sort(ys), pass);
  }

  // ---- rules of rows --------------------------------------------------------------------------

  function RowRules(p: Policy): Row -> seq<Rule>
  {
    (row: Row) => match RuleOf(p, row) case Yes(Some(rule)) => [rule] case _ => []
  }

  lemma {:induction false} ActiveOfRows(p: Policy, rows: seq<Row>, index: nat)
    requires index <= |rows|
    ensures Active(p, rows, index).Yes? <==> forall i :: index <= i < |rows| ==> RuleOf(p, rows[i]).Yes?
    ensures Active(p, rows, index).Yes? ==>
            Flat(Active(p, rows, index).value, JustRule()) == Flat(rows[index..], RowRules(p))
    decreases |rows| - index
  {
    hide RuleOf;
    if index < |rows| {
      ActiveOfRows(p, rows, index + 1);
      assert rows[index..][1..] == rows[index + 1..] && rows[index..][0] == rows[index];
      if Active(p, rows, index).Yes? {
        var rest := Active(p, rows, index + 1).value;
        var rule := RuleOf(p, rows[index]).value;
        if rule.Some? {
          assert ([Placed(rule.value, index)] + rest)[1..] == rest;
          assert Flat([Placed(rule.value, index)] + rest, JustRule()) == [rule.value] + Flat(rest, JustRule());
        } else {
          assert [] + rest == rest && [] + Flat(rest, JustRule()) == Flat(rest, JustRule());
        }
      }
    }
  }

  lemma RuleAmong(s: seq<Placed>, rule: Rule)
    ensures rule in Flat(s, JustRule()) <==> exists i :: 0 <= i < |s| && s[i].rule == rule
    decreases |s|
  {
    if s != [] {
      RuleAmong(s[1..], rule);
      if exists i :: 0 <= i < |s| && s[i].rule == rule {
        var i :| 0 <= i < |s| && s[i].rule == rule;
        if i > 0 { assert s[1..][i - 1].rule == rule; }
      }
    }
  }

  lemma SomePass(s: seq<Placed>, pass: Rule -> bool)
    ensures (exists i :: 0 <= i < |s| && pass(s[i].rule)) <==> exists rule :: rule in Flat(s, JustRule()) && pass(rule)
  {
    if exists i :: 0 <= i < |s| && pass(s[i].rule) {
      var i :| 0 <= i < |s| && pass(s[i].rule);
      RuleAmong(s, s[i].rule);
    }
    if exists rule :: rule in Flat(s, JustRule()) && pass(rule) {
      var rule :| rule in Flat(s, JustRule()) && pass(rule);
      RuleAmong(s, rule);
      var i :| 0 <= i < |s| && s[i].rule == rule;
    }
  }

  lemma SortedSomePass(s: seq<Placed>, pass: Rule -> bool)
    ensures (exists i :: 0 <= i < |Sort(s)| && pass(Sort(s)[i].rule)) <==>
            exists rule :: rule in Flat(s, JustRule()) && pass(rule)
  {
    SomePass(Sort(s), pass);
    FlatPermutes(Sort(s), s, JustRule());
    assert forall rule :: rule in Flat(Sort(s), JustRule()) <==> rule in multiset(Flat(Sort(s), JustRule()));
    assert forall rule :: rule in Flat(s, JustRule()) <==> rule in multiset(Flat(s, JustRule()));
  }

  lemma DecidedByRules(xs: seq<Placed>, ys: seq<Placed>, c: Context)
    requires multiset(Flat(xs, JustRule())) == multiset(Flat(ys, JustRule()))
    ensures DecideSorted(Sort(xs), c) == DecideSorted(Sort(ys), c)
  {
    hide Suppresses, Matches, Sort, Flat;
    var suppresses := (r: Rule) => Suppresses(r, c);
    var matches := (r: Rule) => Matches(r, c);
    SortedIdsAgree(xs, ys, suppresses);
    SortedIdsAgree(xs, ys, matches);
    SortedSomePass(xs, suppresses); SortedSomePass(ys, suppresses);
    SortedSomePass(xs, matches); SortedSomePass(ys, matches);
    assert forall rule :: rule in Flat(xs, JustRule()) <==> rule in multiset(Flat(xs, JustRule()));
    assert forall rule :: rule in Flat(ys, JustRule()) <==> rule in multiset(Flat(ys, JustRule()));
    Agreement(Sort(xs), Sort(ys), c, suppresses, matches);
  }

  lemma Agreement(xs: seq<Placed>, ys: seq<Placed>, c: Context, suppresses: Rule -> bool, matches: Rule -> bool)
    requires suppresses == ((r: Rule) => Suppresses(r, c)) && matches == ((r: Rule) => Matches(r, c))
    requires Ids(xs, suppresses) == Ids(ys, suppresses) && Ids(xs, matches) == Ids(ys, matches)
    requires (exists i :: 0 <= i < |xs| && suppresses(xs[i].rule)) <==>
             (exists i :: 0 <= i < |ys| && suppresses(ys[i].rule))
    requires (exists i :: 0 <= i < |xs| && matches(xs[i].rule)) <==> (exists i :: 0 <= i < |ys| && matches(ys[i].rule))
    ensures DecideSorted(xs, c) == DecideSorted(ys, c)
  {
    hide Suppresses, Matches;
  }

  // ---- main results ---------------------------------------------------------------------------

  /** The same rows in any order, when every row is valid, give the same decision, reason and identifiers. */
  lemma RowOrderIrrelevant(p: Policy, rows: seq<Row>, other: seq<Row>, c: Context)
    requires multiset(rows) == multiset(other)
    requires forall i :: 0 <= i < |rows| ==> RuleOf(p, rows[i]).Yes?
    ensures Decide(p, rows, c) == Decide(p, other, c)
  {
    hide RuleOf, DecideSorted, Sort;
    assert |rows| == |multiset(rows)| == |other|;
    forall i | 0 <= i < |other| ensures RuleOf(p, other[i]).Yes? {
      assert other[i] in multiset(rows);
      var j :| 0 <= j < |rows| && rows[j] == other[i];
    }
    ActiveOfRows(p, rows, 0);
    ActiveOfRows(p, other, 0);
    var xs, ys := Active(p, rows, 0).value, Active(p, other, 0).value;
    assert rows[0..] == rows && other[0..] == other;
    FlatPermutes(rows, other, RowRules(p));
    FlatLength(xs);
    FlatLength(ys);
    assert |xs| == |multiset(Flat(xs, JustRule()))| == |ys|;
    DecidedByRules(xs, ys, c);
  }

  lemma {:induction false} FlatLength(s: seq<Placed>)
    ensures |Flat(s, JustRule())| == |s|
    decreases |s|
  {
    if s != [] { FlatLength(s[1..]); }
  }

  ghost predicate ActiveRule(p: Policy, rows: seq<Row>, rule: Rule)
  {
    exists i :: 0 <= i < |rows| && RuleOf(p, rows[i]) == Yes(Some(rule))
  }

  lemma {:induction false} ActiveRuleListed(p: Policy, rows: seq<Row>, rule: Rule)
    ensures rule in Flat(rows, RowRules(p)) <==> ActiveRule(p, rows, rule)
    decreases |rows|
  {
    hide RuleOf;
    if rows != [] {
      ActiveRuleListed(p, rows[1..], rule);
      if ActiveRule(p, rows[1..], rule) {
        var i :| 0 <= i < |rows[1..]| && RuleOf(p, rows[1..][i]) == Yes(Some(rule));
        assert rows[i + 1] == rows[1..][i];
      }
      if ActiveRule(p, rows, rule) {
        var i :| 0 <= i < |rows| && RuleOf(p, rows[i]) == Yes(Some(rule));
        if i > 0 { assert rows[1..][i - 1] == rows[i]; }
      }
    }
  }

  lemma {:induction false} IdListed(s: seq<Placed>, pass: Rule -> bool, id: string)
    ensures id in Ids(s, pass) <==> id != "" && exists i :: 0 <= i < |s| && pass(s[i].rule) && s[i].rule.id == id
    decreases |s|
  {
    if s != [] {
      IdListed(s[1..], pass, id);
      if id in Ids(s[1..], pass) {
        var i :| 0 <= i < |s[1..]| && pass(s[1..][i].rule) && s[1..][i].rule.id == id;
        assert s[i + 1] == s[1..][i];
      }
      if id != "" && exists i :: 0 <= i < |s| && pass(s[i].rule) && s[i].rule.id == id {
        var i :| 0 <= i < |s| && pass(s[i].rule) && s[i].rule.id == id;
        if i > 0 { assert s[1..][i - 1] == s[i]; }
      }
    }
  }

  /**
   * A form attaches exactly when it has no active rule, or no active rule's suppression holds and some active rule
   * matches; and the identifiers listed are exactly those of the rules that decided, each once.
   */
  lemma AttachesExactly(p: Policy, rows: seq<Row>, c: Context)
    requires Decide(p, rows, c).Yes?
    ensures var d := Decide(p, rows, c).value;
      var suppressed := exists r :: ActiveRule(p, rows, r) && Suppresses(r, c);
      && (d.attach <==>
          (forall r :: !ActiveRule(p, rows, r)) || (!suppressed && exists r :: ActiveRule(p, rows, r) && Matches(r, c)))
      && (forall id :: id in d.matchedRuleIds <==>
            id != "" && exists r :: ActiveRule(p, rows, r) && r.id == id && (if suppressed then Suppresses(r, c)
                else Matches(r, c)))
      && forall i, j :: 0 <= i < j < |d.matchedRuleIds| ==> d.matchedRuleIds[i] != d.matchedRuleIds[j]
  {
    hide RuleOf, Sort, Suppresses, Matches, Flat, Active;
    var xs := Active(p, rows, 0).value;
    ActiveOfRows(p, rows, 0);
    assert rows[0..] == rows;
    forall r ensures ActiveRule(p, rows, r) <==> HasRule(xs, r) {
      ActiveRuleListed(p, rows, r);
      RuleAmong(xs, r);
    }
    if xs != [] {
      assert HasRule(xs, xs[0].rule);
      SortKeepsRules(xs);
      DecidedFrom(Sort(xs), c);
      assert forall i :: 0 <= i < |Sort(xs)| ==> HasRule(Sort(xs), Sort(xs)[i].rule);
    }
  }

  ghost predicate HasRule(s: seq<Placed>, r: Rule) { exists i :: 0 <= i < |s| && s[i].rule == r }

  lemma SortKeepsRules(s: seq<Placed>)
    ensures forall r :: HasRule(s, r) <==> HasRule(Sort(s), r)
  {
    hide Sort;
    forall r ensures HasRule(s, r) <==> HasRule(Sort(s), r) {
      if HasRule(s, r) { SameMembers(s, Sort(s), r); }
      if HasRule(Sort(s), r) { SameMembers(Sort(s), s, r); }
    }
  }

  lemma SameMembers(s: seq<Placed>, t: seq<Placed>, r: Rule)
    requires multiset(s) == multiset(t) && HasRule(s, r)
    ensures HasRule(t, r)
  {
    var i :| 0 <= i < |s| && s[i].rule == r;
    assert s[i] in multiset(s);
    assert s[i] in multiset(t);
  }

  lemma {:induction false} DistinctOnce(ids: seq<string>)
    ensures forall i, j :: 0 <= i < j < |Distinct(ids)| ==> Distinct(ids)[i] != Distinct(ids)[j]
    decreases |ids|
  {
    if ids != [] { DistinctOnce(ids[..|ids| - 1]); }
  }

  lemma DecidedFrom(s: seq<Placed>, c: Context)
    ensures var d := DecideSorted(s, c);
      var suppressed := exists i :: 0 <= i < |s| && Suppresses(s[i].rule, c);
      && (d.attach <==> !suppressed && exists i :: 0 <= i < |s| && Matches(s[i].rule, c))
      && (forall id :: id in d.matchedRuleIds <==>
            id != "" && exists i :: 0 <= i < |s| && s[i].rule.id == id && (if suppressed then Suppresses(s[i].rule, c)
                else Matches(s[i].rule, c)))
      && forall i, j :: 0 <= i < j < |d.matchedRuleIds| ==> d.matchedRuleIds[i] != d.matchedRuleIds[j]
  {
    hide Suppresses, Matches;
    var suppresses := (r: Rule) => Suppresses(r, c);
    var matches := (r: Rule) => Matches(r, c);
    DistinctOnce(Ids(s, suppresses));
    DistinctOnce(Ids(s, matches));
    forall id
      ensures id in Ids(s, suppresses) <==>
              id != "" && exists i :: 0 <= i < |s| && suppresses(s[i].rule) && s[i].rule.id == id
    {
      IdListed(s, suppresses, id);
    }
    forall id
      ensures id in Ids(s, matches) <==>
              id != "" && exists i :: 0 <= i < |s| && matches(s[i].rule) && s[i].rule.id == id
    {
      IdListed(s, matches, id);
    }
  }

  // ---- the shortcut for contexts that are snapshots ---------------------------------------------

  lemma {:induction false} WalkRelated(m: map<nat, nat>, h: Heap, g: Heap, v: Value, w: Value, path: seq<string>)
    requires Isomorphic(m, h, g) && Related(m, v, w)
    ensures Related(m, Walk(h, v, path), Walk(g, w, path))
    decreases |path|
  {
    hide Isomorphic;
    if path != [] && IsObject(v) {
      OwnRelated(m, h, g, v, w, path[0]);
      if Own(h, v, path[0]).Some? {
        WalkRelated(m, h, g, Own(h, v, path[0]).value, Own(g, w, path[0]).value, path[1..]);
      }
    }
  }

  lemma IsomorphicSeenAlike(m: map<nat, nat>, h: Heap, g: Heap, v: Value, w: Value, paths: set<seq<string>>)
    requires Isomorphic(m, h, g) && Related(m, v, w)
    ensures NonInterference.SeenAlike(m, h, g, v, w, paths)
  {
    hide Isomorphic, Related, Walk, Own;
    forall path | path in paths ensures Related(m, Walk(h, v, path), Walk(g, w, path)) {
      WalkRelated(m, h, g, v, w, path);
    }
    OwnRelated(m, h, g, v, w, TABLES);
    OwnRelated(m, h, g, v, w, TODAY);
  }

  ghost predicate SameContext(m: map<nat, nat>, c: Context, d: Context)
  {
    Isomorphic(m, c.heap, d.heap) && Related(m, c.root, d.root) && c.host == d.host
  }

  lemma HoldsAlike(e: Condition, m: map<nat, nat>, c: Context, d: Context)
    requires SameContext(m, c, d)
    ensures Holds(e, c) == Holds(e, d)
  {
    hide Isomorphic, Run, IsTruthy, Related;
    IsomorphicSeenAlike(m, c.heap, d.heap, c.root, d.root, NonInterference.Paths(e));
    NonInterference.RunRelated(e, m, c.heap, d.heap, c.root, d.root, c.host);
    NonInterference.TruthRelated(m, c.heap, d.heap, Run(e, c.heap, c.root, c.host), Run(e, d.heap, d.root, d.host),
        c.host);
  }

  lemma SelectedAlike(code: string, m: map<nat, nat>, c: Context, d: Context)
    requires SameContext(m, c, d)
    ensures Selected(c, code) == Selected(d, code)
  {
    hide Isomorphic;
    OwnRelated(m, c.heap, d.heap, c.root, d.root, "coverageCodes");
    var v, w := OrElse(Own(c.heap, c.root, "coverageCodes"), Undefined),
        OrElse(Own(d.heap, d.root, "coverageCodes"), Undefined);
    ElementsRelated(m, c.heap, d.heap, v, w);
    if IsArray(c.heap, v) { TextAmong(m, Elements(c.heap, v).value, Elements(d.heap, w).value, code); }
  }

  lemma TextAmong(m: map<nat, nat>, vs: seq<Value>, ws: seq<Value>, text: string)
    requires AllRelated(m, vs, ws)
    ensures Text(text) in vs <==> Text(text) in ws
  {
    if Text(text) in vs { var i :| 0 <= i < |vs| && vs[i] == Text(text); assert ws[i] == Text(text); }
    if Text(text) in ws { var i :| 0 <= i < |ws| && ws[i] == Text(text); assert vs[i] == Text(text); }
  }

  lemma RuleAlike(rule: Rule, m: map<nat, nat>, c: Context, d: Context)
    requires SameContext(m, c, d)
    ensures Suppresses(rule, c) == Suppresses(rule, d) && Matches(rule, c) == Matches(rule, d)
  {
    hide SameContext, Holds, Selected;
    if rule.suppress.Some? { HoldsAlike(rule.suppress.value, m, c, d); }
    if rule.condition.Some? { HoldsAlike(rule.condition.value, m, c, d); }
    if rule.codes.Some? {
      forall i | 0 <= i < |rule.codes.value|
        ensures Selected(c, rule.codes.value[i]) == Selected(d, rule.codes.value[i])
      {
        SelectedAlike(rule.codes.value[i], m, c, d);
      }
    }
  }

  lemma {:induction false} IdsOfEqualTests(s: seq<Placed>, pass: Rule -> bool, pass': Rule -> bool)
    requires forall r :: pass(r) == pass'(r)
    ensures Ids(s, pass) == Ids(s, pass')
    decreases |s|
  {
    if s != [] { IdsOfEqualTests(s[1..], pass, pass'); }
  }

  /** Contexts that are the same graph up to renaming decide alike. */
  lemma DecidedAlike(p: Policy, rows: seq<Row>, m: map<nat, nat>, c: Context, d: Context)
    requires SameContext(m, c, d)
    ensures Decide(p, rows, c) == Decide(p, rows, d)
  {
    hide SameContext, Suppresses, Matches, Active, Sort;
    forall r: Rule ensures Suppresses(r, c) == Suppresses(r, d) && Matches(r, c) == Matches(r, d) {
      RuleAlike(r, m, c, d);
    }
    if |rows| <= MAX_ROWS && Active(p, rows, 0).Yes? {
      var s := Sort(Active(p, rows, 0).value);
      IdsOfEqualTests(s, r => Suppresses(r, c), r => Suppresses(r, d));
      IdsOfEqualTests(s, r => Matches(r, c), r => Matches(r, d));
    }
  }

  /** Some rule is to be judged, and in a context that is used as it is. */
  predicate ShortcutTaken(p: Policy, rows: seq<Row>, root: Value, built: set<nat>)
  {
    |rows| <= MAX_ROWS && Active(p, rows, 0).Yes? && Active(p, rows, 0).value != [] && root.Ref? && root.id in built
  }

  /**
   * For a record that is a snapshot, using it as it is and copying it again first give the same answer, if and only if
   * there is nothing to judge in it or it can be copied again.
   */
  lemma ShortcutIsSafeExactly(p: Policy, rows: seq<Row>, t: Snapshot.Task, e: Snapshot.Entry, host: Host,
      built: set<nat>, base: nat)
    requires Snapshot.Snap(t, e).Copied?
    requires var v, s := Snapshot.Snap(t, e).value, Snapshot.Snap(t, e).state; AsRecord(s.out, v) == v
    ensures var v, s := Snapshot.Snap(t, e).value, Snapshot.Snap(t, e).state;
      var again := SnapshotAgain.Second(t, s, base);
      (DecideIn(p, rows, Context(s.out, v, host), built, again) ==
          DecideIn(p, rows, Context(s.out, v, host), {}, again))
      <==> (!ShortcutTaken(p, rows, v, built) || Snapshot.Snap(again, SnapshotAgain.EntryOf(v)).Copied?)
  {
    hide Snapshot.Snap, Active, DecideSorted, Sort, Isomorphic;
    var v, s := Snapshot.Snap(t, e).value, Snapshot.Snap(t, e).state;
    var q := Snapshot.Snap(SnapshotAgain.Second(t, s, base), SnapshotAgain.EntryOf(v));
    if v.Ref? && q.Copied? {
      SnapshotAgain.CopiedAgainIsSame(t, e, base);
      RecordStays(q.state.copies, s.out, q.state.out, v, q.value);
      DecidedAlike(p, rows, q.state.copies, Context(s.out, v, host), Context(q.state.out, q.value, host));
    }
  }

  /** For a record that is a snapshot of a source without gaps the two always give the same answer. */
  lemma ShortcutIsSafe(p: Policy, rows: seq<Row>, t: Snapshot.Task, e: Snapshot.Entry, host: Host, built: set<nat>,
      base: nat)
    requires SnapshotAgain.Dense(t.source) && Snapshot.Snap(t, e).Copied?
    requires var v, s := Snapshot.Snap(t, e).value, Snapshot.Snap(t, e).state; AsRecord(s.out, v) == v
    ensures var v, s := Snapshot.Snap(t, e).value, Snapshot.Snap(t, e).state;
      var again := SnapshotAgain.Second(t, s, base);
      DecideIn(p, rows, Context(s.out, v, host), built, again) == DecideIn(p, rows, Context(s.out, v, host), {}, again)
  {
    hide Snapshot.Snap, SnapshotAgain.Dense, DecideIn, Isomorphic;
    SnapshotAgain.SnapshotOfSnapshot(t, e, base);
    ShortcutIsSafeExactly(p, rows, t, e, host, built, base);
  }

  /**
   * A built context is a snapshot of plain records and arrays, put together from an earlier snapshot of anything: the
   * two always give the same answer there.
   */
  lemma BuiltContextIsSafe(p: Policy, rows: seq<Row>, t: Snapshot.Task, h: Heap, root: Value, host: Host,
      built: set<nat>, base: nat)
    requires t.source == SnapshotAgain.PlainHeap(h)
    requires var r := Snapshot.Snap(t, SnapshotAgain.EntryOf(root));
             r.Copied? && AsRecord(r.state.out, r.value) == r.value
    ensures var Copied(v, s) := Snapshot.Snap(t, SnapshotAgain.EntryOf(root));
      var again := SnapshotAgain.Second(t, s, base);
      DecideIn(p, rows, Context(s.out, v, host), built, again) == DecideIn(p, rows, Context(s.out, v, host), {}, again)
  {
    hide Snapshot.Snap, DecideIn;
    SnapshotAgain.PlainIsDense(h);
    ShortcutIsSafe(p, rows, t, SnapshotAgain.EntryOf(root), host, built, base);
  }

  lemma RecordStays(m: map<nat, nat>, h: Heap, g: Heap, v: Value, w: Value)
    requires Isomorphic(m, h, g) && Related(m, v, w) && v.Ref? && AsRecord(h, v) == v
    ensures AsRecord(g, w) == w
  {
  }
}
