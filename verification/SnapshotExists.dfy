/**
 * Which values have a snapshot: among those nested no deeper than the limit, exactly those whose reachable nodes are
 * clean and whose visible edges and text, each counted once, stay within the totals.
 */
module SnapshotExists {
  import opened Values
  import opened Snapshot
  import opened SnapshotProof
  import opened SnapshotGraph
  import opened SnapshotAgain

  // ---- nesting --------------------------------------------------------------------------------

  /** A value that the copier looks into when it copies this node. */
  ghost predicate HasEntry(t: Task, o: Source, e: Entry)
  {
    match o
    case SRec(_, props) => e in Entries(VisibleFields(t, props))
    case SArr(items, _) => exists i :: 0 <= i < |items| && IsVisible(items[i]) && items[i].entry == e
  }

  /** Every walk along visible properties and slots, down to texts and numbers, has at most k steps. */
  ghost predicate NestedWithin(t: Task, e: Entry, k: nat)
    decreases k
  {
    e.ERef? && e.id in t.source ==>
      forall c :: HasEntry(t, t.source[e.id], c) ==> k > 0 && NestedWithin(t, c, k - 1)
  }

  lemma {:induction false} NestedWithinMore(t: Task, e: Entry, k: nat)
    requires NestedWithin(t, e, k)
    ensures NestedWithin(t, e, k + 1)
    decreases k
  {
    hide HasEntry;
    if e.ERef? && e.id in t.source {
      forall c | HasEntry(t, t.source[e.id], c) ensures NestedWithin(t, c, k) { NestedWithinMore(t, c, k - 1); }
    }
  }

  /** The number of steps of the longest such walk. */
  ghost function Height(t: Task, e: Entry, k: nat): (n: nat)
    requires NestedWithin(t, e, k)
    ensures n <= k && NestedWithin(t, e, n) && forall j: nat :: NestedWithin(t, e, j) ==> n <= j
    decreases k
  {
    if k == 0 || !NestedWithin(t, e, k - 1) then NothingShorter(t, e, k); k else Height(t, e, k - 1)
  }

  lemma {:induction false} NothingShorter(t: Task, e: Entry, k: nat)
    requires k > 0 ==> !NestedWithin(t, e, k - 1)
    ensures forall j: nat :: NestedWithin(t, e, j) ==> k <= j
  {
    forall j: nat | NestedWithin(t, e, j) ensures k <= j {
      if j < k { NestedWithinUpTo(t, e, j, k - 1); }
    }
  }

  lemma {:induction false} NestedWithinUpTo(t: Task, e: Entry, j: nat, k: nat)
    requires j <= k && NestedWithin(t, e, j)
    ensures NestedWithin(t, e, k)
    decreases k - j
  {
    if j < k {
      NestedWithinMore(t, e, j);
      NestedWithinUpTo(t, e, j + 1, k);
    }
  }

  lemma ChildIsEntry(t: Task, o: Source, id: nat)
    ensures HasChild(t, o, id) <==> HasEntry(t, o, ERef(id))
  {
    if o.SArr? {
      var items := o.items;
      if HasChild(t, o, id) {
        var i :| 0 <= i < |items| && VisibleItems(items)[i] == ERef(id);
        assert IsVisible(items[i]) && items[i].entry == ERef(id);
      }
      if HasEntry(t, o, ERef(id)) {
        var i :| 0 <= i < |items| && IsVisible(items[i]) && items[i].entry == ERef(id);
        assert VisibleItems(items)[i] == ERef(id);
      }
    }
  }

  lemma {:induction false} ReachedNested(t: Task, e: Entry, k: nat, ids: seq<nat>)
    requires NestedWithin(t, e, k) && Trail(t, ids) && e == ERef(ids[0])
    ensures NestedWithin(t, ERef(ids[|ids| - 1]), k)
    decreases |ids|
  {
    hide HasEntry, HasChild;
    if |ids| > 1 {
      var rest := ids[1..];
      assert HasChild(t, t.source[ids[0]], ids[1]);
      ChildIsEntry(t, t.source[ids[0]], ids[1]);
      forall i | 0 <= i < |rest| - 1 ensures HasChild(t, t.source[rest[i]], rest[i + 1]) {
        assert rest[i] == ids[i + 1] && rest[i + 1] == ids[i + 2];
      }
      ReachedNested(t, ERef(ids[1]), k - 1, rest);
      NestedWithinMore(t, ERef(ids[|ids| - 1]), k - 1);
    }
  }

  // ---- what is left to spend ------------------------------------------------------------------

  /** The cost of the listed nodes that are not done. */
  function Left(t: Task, ids: seq<nat>, done: set<nat>): Cost
  {
    if ids == [] then Cost(0, 0)
    else
      var last := ids[|ids| - 1];
      Plus(Left(t, ids[..|ids| - 1], done),
          if last in t.source && last !in done then NodeCost(t, t.source[last]) else Cost(0, 0))
  }

  lemma {:induction false} LeftUnmentioned(t: Task, ids: seq<nat>, done: set<nat>, id: nat)
    requires id !in ids
    ensures Left(t, ids, done + {id}) == Left(t, ids, done)
    decreases |ids|
  {
    hide NodeCost;
    if ids != [] { LeftUnmentioned(t, ids[..|ids| - 1], done, id); }
  }

  lemma {:induction false} LeftOne(t: Task, ids: seq<nat>, done: set<nat>, id: nat)
    requires id in ids && id in t.source && id !in done
    requires forall i, j :: 0 <= i < j < |ids| ==> ids[i] != ids[j]
    ensures Left(t, ids, done) == Plus(Left(t, ids, done + {id}), NodeCost(t, t.source[id]))
    decreases |ids|
  {
    hide NodeCost;
    var init, last := ids[..|ids| - 1], ids[|ids| - 1];
    if last == id { LeftUnmentioned(t, init, done, id); } else { LeftOne(t, init, done, id); }
  }

  lemma {:induction false} LeftAtFirst(t: Task, ids: seq<nat>)
    ensures Left(t, ids, {}) == CostOf(t, ids)
    decreases |ids|
  {
    hide NodeCost;
    if ids != [] { LeftAtFirst(t, ids[..|ids| - 1]); }
  }

  lemma {:induction false} LeftAtLast(t: Task, ids: seq<nat>, done: set<nat>)
    requires forall i :: 0 <= i < |ids| ==> ids[i] in done
    ensures Left(t, ids, done) == Cost(0, 0)
    decreases |ids|
  {
    hide NodeCost;
    if ids != [] { LeftAtLast(t, ids[..|ids| - 1], done); }
  }

  function Firsts(ids: seq<nat>, n: nat): set<nat>
    requires n <= |ids|
  {
    set i | 0 <= i < n :: ids[i]
  }

  /** Two lists of the same nodes cost the same. */
  lemma {:induction false} SameCost(t: Task, xs: seq<nat>, ys: seq<nat>, n: nat)
    requires n <= |xs| && forall i :: 0 <= i < |xs| ==> xs[i] in ys && xs[i] in t.source
    requires forall i, j :: 0 <= i < j < |xs| ==> xs[i] != xs[j]
    requires forall i, j :: 0 <= i < j < |ys| ==> ys[i] != ys[j]
    ensures CostOf(t, ys) == Plus(CostOf(t, xs[..n]), Left(t, ys, Firsts(xs, n)))
    decreases n
  {
    hide CostOf, Left, Firsts;
    FirstsStep(xs, n);
    CostOfStep(t, xs, n);
    if n == 0 {
      LeftAtFirst(t, ys);
    } else {
      SameCost(t, xs, ys, n - 1);
      LeftOne(t, ys, Firsts(xs, n - 1), xs[n - 1]);
    }
  }

  lemma FirstsStep(xs: seq<nat>, n: nat)
    requires n <= |xs| && forall i, j :: 0 <= i < j < |xs| ==> xs[i] != xs[j]
    ensures if n == 0 then Firsts(xs, n) == {}
            else xs[n - 1] !in Firsts(xs, n - 1) && Firsts(xs, n) == Firsts(xs, n - 1) + {xs[n - 1]}
  {
  }

  lemma CostOfStep(t: Task, xs: seq<nat>, n: nat)
    requires n <= |xs| && forall i :: 0 <= i < |xs| ==> xs[i] in t.source
    ensures CostOf(t, xs[..n]) ==
            if n == 0 then Cost(0, 0) else Plus(CostOf(t, xs[..n - 1]), NodeCost(t, t.source[xs[n - 1]]))
  {
    hide NodeCost;
    if n > 0 { assert xs[..n][..n - 1] == xs[..n - 1]; }
  }

  lemma ListsCostAlike(t: Task, e: Entry, xs: seq<nat>, ys: seq<nat>)
    requires Lists(t, e, xs) && Lists(t, e, ys)
    ensures CostOf(t, xs) == CostOf(t, ys)
  {
    hide Reaches, NodeCost;
    forall i | 0 <= i < |xs| ensures xs[i] in ys && xs[i] in t.source { ReachedIsThere(t, e, xs[i]); }
    SameCost(t, xs, ys, |xs|);
    assert xs[..|xs|] == xs;
    forall i | 0 <= i < |ys| ensures ys[i] in Firsts(xs, |xs|) { assert ys[i] in xs; }
    LeftAtLast(t, ys, Firsts(xs, |xs|));
  }

  lemma ReachedIsThere(t: Task, e: Entry, id: nat)
    requires Reaches(t, e, id)
    ensures id in t.source
  {
  }

  // ---- a copy that finds everything in order --------------------------------------------------

  ghost predicate RefBelow(ids: seq<nat>, rank: map<nat, nat>, e: Entry, k: nat)
  {
    e.ERef? ==> e.id in ids && e.id in rank && rank[e.id] < k
  }

  ghost predicate EntriesBelow(t: Task, ids: seq<nat>, rank: map<nat, nat>, o: Source, k: nat)
  {
    forall c :: HasEntry(t, o, c) ==> k > 0 && RefBelow(ids, rank, c, k)
  }

  /** The listed nodes are clean, closed under visible references, and ranked by the walks that leave them. */
  ghost predicate Ready(t: Task, ids: seq<nat>, rank: map<nat, nat>)
  {
    && (forall i, j :: 0 <= i < j < |ids| ==> ids[i] != ids[j])
    && forall id :: id in ids ==>
         id in t.source && id in rank && NodeClean(t, t.source[id]) &&
             EntriesBelow(t, ids, rank, t.source[id], rank[id])
  }

  ghost predicate Above(rank: map<nat, nat>, ancestors: set<nat>, k: nat)
  {
    forall a :: a in ancestors ==> a in rank && rank[a] >= k
  }

  function Unpaid(t: Task, ids: seq<nat>, ancestors: set<nat>, s: State): Cost {
    Left(t, ids, s.copies.Keys + ancestors)
  }

  /** There is room for this, besides for all nodes that are neither copied nor being copied. */
  ghost predicate Fits(t: Task, ids: seq<nat>, ancestors: set<nat>, s: State, c: Cost)
  {
    var l := Unpaid(t, ids, ancestors, s);
    s.nodes + l.visits + c.visits <= MAX_VALUES && s.text + l.text + c.text <= MAX_TOTAL_TEXT
  }

  ghost predicate Paid(t: Task, ids: seq<nat>, ancestors: set<nat>, s: State, s': State, c: Cost)
  {
    var l, l' := Unpaid(t, ids, ancestors, s), Unpaid(t, ids, ancestors, s');
    s'.nodes + l'.visits == s.nodes + l.visits + c.visits && s'.text + l'.text == s.text + l.text + c.text
  }

  lemma TextFits(t: Task, ids: seq<nat>, ancestors: set<nat>, s: State, length: nat, c: Cost)
    requires length <= MAX_TEXT && Fits(t, ids, ancestors, s, Plus(Cost(0, length), c))
    ensures AddText(s, length).Some?
    ensures var s' := AddText(s, length).value;
            Paid(t, ids, ancestors, s, s', Cost(0, length)) && Fits(t, ids, ancestors, s', c)
  {
    hide Left;
  }

  lemma {:induction false} FewDigits(n: nat)
    ensures Digits(n) <= n + 1
    decreases n
  {
    if n >= 10 { FewDigits(n / 10); }
  }

  lemma {:induction false} CopyFits(t: Task, ids: seq<nat>, rank: map<nat, nat>, k: nat, e: Entry, depth: nat,
                                      ancestors: set<nat>, s: State)
    requires depth <= MAX_DEPTH && depth + k <= MAX_DEPTH + 1 && Ready(t, ids, rank) && Above(rank, ancestors, k)
    requires Fine(t, e) && RefBelow(ids, rank, e, k) && Fits(t, ids, ancestors, s, EntryCost(e))
    ensures var r := Copy(t, e, depth, ancestors, s);
            r.Copied? && Paid(t, ids, ancestors, s, r.state, EntryCost(e))
    decreases MAX_DEPTH + 1 - depth, 0
  {
    hide CopyObject, Left, NodeCost, NodeClean, EntriesBelow;
    if e.ERef? && e.id !in s.copies {
      var o, s1, inside := t.source[e.id], s.(nodes := s.nodes + 1), ancestors + {e.id};
      LeftOne(t, ids, s.copies.Keys + ancestors, e.id);
      assert s.copies.Keys + ancestors + {e.id} == s1.copies.Keys + inside;
      ObjectFits(t, ids, rank, rank[e.id], o, depth, inside, s1);
      var r := CopyObject(t, o, depth, inside, s1);
      assert Finish(r.state, t, e.id, r.value).copies.Keys + ancestors == r.state.copies.Keys + inside;
    }
  }

  lemma {:induction false} ObjectFits(t: Task, ids: seq<nat>, rank: map<nat, nat>, k: nat, o: Source, depth: nat,
                                        ancestors: set<nat>, s: State)
    requires depth + k <= MAX_DEPTH && Ready(t, ids, rank) && Above(rank, ancestors, k)
    requires NodeClean(t, o) && EntriesBelow(t, ids, rank, o, k) && Fits(t, ids, ancestors, s, NodeCost(t, o))
    ensures var r := CopyObject(t, o, depth, ancestors, s);
            r.Copied? && Paid(t, ids, ancestors, s, r.state, NodeCost(t, o))
    decreases MAX_DEPTH - depth, 3
  {
    hide CopyProps, CopyItems, Fits, Paid, Ready, FieldsCost, ItemsCost, RefBelow;
    match o
    case SRec(_, props) =>
      forall c | c in Entries(VisibleFields(t, props)) ensures k > 0 && RefBelow(ids, rank, c, k) {
        assert HasEntry(t, o, c);
      }
      PropsFit(t, ids, rank, k, props, depth, ancestors, s);
    case SArr(items, _) =>
      forall i | 0 <= i < |items| && IsVisible(items[i]) ensures k > 0 && RefBelow(ids, rank, items[i].entry, k) {
        assert HasEntry(t, o, items[i].entry);
      }
      ItemsFit(t, ids, rank, k, items, 0, depth, ancestors, s);
  }

  lemma {:induction false} PropsFit(t: Task, ids: seq<nat>, rank: map<nat, nat>, k: nat, props: seq<(string, Slot)>,
                                      depth: nat, ancestors: set<nat>, s: State)
    requires depth + k <= MAX_DEPTH && Ready(t, ids, rank) && Above(rank, ancestors, k) && FieldsClean(t, props)
    requires forall c :: c in Entries(VisibleFields(t, props)) ==> k > 0 && RefBelow(ids, rank, c, k)
    requires Fits(t, ids, ancestors, s, FieldsCost(t, props))
    ensures var r := CopyProps(t, props, depth, ancestors, s);
            r.Copied? && Paid(t, ids, ancestors, s, r.state, FieldsCost(t, props))
    decreases MAX_DEPTH - depth, 2, |props|
  {
    hide CopyProp, Unpaid, Ready, FieldClean, FieldCost, RefBelow;
    if props != [] {
      var (key, slot) := props[0];
      var rest := Entries(VisibleFields(t, props[1..]));
      assert FieldClean(t, props[0].0, props[0].1);
      if !Hidden(t, key, slot) && IsVisible(slot) {
        assert Entries(VisibleFields(t, props)) == [slot.entry] + rest;
        assert slot.entry in Entries(VisibleFields(t, props));
      } else {
        assert Entries(VisibleFields(t, props)) == rest;
      }
      PropFits(t, ids, rank, k, key, slot, depth, ancestors, s, FieldsCost(t, props[1..]));
      PropsFit(t, ids, rank, k, props[1..], depth, ancestors, CopyProp(t, key, slot, depth, ancestors, s).state);
    }
  }

  /** One property, with room for what comes after it. */
  lemma {:induction false} PropFits(t: Task, ids: seq<nat>, rank: map<nat, nat>, k: nat, key: string, slot: Slot,
                                      depth: nat, ancestors: set<nat>, s: State, after: Cost)
    requires depth + k <= MAX_DEPTH && Ready(t, ids, rank) && Above(rank, ancestors, k) && FieldClean(t, key, slot)
    requires !Hidden(t, key, slot) && IsVisible(slot) ==> k > 0 && RefBelow(ids, rank, slot.entry, k)
    requires Fits(t, ids, ancestors, s, Plus(FieldCost(t, key, slot), after))
    ensures var r := CopyProp(t, key, slot, depth, ancestors, s);
            r.Copied? && Paid(t, ids, ancestors, s, r.state, FieldCost(t, key, slot)) &&
                Fits(t, ids, ancestors, r.state, after)
    decreases MAX_DEPTH - depth, 1
  {
    hide Copy, Unpaid, Ready, RefBelow, Fine;
    if !Hidden(t, key, slot) {
      TextFits(t, ids, ancestors, s, |key|, Plus(SlotCost(slot), after));
      if IsVisible(slot) { CopyFits(t, ids, rank, k, slot.entry, depth + 1, ancestors, AddText(s, |key|).value); }
    }
  }

  lemma {:induction false} ItemsFit(t: Task, ids: seq<nat>, rank: map<nat, nat>, k: nat, items: seq<Slot>, index: nat,
                                      depth: nat, ancestors: set<nat>, s: State)
    requires depth + k <= MAX_DEPTH && Ready(t, ids, rank) && Above(rank, ancestors, k)
    requires index <= |items| <= MAX_LIST && ItemsClean(t, items)
    requires forall i :: 0 <= i < |items| && IsVisible(items[i]) ==> k > 0 && RefBelow(ids, rank, items[i].entry, k)
    requires Fits(t, ids, ancestors, s, ItemsCost(items, index))
    ensures var r := CopyItems(t, items, index, depth, ancestors, s);
            r.Copied? && Paid(t, ids, ancestors, s, r.state, ItemsCost(items, index))
    decreases MAX_DEPTH - depth, 2, |items| - index
  {
    hide CopySlot, Unpaid, Ready, ItemCost, RefBelow, SlotClean;
    if index < |items| {
      SlotFits(t, ids, rank, k, items[index], index, depth, ancestors, s, ItemsCost(items, index + 1));
      ItemsFit(t, ids, rank, k, items, index +
          1, depth, ancestors, CopySlot(t, items[index], index, depth, ancestors, s).state);
    }
  }

  lemma {:induction false} SlotFits(t: Task, ids: seq<nat>, rank: map<nat, nat>, k: nat, slot: Slot, index: nat,
                                      depth: nat, ancestors: set<nat>, s: State, after: Cost)
    requires depth + k <= MAX_DEPTH && Ready(t, ids, rank) && Above(rank, ancestors, k) && SlotClean(t, slot)
    requires index < MAX_LIST && (IsVisible(slot) ==> k > 0 && RefBelow(ids, rank, slot.entry, k))
    requires Fits(t, ids, ancestors, s, Plus(ItemCost(slot, index), after))
    ensures var r := CopySlot(t, slot, index, depth, ancestors, s);
            r.Copied? && Paid(t, ids, ancestors, s, r.state, ItemCost(slot, index)) &&
                Fits(t, ids, ancestors, r.state, after)
    decreases MAX_DEPTH - depth, 1
  {
    hide Copy, Unpaid, Ready, RefBelow, Fine, Digits;
    if !slot.Hole? {
      FewDigits(index);
      TextFits(t, ids, ancestors, s, Digits(index), Plus(SlotCost(slot), after));
      if IsVisible(slot) {
        CopyFits(t, ids, rank, k, slot.entry, depth + 1, ancestors, AddText(s, Digits(index)).value);
      }
    }
  }

  // ---- main result ----------------------------------------------------------------------------

  /** What a caller can check: every reachable node is clean, and visits and text stay within their totals. */
  ghost predicate Copyable(t: Task, e: Entry, ids: seq<nat>)
  {
    var c := Plus(EntryCost(e), CostOf(t, ids));
    && Fine(t, e) && (forall id :: id in ids ==> id in t.source && NodeClean(t, t.source[id]))
    && c.visits <= MAX_VALUES && c.text <= MAX_TOTAL_TEXT
  }

  /** A value nested no deeper than the limit has a snapshot if and only if it is copyable. */
  lemma SnapshotExactly(t: Task, e: Entry, ids: seq<nat>)
    requires NestedWithin(t, e, MAX_DEPTH) && Lists(t, e, ids)
    ensures Snap(t, e).Copied? <==> Copyable(t, e, ids)
  {
    hide Copy, Reaches, NodeClean, Fine, Left, CostOf;
    if Snap(t, e).Copied? {
      SnapshotCostsEdgesOnce(t, e);
      ListsCostAlike(t, e, Snap(t, e).state.order, ids);
    }
    if Copyable(t, e, ids) {
      var rank := Ranks(t, e, ids);
      LeftAtFirst(t, ids);
      assert START.copies.Keys + {} == {};
      CopyFits(t, ids, rank, MAX_DEPTH + 1, e, 0, {}, START);
    }
  }

  lemma Ranks(t: Task, e: Entry, ids: seq<nat>) returns (rank: map<nat, nat>)
    requires NestedWithin(t, e, MAX_DEPTH) && Lists(t, e, ids) && Copyable(t, e, ids)
    ensures Ready(t, ids, rank) && RefBelow(ids, rank, e, MAX_DEPTH + 1)
  {
    hide HasEntry, Reaches, NodeClean, CostOf, Fine, NestedWithin;
    forall id | id in ids ensures NestedWithin(t, ERef(id), MAX_DEPTH) { ReachedNestedToo(t, e, id); }
    rank := map id | id in ids :: Height(t, ERef(id), MAX_DEPTH);
    forall id | id in ids ensures EntriesBelow(t, ids, rank, t.source[id], rank[id]) {
      forall c | HasEntry(t, t.source[id], c) ensures rank[id] > 0 && RefBelow(ids, rank, c, rank[id]) {
        EntryLower(t, e, ids, id, c);
      }
    }
    if e.ERef? { RootListed(t, e.id); }
  }

  lemma RootListed(t: Task, id: nat)
    requires Fine(t, ERef(id))
    ensures Reaches(t, ERef(id), id)
  {
    ReachesItself(t, id);
  }

  lemma ReachedNestedToo(t: Task, e: Entry, id: nat)
    requires NestedWithin(t, e, MAX_DEPTH) && Reaches(t, e, id)
    ensures NestedWithin(t, ERef(id), MAX_DEPTH)
  {
    hide HasEntry, HasChild, NestedWithin;
    var ids :| TrailTo(t, e, ids, id);
    ReachedNested(t, e, MAX_DEPTH, ids);
  }

  /** An entry of a reached node is lower than the node, and reached when it is a node. */
  lemma EntryLower(t: Task, e: Entry, ids: seq<nat>, id: nat, c: Entry)
    requires Lists(t, e, ids) && Copyable(t, e, ids) && id in ids && HasEntry(t, t.source[id], c)
    requires NestedWithin(t, ERef(id), MAX_DEPTH)
    ensures Height(t, ERef(id), MAX_DEPTH) > 0
    ensures c.ERef? ==> c.id in ids && NestedWithin(t, c, MAX_DEPTH)
                        && Height(t, c, MAX_DEPTH) < Height(t, ERef(id), MAX_DEPTH)
  {
    hide HasEntry, Reaches, CostOf;
    var k := Height(t, ERef(id), MAX_DEPTH);
    assert NestedWithin(t, ERef(id), k);
    assert k > 0 && NestedWithin(t, c, k - 1);
    NestedWithinUpTo(t, c, k - 1, MAX_DEPTH);
    if c.ERef? {
      EntryFine(t, t.source[id], c);
      ChildIsEntry(t, t.source[id], c.id);
      ReachedOn(t, e, id, c.id);
    }
  }

  lemma {:induction false} EntryFine(t: Task, o: Source, c: Entry)
    requires NodeClean(t, o) && HasEntry(t, o, c)
    ensures Fine(t, c)
  {
    hide Fine;
    match o
    case SRec(_, props) => FieldFine(t, props, c);
    case SArr(items, _) => var i :| 0 <= i < |items| && IsVisible(items[i]) && items[i].entry == c;
  }

  lemma {:induction false} FieldFine(t: Task, props: seq<(string, Slot)>, c: Entry)
    requires FieldsClean(t, props) && c in Entries(VisibleFields(t, props))
    ensures Fine(t, c)
    decreases |props|
  {
    hide Fine;
    if props != [] {
      var (key, slot) := props[0];
      assert FieldClean(t, props[0].0, props[0].1);
      var rest := Entries(VisibleFields(t, props[1..]));
      if !t.forbidden(key) && IsVisible(slot) {
        assert Entries(VisibleFields(t, props)) == [slot.entry] + rest;
        if c != slot.entry { FieldFine(t, props[1..], c); }
      } else {
        assert Entries(VisibleFields(t, props)) == rest;
        FieldFine(t, props[1..], c);
      }
    }
  }

  lemma ReachedOn(t: Task, e: Entry, id: nat, c: nat)
    requires Reaches(t, e, id) && id in t.source && HasChild(t, t.source[id], c) && c in t.source
    ensures Reaches(t, e, c)
  {
    hide HasChild;
    var ids :| TrailTo(t, e, ids, id);
    assert TrailTo(t, e, ids + [c], c);
  }

  // ---- copying a snapshot again ---------------------------------------------------------------

  lemma {:induction false} VisibleFieldsFine(t: Task, props: seq<(string, Slot)>)
    requires FieldsClean(t, props)
    ensures |VisibleFields(t, props)| <= |props|
    ensures forall i :: 0 <= i < |VisibleFields(t, props)| ==>
              |VisibleFields(t, props)[i].0| <= MAX_TEXT && Fine(t, VisibleFields(t, props)[i].1)
    decreases |props|
  {
    hide Fine;
    if props != [] {
      assert FieldClean(t, props[0].0, props[0].1);
      VisibleFieldsFine(t, props[1..]);
    }
  }

  lemma CopyIsFine(t: Task, f: State, base: nat, e: Entry, v: Value)
    requires CopyOf(f.copies, e, v) && Fine(t, e) && forall id :: id in f.copies ==> f.copies[id] in f.out
    ensures Fine(Second(t, f, base), EntryOf(v))
  {
  }

  lemma MirrorIsClean(t: Task, f: State, base: nat, o: Source, made: Obj)
    requires Mirrors(t, o, made, f.copies) && NodeClean(t, o) && forall id :: id in f.copies ==> f.copies[id] in f.out
    ensures NodeClean(Second(t, f, base), PlainSource(made))
  {
    hide CopyOf, Fine;
    match o
    case SRec(_, props) =>
      VisibleFieldsFine(t, props);
      forall i | 0 <= i < |made.fields| ensures Fine(Second(t, f, base), EntryOf(made.fields[i].1)) {
        CopyIsFine(t, f, base, VisibleFields(t, props)[i].1, made.fields[i].1);
      }
    case SArr(items, _) =>
      AllPresent(PlainSlots(made.items));
      forall i | 0 <= i < |items| ensures Fine(Second(t, f, base), EntryOf(made.items[i])) {
        ItemFine(t, items[i]);
        CopyIsFine(t, f, base, VisibleItem(items[i]), made.items[i]);
      }
  }

  lemma ItemFine(t: Task, slot: Slot)
    requires SlotClean(t, slot)
    ensures Fine(t, VisibleItem(slot))
  {
  }

  /** All that a snapshot made passes the checks of a second one. */
  lemma MadeIsClean(t: Task, e: Entry, base: nat)
    requires Snap(t, e).Copied?
    ensures var Copied(v, s) := Snap(t, e);
      Fine(Second(t, s, base), EntryOf(v)) &&
          forall n :: n in s.out ==> NodeClean(Second(t, s, base), PlainSource(s.out[n]))
  {
    hide Copy, Mirrors, NodeClean, Fine, Reaches, PlainSource, CopyOf, CostOf;
    SnapshotIsCopy(t, e);
    SnapshotCostsEdgesOnce(t, e);
    var Copied(v, s) := Snap(t, e);
    CopyIsFine(t, s, base, e, v);
    forall n | n in s.out ensures NodeClean(Second(t, s, base), PlainSource(s.out[n])) {
      var id :| id in s.copies && s.copies[id] == n;
      MirrorIsClean(t, s, base, t.source[id], s.out[n]);
    }
  }

  /**
   * Of any snapshot nested no deeper than the limit there is a second one if and only if the two totals allow it; a gap
   * of the first source counts there as the null that it became.
   */
  lemma CopiedAgainExactly(t: Task, e: Entry, base: nat, ids: seq<nat>)
    requires Snap(t, e).Copied?
    requires var Copied(v, s) := Snap(t, e);
      NestedWithin(Second(t, s, base), EntryOf(v), MAX_DEPTH) && Lists(Second(t, s, base), EntryOf(v), ids)
    ensures var Copied(v, s) := Snap(t, e);
      var c := Plus(EntryCost(EntryOf(v)), CostOf(Second(t, s, base), ids));
      Snap(Second(t, s, base), EntryOf(v)).Copied? <==> c.visits <= MAX_VALUES && c.text <= MAX_TOTAL_TEXT
  {
    hide Copy, NodeClean, Fine, Reaches, PlainSource, CostOf, NestedWithin;
    var Copied(v, s) := Snap(t, e);
    var again := Second(t, s, base);
    MadeIsClean(t, e, base);
    forall id | id in ids ensures id in again.source && NodeClean(again, again.source[id]) {
      ReachedIsThere(again, EntryOf(v), id);
    }
    SnapshotExactly(again, EntryOf(v), ids);
  }
}
