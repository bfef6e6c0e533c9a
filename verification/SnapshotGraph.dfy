/**
 * What a successful snapshot says about the whole source graph: what is reachable, what is not cyclic, what it cost.
 */
module SnapshotGraph {
  import opened Values
  import opened Snapshot
  import opened SnapshotProof

  // ---- reachability ---------------------------------------------------------------------------

  /** A walk along visible references. */
  ghost predicate Trail(t: Task, ids: seq<nat>)
  {
    && ids != []
    && (forall i :: 0 <= i < |ids| ==> ids[i] in t.source)
    && (forall i :: 0 <= i < |ids| - 1 ==> HasChild(t, t.source[ids[i]], ids[i + 1]))
  }

  ghost predicate TrailTo(t: Task, e: Entry, ids: seq<nat>, id: nat)
  {
    Trail(t, ids) && e == ERef(ids[0]) && ids[|ids| - 1] == id
  }

  ghost predicate Reaches(t: Task, e: Entry, id: nat) { exists ids :: TrailTo(t, e, ids, id) }

  ghost predicate SomeReaches(t: Task, es: seq<Entry>, id: nat) { exists i :: 0 <= i < |es| && Reaches(t, es[i], id) }

  lemma ReachesItself(t: Task, id: nat)
    requires id in t.source
    ensures Reaches(t, ERef(id), id)
  {
    assert TrailTo(t, ERef(id), [id], id);
  }

  lemma ReachesThroughChild(t: Task, parent: nat, id: nat)
    requires parent in t.source && SomeReaches(t, Children(t, t.source[parent]), id)
    ensures Reaches(t, ERef(parent), id)
  {
    hide Children;
    var es := Children(t, t.source[parent]);
    var i :| 0 <= i < |es| && Reaches(t, es[i], id);
    var ids :| TrailTo(t, es[i], ids, id);
    var longer := [parent] + ids;
    assert HasChild(t, t.source[parent], ids[0]);
    forall k | 0 <= k < |longer| - 1 ensures HasChild(t, t.source[longer[k]], longer[k + 1]) {
      if k > 0 { assert longer[k] == ids[k - 1] && longer[k + 1] == ids[k]; }
    }
    assert TrailTo(t, ERef(parent), longer, id);
  }

  lemma SomeReachesJoin(t: Task, xs: seq<Entry>, ys: seq<Entry>, id: nat)
    requires SomeReaches(t, xs, id) || SomeReaches(t, ys, id)
    ensures SomeReaches(t, xs + ys, id)
  {
    hide Reaches;
    if SomeReaches(t, xs, id) {
      var i :| 0 <= i < |xs| && Reaches(t, xs[i], id);
      assert (xs + ys)[i] == xs[i];
    } else {
      var i :| 0 <= i < |ys| && Reaches(t, ys[i], id);
      assert (xs + ys)[|xs| + i] == ys[i];
    }
  }

  /** Every node copied between two states is reachable from one of these entries. */
  ghost predicate NewReached(t: Task, es: seq<Entry>, s: State, s': State)
  {
    forall id :: id in s'.copies && id !in s.copies ==> SomeReaches(t, es, id)
  }

  lemma NewReachedJoin(t: Task, xs: seq<Entry>, ys: seq<Entry>, s: State, s': State, s'': State)
    requires NewReached(t, xs, s, s') && NewReached(t, ys, s', s'')
    ensures NewReached(t, xs + ys, s, s'')
  {
    hide SomeReaches;
    forall id | id in s''.copies && id !in s.copies ensures SomeReaches(t, xs + ys, id) {
      SomeReachesJoin(t, xs, ys, id);
    }
  }

  lemma {:induction false} CopyReaches(t: Task, e: Entry, depth: nat, ancestors: set<nat>, s: State)
    requires Copy(t, e, depth, ancestors, s).Copied?
    ensures NewReached(t, [e], s, Copy(t, e, depth, ancestors, s).state)
    decreases if depth > MAX_DEPTH then 0 else MAX_DEPTH + 1 - depth, 0
  {
    hide CopyObject, Reaches, Children;
    if e.ERef? && e.id !in s.copies {
      var o := t.source[e.id];
      var s1 := s.(nodes := s.nodes + 1);
      ObjectReaches(t, o, depth, ancestors + {e.id}, s1);
      var r := CopyObject(t, o, depth, ancestors + {e.id}, s1);
      forall id | id in Finish(r.state, t, e.id, r.value).copies && id !in s.copies ensures SomeReaches(t, [e], id) {
        if id == e.id { ReachesItself(t, id); } else { ReachesThroughChild(t, e.id, id); }
        assert Reaches(t, [e][0], id);
      }
    }
  }

  lemma {:induction false} ObjectReaches(t: Task, o: Source, depth: nat, ancestors: set<nat>, s: State)
    requires depth <= MAX_DEPTH && CopyObject(t, o, depth, ancestors, s).Copied?
    ensures NewReached(t, Children(t, o), s, CopyObject(t, o, depth, ancestors, s).state)
    decreases MAX_DEPTH - depth, 3
  {
    hide CopyProps, CopyItems, NewReached;
    match o
    case SRec(_, props) => PropsReach(t, props, depth, ancestors, s);
    case SArr(items, _) =>
      ItemsReach(t, items, 0, depth, ancestors, s);
      assert VisibleItems(items)[0..] == VisibleItems(items);
  }

  lemma {:induction false} PropsReach(t: Task, props: seq<(string, Slot)>, depth: nat, ancestors: set<nat>, s: State)
    requires depth <= MAX_DEPTH && CopyProps(t, props, depth, ancestors, s).Copied?
    ensures NewReached(t, Entries(VisibleFields(t, props)), s, CopyProps(t, props, depth, ancestors, s).state)
    decreases MAX_DEPTH - depth, 2, |props|
  {
    hide Copy, SomeReaches;
    if props != [] {
      var (key, slot) := props[0];
      var r := CopyProp(t, key, slot, depth, ancestors, s);
      var rest := Entries(VisibleFields(t, props[1..]));
      PropsReach(t, props[1..], depth, ancestors, r.state);
      if !t.forbidden(key) && IsVisible(slot) {
        CopyReaches(t, slot.entry, depth + 1, ancestors, AddText(s, |key|).value);
        NewReachedJoin(t, [slot.entry], rest, s, r.state, CopyProps(t, props, depth, ancestors, s).state);
        assert Entries(VisibleFields(t, props)) == [slot.entry] + rest;
      } else {
        assert Entries(VisibleFields(t, props)) == rest;
      }
    }
  }

  lemma {:induction false} ItemsReach(t: Task, items: seq<Slot>, index: nat, depth: nat, ancestors: set<nat>, s: State)
    requires depth <= MAX_DEPTH && index <= |items| && CopyItems(t, items, index, depth, ancestors, s).Copied?
    ensures NewReached(t, VisibleItems(items)[index..], s, CopyItems(t, items, index, depth, ancestors, s).state)
    decreases MAX_DEPTH - depth, 2, |items| - index
  {
    hide Copy, SomeReaches;
    if index < |items| {
      var slot := items[index];
      var r := CopySlot(t, slot, index, depth, ancestors, s);
      var rest := VisibleItems(items)[index + 1..];
      ItemsReach(t, items, index + 1, depth, ancestors, r.state);
      if IsVisible(slot) { CopyReaches(t, slot.entry, depth + 1, ancestors, AddText(s, Digits(index)).value); }
      NewReachedJoin(t, [VisibleItem(slot)], rest, s, r.state, CopyItems(t, items, index, depth, ancestors, s).state);
      assert VisibleItems(items)[index..] == [VisibleItem(slot)] + rest;
    }
  }

  // ---- counting -------------------------------------------------------------------------------

  function TenTo(k: nat): nat { if k == 0 then 1 else 10 * TenTo(k - 1) }

  /** The number of digits of an index. */
  lemma {:induction false} DigitsExactly(n: nat)
    ensures Digits(n) > 0 && n < TenTo(Digits(n)) && (n > 0 ==> TenTo(Digits(n) - 1) <= n)
    ensures n == 0 ==> Digits(n) == 1
  {
    if n >= 10 { DigitsExactly(n / 10); }
  }

  /** The slots that are no holes are counted one by one. */
  lemma {:induction false} PresentExactly(slot: Slot, a: seq<Slot>, b: seq<Slot>)
    ensures Present([slot]) == if slot.Hole? then 0 else 1
    ensures Present(a + b) == Present(a) + Present(b)
    decreases |a|
  {
    if a == [] {
      assert a + b == b;
    } else {
      assert (a + b)[0] == a[0] && (a + b)[1..] == a[1..] + b;
      PresentExactly(slot, a[1..], b);
    }
  }

  // ---- cost -----------------------------------------------------------------------------------

  /** Values visited and text counted. */
  datatype Cost = Cost(visits: nat, text: nat)

  function Plus(a: Cost, b: Cost): Cost { Cost(a.visits + b.visits, a.text + b.text) }

  /** A value that has a copy, as far as can be seen without following it. */
  predicate Fine(t: Task, e: Entry)
  {
    match e
    case EText(text) => |text| <= MAX_TEXT
    case ERef(id) => id in t.source
    case NonFinite => false
    case Foreign => false
    case _ => true
  }

  function EntryCost(e: Entry): Cost { Cost(1, if e.EText? then |e.text| else 0) }

  predicate Hidden(t: Task, key: string, slot: Slot) { t.forbidden(key) || slot.Hole? }

  predicate SlotClean(t: Task, slot: Slot) { slot.Hole? || !slot.enumerable || (slot.Data? && Fine(t, slot.entry)) }

  predicate FieldClean(t: Task, key: string, slot: Slot) {
    Hidden(t, key, slot) || (|key| <= MAX_TEXT && SlotClean(t, slot))
  }

  function SlotCost(slot: Slot): Cost { if IsVisible(slot) then EntryCost(slot.entry) else Cost(0, 0) }

  function FieldCost(t: Task, key: string, slot: Slot): Cost
  {
    if Hidden(t, key, slot) then Cost(0, 0) else Plus(Cost(0, |key|), SlotCost(slot))
  }

  function ItemCost(slot: Slot, index: nat): Cost
  {
    if slot.Hole? then Cost(0, 0) else Plus(Cost(0, Digits(index)), SlotCost(slot))
  }

  function FieldsCost(t: Task, props: seq<(string, Slot)>): Cost
  {
    if props == [] then Cost(0, 0) else Plus(FieldCost(t, props[0].0, props[0].1), FieldsCost(t, props[1..]))
  }

  function ItemsCost(items: seq<Slot>, index: nat): Cost
    requires index <= |items|
    decreases |items| - index
  {
    if index == |items| then Cost(0, 0) else Plus(ItemCost(items[index], index), ItemsCost(items, index + 1))
  }

  predicate FieldsClean(t: Task, props: seq<(string, Slot)>)
  {
    forall i :: 0 <= i < |props| ==> FieldClean(t, props[i].0, props[i].1)
  }

  predicate ItemsClean(t: Task, items: seq<Slot>) { forall i :: 0 <= i < |items| ==> SlotClean(t, items[i]) }

  /** A node whose own properties pass every check made on them. */
  predicate NodeClean(t: Task, o: Source)
  {
    match o
    case SRec(alien, props) => !alien && |props| <= MAX_LIST && FieldsClean(t, props)
    case SArr(items, extra) => |items| <= MAX_LIST && Present(items) + extra <= MAX_LIST && ItemsClean(t, items)
  }

  /** What the visible edges that leave a node cost, and the names and indices looked at. */
  function NodeCost(t: Task, o: Source): Cost
  {
    match o case SRec(_, props) => FieldsCost(t, props) case SArr(items, _) => ItemsCost(items, 0)
  }

  function CostOf(t: Task, ids: seq<nat>): Cost
  {
    if ids == [] then Cost(0, 0)
    else
      var last := ids[|ids| - 1];
      Plus(CostOf(t, ids[..|ids| - 1]), if last in t.source then NodeCost(t, t.source[last]) else Cost(0, 0))
  }

  predicate WithinLimits(s: State) { s.nodes <= MAX_VALUES && s.text <= MAX_TOTAL_TEXT }

  /** Between two states this was spent besides the cost of the nodes finished in between, which are all clean. */
  ghost predicate Spent(t: Task, s: State, s': State, c: Cost)
  {
    var a, b := CostOf(t, s.order), CostOf(t, s'.order);
    && WithinLimits(s') && s.order <= s'.order
    && s'.nodes - b.visits == s.nodes - a.visits + c.visits
    && s'.text - b.text == s.text - a.text + c.text
    && forall k :: |s.order| <= k < |s'.order| ==> s'.order[k] in t.source && NodeClean(t, t.source[s'.order[k]])
  }

  lemma SpentOn(t: Task, s: State, s': State, s'': State, c: Cost, d: Cost)
    requires Spent(t, s, s', c) && Spent(t, s', s'', d)
    ensures Spent(t, s, s'', Plus(c, d))
  {
    hide CostOf, NodeClean;
    forall k | |s.order| <= k < |s''.order| ensures s''.order[k] in t.source && NodeClean(t, t.source[s''.order[k]]) {
      if k < |s'.order| { assert s''.order[k] == s'.order[k]; }
    }
  }

  lemma TextSpent(t: Task, s: State, length: nat)
    requires WithinLimits(s) && AddText(s, length).Some?
    ensures Spent(t, s, AddText(s, length).value, Cost(0, length))
  {
    hide CostOf;
  }

  lemma {:induction false} CopyCost(t: Task, e: Entry, depth: nat, ancestors: set<nat>, s: State)
    requires Copy(t, e, depth, ancestors, s).Copied? && WithinLimits(s)
    ensures Spent(t, s, Copy(t, e, depth, ancestors, s).state, EntryCost(e)) && Fine(t, e)
    decreases if depth > MAX_DEPTH then 0 else MAX_DEPTH + 1 - depth, 0
  {
    hide CopyObject, NodeCost, NodeClean;
    if e.ERef? && e.id !in s.copies {
      var s1 := s.(nodes := s.nodes + 1);
      ObjectCost(t, t.source[e.id], depth, ancestors + {e.id}, s1);
      var r := CopyObject(t, t.source[e.id], depth, ancestors + {e.id}, s1);
      assert (r.state.order + [e.id])[..|r.state.order|] == r.state.order;
    }
  }

  lemma {:induction false} ObjectCost(t: Task, o: Source, depth: nat, ancestors: set<nat>, s: State)
    requires depth <= MAX_DEPTH && CopyObject(t, o, depth, ancestors, s).Copied? && WithinLimits(s)
    ensures Spent(t, s, CopyObject(t, o, depth, ancestors, s).state, NodeCost(t, o)) && NodeClean(t, o)
    decreases MAX_DEPTH - depth, 3
  {
    hide CopyProps, CopyItems, Spent;
    match o
    case SRec(_, props) => PropsCost(t, props, depth, ancestors, s);
    case SArr(items, _) => SlotsCost(t, items, 0, depth, ancestors, s);
  }

  lemma {:induction false} PropsCost(t: Task, props: seq<(string, Slot)>, depth: nat, ancestors: set<nat>, s: State)
    requires depth <= MAX_DEPTH && CopyProps(t, props, depth, ancestors, s).Copied? && WithinLimits(s)
    ensures Spent(t, s, CopyProps(t, props, depth, ancestors, s).state, FieldsCost(t, props)) && FieldsClean(t, props)
    decreases MAX_DEPTH - depth, 2, |props|
  {
    hide CopyProp, CostOf, FieldClean, FieldCost;
    if props != [] {
      var (key, slot) := props[0];
      var r := CopyProp(t, key, slot, depth, ancestors, s);
      PropCost(t, key, slot, depth, ancestors, s);
      PropsCost(t, props[1..], depth, ancestors, r.state);
      var rest := CopyProps(t, props[1..], depth, ancestors, r.state);
      SpentOn(t, s, r.state, rest.state, FieldCost(t, key, slot), FieldsCost(t, props[1..]));
      forall i | 0 <= i < |props| ensures FieldClean(t, props[i].0, props[i].1) {
        if i > 0 { assert props[i] == props[1..][i - 1]; }
      }
    }
  }

  lemma {:induction false} PropCost(t: Task, key: string, slot: Slot, depth: nat, ancestors: set<nat>, s: State)
    requires depth <= MAX_DEPTH && CopyProp(t, key, slot, depth, ancestors, s).Copied? && WithinLimits(s)
    ensures Spent(t, s, CopyProp(t, key, slot, depth, ancestors, s).state, FieldCost(t, key, slot)) &&
            FieldClean(t, key, slot)
    decreases MAX_DEPTH - depth, 1
  {
    hide Copy, CostOf, Fine;
    if !Hidden(t, key, slot) {
      var s' := AddText(s, |key|).value;
      TextSpent(t, s, |key|);
      if slot.enumerable {
        CopyCost(t, slot.entry, depth + 1, ancestors, s');
        SpentOn(t, s, s', Copy(t, slot.entry, depth + 1, ancestors, s').state, Cost(0, |key|), EntryCost(slot.entry));
      }
    }
  }

  lemma {:induction false} SlotsCost(t: Task, items: seq<Slot>, index: nat, depth: nat, ancestors: set<nat>, s: State)
    requires depth <= MAX_DEPTH && index <= |items| && CopyItems(t, items, index, depth, ancestors, s).Copied?
    requires WithinLimits(s)
    ensures Spent(t, s, CopyItems(t, items, index, depth, ancestors, s).state, ItemsCost(items, index))
    ensures forall i :: index <= i < |items| ==> SlotClean(t, items[i])
    decreases MAX_DEPTH - depth, 2, |items| - index
  {
    hide CopySlot, CostOf, SlotClean, ItemCost;
    if index < |items| {
      var r := CopySlot(t, items[index], index, depth, ancestors, s);
      SlotCosts(t, items[index], index, depth, ancestors, s);
      SlotsCost(t, items, index + 1, depth, ancestors, r.state);
      var rest := CopyItems(t, items, index + 1, depth, ancestors, r.state);
      SpentOn(t, s, r.state, rest.state, ItemCost(items[index], index), ItemsCost(items, index + 1));
    }
  }

  lemma {:induction false} SlotCosts(t: Task, slot: Slot, index: nat, depth: nat, ancestors: set<nat>, s: State)
    requires depth <= MAX_DEPTH && CopySlot(t, slot, index, depth, ancestors, s).Copied? && WithinLimits(s)
    ensures Spent(t, s, CopySlot(t, slot, index, depth, ancestors, s).state, ItemCost(slot, index)) &&
            SlotClean(t, slot)
    decreases MAX_DEPTH - depth, 1
  {
    hide Copy, CostOf, Fine;
    if !slot.Hole? {
      var s' := AddText(s, Digits(index)).value;
      TextSpent(t, s, Digits(index));
      if slot.enumerable {
        CopyCost(t, slot.entry, depth + 1, ancestors, s');
        SpentOn(t, s, s', Copy(t, slot.entry, depth + 1, ancestors, s').state, Cost(0, Digits(index)),
            EntryCost(slot.entry));
      }
    }
  }

  // ---- main results ---------------------------------------------------------------------------

  lemma StartSound(t: Task)
    ensures Sound(t, START) && Pending({}, START)
  {
  }

  /**
   * Along a walk from a copied node every node is copied, each finished strictly before the one it was reached from.
   */
  lemma {:induction false} TrailDescends(t: Task, s: State, ids: seq<nat>)
    requires Sound(t, s) && Trail(t, ids) && ids[0] in s.copies
    ensures forall i :: 0 <= i < |ids| ==> ids[i] in s.copies
    ensures forall i :: 0 < i < |ids| ==> s.copies[ids[i]] < s.copies[ids[0]]
    ensures forall i, j :: 0 <= i < j < |ids| ==> ids[i] != ids[j]
    decreases |ids|
  {
    hide Mirrors, HasChild;
    if |ids| > 1 {
      assert Entered(t, s, s.copies[ids[0]] - t.base);
      assert HasChild(t, t.source[ids[0]], ids[1]);
      var rest := ids[1..];
      forall i | 0 <= i < |rest| - 1 ensures HasChild(t, t.source[rest[i]], rest[i + 1]) {
        assert rest[i] == ids[i + 1] && rest[i + 1] == ids[i + 2];
      }
      TrailDescends(t, s, rest);
      forall i | 0 < i < |ids| ensures ids[i] in s.copies && s.copies[ids[i]] < s.copies[ids[0]] {
        assert ids[i] == rest[i - 1];
      }
      forall i, j | 0 <= i < j < |ids| ensures ids[i] != ids[j] {
        if i > 0 { assert rest[i - 1] != rest[j - 1]; }
      }
    }
  }

  /**
   * A successful snapshot copies exactly the nodes reachable by visible references, one to one and onto the nodes it
   * made, each as a mirror of its visible part.
   */
  lemma SnapshotIsCopy(t: Task, e: Entry)
    requires Snap(t, e).Copied?
    ensures var Copied(v, s) := Snap(t, e);
      && CopyOf(s.copies, e, v)
      && Injective(s.copies)
      && (forall id :: id in s.copies <==> Reaches(t, e, id))
      && (forall n :: n in s.out <==> n in s.copies.Values)
      && (forall id :: id in s.copies ==>
          id in t.source && s.copies[id] in s.out && Mirrors(t, t.source[id], s.out[s.copies[id]], s.copies))
  {
    hide Mirrors, HasChild, Copy, Reaches, Sound;
    StartSound(t);
    CopyKeeps(t, e, 0, {}, START);
    var s := Snap(t, e).state;
    SoundIsOneToOne(t, s);
    forall id ensures id in s.copies <==> Reaches(t, e, id) { CopiedIsReached(t, e, id); }
  }

  lemma CopiedIsReached(t: Task, e: Entry, id: nat)
    requires Snap(t, e).Copied?
    ensures id in Snap(t, e).state.copies <==> Reaches(t, e, id)
  {
    hide Copy, HasChild, Sound;
    StartSound(t);
    CopyKeeps(t, e, 0, {}, START);
    CopyReaches(t, e, 0, {}, START);
    if id in Snap(t, e).state.copies { assert SomeReaches(t, [e], id); }
    if Reaches(t, e, id) {
      var ids :| TrailTo(t, e, ids, id);
      TrailDescends(t, Snap(t, e).state, ids);
    }
  }

  lemma SoundIsOneToOne(t: Task, s: State)
    requires Sound(t, s)
    ensures Injective(s.copies) && forall n :: n in s.out <==> n in s.copies.Values
    ensures forall id :: id in s.copies ==>
            id in t.source && s.copies[id] in s.out && Mirrors(t, t.source[id], s.out[s.copies[id]], s.copies)
  {
    hide Mirrors, HasChild;
    forall id | id in s.copies
      ensures id in t.source && s.copies[id] in s.out && Mirrors(t, t.source[id], s.out[s.copies[id]], s.copies)
    {
      assert Entered(t, s, s.copies[id] - t.base);
    }
    forall n | n in s.out ensures n in s.copies.Values {
      assert Entered(t, s, n - t.base);
      assert s.copies[s.order[n - t.base]] == n;
    }
  }

  /** A value from which some visible walk meets a node twice has no snapshot. */
  lemma CycleRejected(t: Task, e: Entry, ids: seq<nat>, i: nat, j: nat)
    requires Trail(t, ids) && e == ERef(ids[0]) && i < j < |ids| && ids[i] == ids[j]
    ensures Snap(t, e).Rejected?
  {
    hide Copy, HasChild;
    if Snap(t, e).Copied? {
      StartSound(t);
      CopyKeeps(t, e, 0, {}, START);
      TrailDescends(t, Snap(t, e).state, ids);
      assert false;
    }
  }

  lemma {:induction false} VisibleNamesAllowed(t: Task, props: seq<(string, Slot)>)
    ensures forall i :: 0 <= i < |VisibleFields(t, props)| ==> !t.forbidden(VisibleFields(t, props)[i].0)
    decreases |props|
  {
    if props != [] { VisibleNamesAllowed(t, props[1..]); }
  }

  /** No made node holds a forbidden name, and when the free numbers lie above the source no node is shared with it. */
  lemma SnapshotIsSafe(t: Task, e: Entry)
    requires Snap(t, e).Copied?
    ensures var out := Snap(t, e).state.out;
      forall n, i :: n in out && out[n].Rec? && 0 <= i < |out[n].fields| ==> !t.forbidden(out[n].fields[i].0)
    ensures (forall id :: id in t.source ==> id < t.base) ==> forall n :: n in Snap(t, e).state.out ==> n !in t.source
  {
    hide Copy, HasChild;
    StartSound(t);
    CopyKeeps(t, e, 0, {}, START);
    var s := Snap(t, e).state;
    forall n, i | n in s.out && s.out[n].Rec? && 0 <= i < |s.out[n].fields| ensures !t.forbidden(s.out[n].fields[i].0) {
      assert Entered(t, s, n - t.base);
      VisibleNamesAllowed(t, t.source[s.order[n - t.base]].props);
    }
  }

  /** The nodes listed are those reachable by visible references, each once. */
  ghost predicate Lists(t: Task, e: Entry, ids: seq<nat>)
  {
    && (forall id :: id in ids <==> Reaches(t, e, id))
    && (forall i, j :: 0 <= i < j < |ids| ==> ids[i] != ids[j])
  }

  lemma OrderLists(t: Task, e: Entry)
    requires Snap(t, e).Copied?
    ensures Lists(t, e, Snap(t, e).state.order)
  {
    hide Copy, HasChild, Mirrors, Reaches;
    StartSound(t);
    CopyKeeps(t, e, 0, {}, START);
    SnapshotIsCopy(t, e);
    var s := Snap(t, e).state;
    forall i | 0 <= i < |s.order| ensures s.order[i] in s.copies && s.copies[s.order[i]] == t.base + i {
      assert Entered(t, s, i);
    }
    forall id | Reaches(t, e, id) ensures id in s.order { assert s.order[s.copies[id] - t.base] == id; }
  }

  /**
   * A successful snapshot visits the value itself and then each visible edge of each reachable node exactly once, and
   * counts the text of each exactly once; all of them pass the checks, and the totals the limits.
   */
  lemma SnapshotCostsEdgesOnce(t: Task, e: Entry)
    requires Snap(t, e).Copied?
    ensures var s := Snap(t, e).state;
      && Cost(s.nodes, s.text) == Plus(EntryCost(e), CostOf(t, s.order)) && WithinLimits(s) && Lists(t, e, s.order)
      && Fine(t, e) && forall id :: Reaches(t, e, id) ==> id in t.source && NodeClean(t, t.source[id])
  {
    hide Copy, NodeClean, Fine, EntryCost, Reaches;
    CopyCost(t, e, 0, {}, START);
    OrderLists(t, e);
  }
}
