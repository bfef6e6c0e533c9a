/**
 * A successful snapshot is an isomorphic, acyclic copy of the visible part of its source, made in one visit per edge.
 */
module SnapshotProof {
  import opened Values
  import opened Snapshot

  // ---- the visible graph ----------------------------------------------------------------------

  predicate IsVisible(slot: Slot) { slot.Data? && slot.enumerable }

  /** A record's copied properties: enumerable values under names that are not forbidden. */
  function VisibleFields(t: Task, props: seq<(string, Slot)>): seq<(string, Entry)>
  {
    if props == [] then []
    else
      (if !t.forbidden(props[0].0) && IsVisible(props[0].1) then [(props[0].0, props[0].1.entry)] else []) +
          VisibleFields(t, props[1..])
  }

  function VisibleItem(slot: Slot): Entry { if IsVisible(slot) then slot.entry else ENull }

  /** An array's slots, those absent or hidden read as null. */
  function VisibleItems(items: seq<Slot>): seq<Entry> {
    seq(|items|, i requires 0 <= i < |items| => VisibleItem(items[i]))
  }

  function Entries(fields: seq<(string, Entry)>): seq<Entry> {
    seq(|fields|, i requires 0 <= i < |fields| => fields[i].1)
  }

  function Children(t: Task, o: Source): seq<Entry>
  {
    match o case SRec(_, props) => Entries(VisibleFields(t, props)) case SArr(items, _) => VisibleItems(items)
  }

  ghost predicate HasChild(t: Task, o: Source, id: nat) { ERef(id) in Children(t, o) }

  // ---- copies ---------------------------------------------------------------------------------

  /** v is the copy of e when nodes are copied as m says. */
  ghost predicate CopyOf(m: map<nat, nat>, e: Entry, v: Value)
  {
    match e
    case EUndefined => v == Undefined
    case ENull => v == Null
    case EBool(b) => v == Bool(b)
    case ENumber(n) => v == Number(n)
    case EText(s) => v == Text(s)
    case ERef(id) => id in m && v == Ref(m[id])
    case _ => false
  }

  ghost predicate FieldsCopied(m: map<nat, nat>, fields: seq<(string, Entry)>, made: seq<(string, Value)>)
  {
    |made| == |fields| &&
        forall i :: 0 <= i < |fields| ==> made[i].0 == fields[i].0 && CopyOf(m, fields[i].1, made[i].1)
  }

  ghost predicate ItemsCopied(m: map<nat, nat>, items: seq<Entry>, made: seq<Value>)
  {
    |made| == |items| && forall i :: 0 <= i < |items| ==> CopyOf(m, items[i], made[i])
  }

  /** The made node holds exactly the visible properties or slots of the source node, copied. */
  ghost predicate Mirrors(t: Task, o: Source, made: Obj, m: map<nat, nat>)
  {
    match o
    case SRec(_, props) => made.Rec? && FieldsCopied(m, VisibleFields(t, props), made.fields)
    case SArr(items, _) => made.Arr? && ItemsCopied(m, VisibleItems(items), made.items)
  }

  /** The k-th finished source node has node base + k as its mirror, and its children were finished before it. */
  ghost predicate Entered(t: Task, s: State, k: nat)
    requires k < |s.order|
  {
    var id := s.order[k];
    && id in t.source && id in s.copies && s.copies[id] == t.base + k && t.base + k in s.out
    && Mirrors(t, t.source[id], s.out[t.base + k], s.copies)
    && forall c :: HasChild(t, t.source[id], c) ==> c in s.copies && s.copies[c] < t.base + k
  }

  ghost predicate Sound(t: Task, s: State)
  {
    && (forall k :: 0 <= k < |s.order| ==> Entered(t, s, k))
    && (forall id :: id in s.copies ==>
        t.base <= s.copies[id] < t.base + |s.order| && s.order[s.copies[id] - t.base] == id)
    && (forall n :: n in s.out <==> t.base <= n < t.base + |s.order|)
  }

  ghost predicate Grows(s: State, s': State)
  {
    && s.order <= s'.order
    && (forall id :: id in s.copies ==> id in s'.copies && s'.copies[id] == s.copies[id])
    && (forall n :: n in s.out ==> n in s'.out && s'.out[n] == s.out[n])
  }

  /** The nodes being copied have no copy yet. */
  ghost predicate Pending(ancestors: set<nat>, s: State) { forall a :: a in ancestors ==> a !in s.copies }

  lemma CopyOfGrows(m: map<nat, nat>, m': map<nat, nat>, e: Entry, v: Value)
    requires CopyOf(m, e, v) && forall id :: id in m ==> id in m' && m'[id] == m[id]
    ensures CopyOf(m', e, v)
  {
  }

  lemma MirrorsGrow(t: Task, o: Source, made: Obj, m: map<nat, nat>, m': map<nat, nat>)
    requires Mirrors(t, o, made, m) && forall id :: id in m ==> id in m' && m'[id] == m[id]
    ensures Mirrors(t, o, made, m')
  {
    hide VisibleFields, VisibleItems;
  }

  lemma ChildrenCopied(t: Task, o: Source, made: Obj, m: map<nat, nat>, c: nat)
    requires Mirrors(t, o, made, m) && HasChild(t, o, c)
    ensures c in m
  {
    hide VisibleFields, VisibleItems;
  }

  lemma FinishKeeps(t: Task, s: State, id: nat, made: Obj)
    requires Sound(t, s) && id in t.source && id !in s.copies && Mirrors(t, t.source[id], made, s.copies)
    ensures Sound(t, Finish(s, t, id, made)) && Grows(s, Finish(s, t, id, made))
  {
    hide Mirrors, HasChild;
    var s' := Finish(s, t, id, made);
    forall k | 0 <= k < |s'.order| ensures Entered(t, s', k) {
      if k < |s.order| {
        assert Entered(t, s, k);
        MirrorsGrow(t, t.source[s.order[k]], s.out[t.base + k], s.copies, s'.copies);
      } else {
        MirrorsGrow(t, t.source[id], made, s.copies, s'.copies);
        forall c | HasChild(t, t.source[id], c) ensures c in s'.copies && s'.copies[c] < t.base + k {
          ChildrenCopied(t, t.source[id], made, s.copies, c);
        }
      }
    }
  }

  lemma CopyKeeps(t: Task, e: Entry, depth: nat, ancestors: set<nat>, s: State)
    requires Sound(t, s) && Pending(ancestors, s) && Copy(t, e, depth, ancestors, s).Copied?
    ensures var r := Copy(t, e, depth, ancestors, s);
            Sound(t, r.state) && Grows(s, r.state) && Pending(ancestors, r.state) && CopyOf(r.state.copies, e, r.value)
    decreases if depth > MAX_DEPTH then 0 else MAX_DEPTH + 1 - depth, 0
  {
    hide CopyObject, Mirrors, HasChild;
    var s1 := s.(nodes := s.nodes + 1);
    SoundIgnoresCounts(t, s, s1);
    if e.ERef? && e.id !in s.copies {
      var o := t.source[e.id];
      ObjectKeeps(t, o, depth, ancestors + {e.id}, s1);
      var r := CopyObject(t, o, depth, ancestors + {e.id}, s1);
      FinishKeeps(t, r.state, e.id, r.value);
      GrowsOn(s, r.state, Finish(r.state, t, e.id, r.value));
    } else if e.EText? {
      SoundIgnoresCounts(t, s, Copy(t, e, depth, ancestors, s).state);
    }
  }

  lemma SoundIgnoresCounts(t: Task, s: State, s': State)
    requires Sound(t, s) && s'.copies == s.copies && s'.order == s.order && s'.out == s.out
    ensures Sound(t, s') && Grows(s, s')
  {
    hide Mirrors, HasChild;
    forall k | 0 <= k < |s'.order| ensures Entered(t, s', k) { assert Entered(t, s, k); }
  }

  lemma GrowsOn(s: State, s': State, s'': State)
    requires Grows(s, s') && Grows(s', s'')
    ensures Grows(s, s'')
  {
  }

  lemma ObjectKeeps(t: Task, o: Source, depth: nat, ancestors: set<nat>, s: State)
    requires depth <= MAX_DEPTH && Sound(t, s) && Pending(ancestors, s) && CopyObject(t, o, depth, ancestors, s).Copied?
    ensures var r := CopyObject(t, o, depth, ancestors, s);
            Sound(t, r.state) && Grows(s, r.state) && Pending(ancestors, r.state) &&
                Mirrors(t, o, r.value, r.state.copies)
    decreases MAX_DEPTH - depth, 3
  {
    hide CopyProps, CopyItems, Sound;
    match o
    case SRec(_, props) => PropsKeep(t, props, depth, ancestors, s);
    case SArr(items, _) =>
      ItemsKeep(t, items, 0, depth, ancestors, s);
      assert VisibleItems(items)[0..] == VisibleItems(items);
  }

  lemma PropsKeep(t: Task, props: seq<(string, Slot)>, depth: nat, ancestors: set<nat>, s: State)
    requires depth <= MAX_DEPTH && Sound(t, s) && Pending(ancestors, s) &&
             CopyProps(t, props, depth, ancestors, s).Copied?
    ensures var r := CopyProps(t, props, depth, ancestors, s);
            Sound(t, r.state) && Grows(s, r.state) && Pending(ancestors, r.state) &&
                FieldsCopied(r.state.copies, VisibleFields(t, props), r.value)
    decreases MAX_DEPTH - depth, 2, |props|
  {
    hide CopyProp, Sound, CopyOf;
    if props == [] {
      NothingGrows(s);
    } else {
      PropKeeps(t, props[0].0, props[0].1, depth, ancestors, s);
      var r := CopyProp(t, props[0].0, props[0].1, depth, ancestors, s);
      PropsKeep(t, props[1..], depth, ancestors, r.state);
      var rest := CopyProps(t, props[1..], depth, ancestors, r.state);
      GrowsOn(s, r.state, rest.state);
      FieldsCopiedGrow(r.state.copies, rest.state.copies, VisibleFields(t, [props[0]]), r.value);
      FieldsCopiedJoin(rest.state.copies, VisibleFields(t, [props[0]]), r.value, VisibleFields(t, props[1..]),
          rest.value);
      VisibleFieldsHead(t, props);
    }
  }

  lemma VisibleFieldsHead(t: Task, props: seq<(string, Slot)>)
    requires props != []
    ensures VisibleFields(t, props) == VisibleFields(t, [props[0]]) + VisibleFields(t, props[1..])
  {
  }

  lemma NothingGrows(s: State)
    ensures Grows(s, s)
  {
  }

  lemma FieldsCopiedGrow(m: map<nat, nat>, m': map<nat, nat>, fields: seq<(string, Entry)>, made: seq<(string, Value)>)
    requires FieldsCopied(m, fields, made) && forall id :: id in m ==> id in m' && m'[id] == m[id]
    ensures FieldsCopied(m', fields, made)
  {
  }

  lemma FieldsCopiedJoin(m: map<nat, nat>, fs: seq<(string, Entry)>, made: seq<(string, Value)>,
      gs: seq<(string, Entry)>, made': seq<(string, Value)>)
    requires FieldsCopied(m, fs, made) && FieldsCopied(m, gs, made')
    ensures FieldsCopied(m, fs + gs, made + made')
  {
    hide CopyOf;
  }

  lemma PropKeeps(t: Task, key: string, slot: Slot, depth: nat, ancestors: set<nat>, s: State)
    requires depth <= MAX_DEPTH && Sound(t, s) && Pending(ancestors, s) &&
             CopyProp(t, key, slot, depth, ancestors, s).Copied?
    ensures var r := CopyProp(t, key, slot, depth, ancestors, s);
            Sound(t, r.state) && Grows(s, r.state) && Pending(ancestors, r.state) &&
                FieldsCopied(r.state.copies, VisibleFields(t, [(key, slot)]), r.value)
    decreases MAX_DEPTH - depth, 1
  {
    hide Copy, Sound, CopyOf;
    NothingGrows(s);
    if !t.forbidden(key) && !slot.Hole? {
      var s' := AddText(s, |key|).value;
      SoundIgnoresCounts(t, s, s');
      if slot.enumerable {
        CopyKeeps(t, slot.entry, depth + 1, ancestors, s');
        GrowsOn(s, s', Copy(t, slot.entry, depth + 1, ancestors, s').state);
      }
    }
  }

  lemma ItemsKeep(t: Task, items: seq<Slot>, index: nat, depth: nat, ancestors: set<nat>, s: State)
    requires depth <= MAX_DEPTH && index <= |items| && Sound(t, s) && Pending(ancestors, s)
    requires CopyItems(t, items, index, depth, ancestors, s).Copied?
    ensures var r := CopyItems(t, items, index, depth, ancestors, s);
            Sound(t, r.state) && Grows(s, r.state) && Pending(ancestors, r.state) &&
                ItemsCopied(r.state.copies, VisibleItems(items)[index..], r.value)
    decreases MAX_DEPTH - depth, 2, |items| - index
  {
    hide CopySlot, Sound, CopyOf;
    if index == |items| {
      NothingGrows(s);
    } else {
      SlotKeeps(t, items[index], index, depth, ancestors, s);
      var r := CopySlot(t, items[index], index, depth, ancestors, s);
      ItemsKeep(t, items, index + 1, depth, ancestors, r.state);
      var rest := CopyItems(t, items, index + 1, depth, ancestors, r.state);
      GrowsOn(s, r.state, rest.state);
      CopyOfGrows(r.state.copies, rest.state.copies, VisibleItem(items[index]), r.value);
      assert VisibleItems(items)[index..] == [VisibleItem(items[index])] + VisibleItems(items)[index + 1..];
    }
  }

  lemma SlotKeeps(t: Task, slot: Slot, index: nat, depth: nat, ancestors: set<nat>, s: State)
    requires depth <= MAX_DEPTH && Sound(t, s) && Pending(ancestors, s) &&
             CopySlot(t, slot, index, depth, ancestors, s).Copied?
    ensures var r := CopySlot(t, slot, index, depth, ancestors, s);
            Sound(t, r.state) && Grows(s, r.state) && Pending(ancestors, r.state) &&
                CopyOf(r.state.copies, VisibleItem(slot), r.value)
    decreases MAX_DEPTH - depth, 1
  {
    hide Copy, Sound;
    NothingGrows(s);
    if !slot.Hole? {
      var s' := AddText(s, Digits(index)).value;
      SoundIgnoresCounts(t, s, s');
      if slot.enumerable {
        CopyKeeps(t, slot.entry, depth + 1, ancestors, s');
        GrowsOn(s, s', Copy(t, slot.entry, depth + 1, ancestors, s').state);
      }
    }
  }
}
