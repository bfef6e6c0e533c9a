/**
 * Taking a snapshot of a snapshot: what comes out is isomorphic to the first one, and something does when the arrays of
 * the first source had no holes or hidden slots. This is why a context that is already a snapshot need not be copied.
 */
module SnapshotAgain {
  import opened Values
  import opened Snapshot
  import opened SnapshotProof
  import SnapshotGraph

  /** A made value as a source holds it. */
  function EntryOf(v: Value): Entry
  {
    match v
    case Undefined => EUndefined
    case Null => ENull
    case Bool(b) => EBool(b)
    case Number(n) => ENumber(n)
    case Text(s) => EText(s)
    case Ref(id) => ERef(id)
    case Fresh(_) => Foreign
  }

  function PlainSlot(v: Value): Slot { Data(EntryOf(v), true) }

  function PlainSlots(vs: seq<Value>): seq<Slot> { seq(|vs|, i requires 0 <= i < |vs| => PlainSlot(vs[i])) }

  function PlainProps(fs: seq<(string, Value)>): seq<(string, Slot)>
  {
    seq(|fs|, i requires 0 <= i < |fs| => (fs[i].0, PlainSlot(fs[i].1)))
  }

  /** A made node as a source node: everything in it is an enumerable value. */
  function PlainSource(o: Obj): Source
  {
    match o case Arr(items) => SArr(PlainSlots(items), 0) case Rec(fields) => SRec(false, PlainProps(fields))
  }

  function PlainHeap(h: Heap): SourceHeap { map n | n in h :: PlainSource(h[n]) }

  predicate DenseNode(o: Source)
  {
    o.SArr? ==> forall i :: 0 <= i < |o.items| ==> !o.items[i].Hole? && o.items[i].enumerable
  }

  /** No array of the source has a hole or a hidden slot. */
  predicate Dense(source: SourceHeap) { forall id :: id in source ==> DenseNode(source[id]) }

  /** The task of copying the nodes that the first copier made. */
  function Second(t: Task, f: State, base: nat): Task { Task(PlainHeap(f.out), t.forbidden, base) }

  function Image(f: State, ancestors: set<nat>): set<nat> { set a | a in ancestors && a in f.copies :: f.copies[a] }

  /** The second copier has counted no more, and has finished the copies of what the first had finished. */
  ghost predicate Alike(t: Task, s: State, u: State)
  {
    && u.nodes == s.nodes && u.text <= s.text && |u.order| == |s.order|
    && forall n :: n in u.copies <==> t.base <= n < t.base + |s.order|
  }

  /** The first copier, on its way from s to the final state f, with these nodes being copied. */
  ghost predicate OnTheWay(t: Task, f: State, ancestors: set<nat>, s: State)
  {
    Sound(t, s) && Sound(t, f) && Pending(ancestors, s) && Dense(t.source) &&
        forall a :: a in ancestors ==> a in f.copies
  }

  lemma {:induction false} CopyAgain(t: Task, f: State, base: nat, e: Entry, depth: nat, ancestors: set<nat>, s: State,
      u: State)
    requires OnTheWay(t, f, ancestors, s) && Alike(t, s, u)
    requires Copy(t, e, depth, ancestors, s).Copied? && Grows(Copy(t, e, depth, ancestors, s).state, f)
    ensures var r := Copy(t, e, depth, ancestors, s);
            var q := Copy(Second(t, f, base), EntryOf(r.value), depth, Image(f, ancestors), u);
            q.Copied? && Alike(t, r.state, q.state)
    decreases if depth > MAX_DEPTH then 0 else MAX_DEPTH + 1 - depth, 0
  {
    hide CopyObject, Sound, Dense, Image, PlainSource;
    if e.ERef? {
      if e.id in s.copies {
        SeenAgain(t, f, e.id, ancestors, s, u);
      } else {
        NodeAgain(t, f, base, e.id, depth, ancestors, s, u);
      }
    }
  }

  lemma {:induction false} NodeAgain(t: Task, f: State, base: nat, id: nat, depth: nat, ancestors: set<nat>, s: State,
      u: State)
    requires OnTheWay(t, f, ancestors, s) && Alike(t, s, u) && id !in s.copies
    requires Copy(t, ERef(id), depth, ancestors, s).Copied? && Grows(Copy(t, ERef(id), depth, ancestors, s).state, f)
    ensures var r := Copy(t, ERef(id), depth, ancestors, s);
            var q := Copy(Second(t, f, base), EntryOf(r.value), depth, Image(f, ancestors), u);
            q.Copied? && Alike(t, r.state, q.state)
    decreases MAX_DEPTH - depth, 4
  {
    hide CopyObject, Mirrors, HasChild, PlainSource, Dense, Sound, Grows, Image;
    var o := t.source[id];
    var s1, u1 := s.(nodes := s.nodes + 1), u.(nodes := u.nodes + 1);
    SoundIgnoresCounts(t, s, s1);
    ObjectKeeps(t, o, depth, ancestors + {id}, s1);
    var r := CopyObject(t, o, depth, ancestors + {id}, s1);
    var n := t.base + |r.state.order|;
    var s' := Finish(r.state, t, id, r.value);
    FinishKeeps(t, r.state, id, r.value);
    GrowsOn(r.state, s', f);
    GrownNode(s', f, id, n);
    NewAgain(t, f, id, n, ancestors, s);
    OrderGrows(s1, r.state);
    DenseAt(t.source, id);
    ObjectAgain(t, f, base, o, depth, ancestors + {id}, s1, u1);
    ImageGrows(f, ancestors, id);
    var q := CopyObject(Second(t, f, base), PlainSource(r.value), depth, Image(f, ancestors) + {n}, u1);
    assert n !in u1.copies;
    assert Copy(Second(t, f, base), ERef(n), depth, Image(f, ancestors), u).state ==
        Finish(q.state, Second(t, f, base), n, q.value);
  }

  lemma GrownNode(s: State, f: State, id: nat, n: nat)
    requires Grows(s, f) && id in s.copies && s.copies[id] == n && n in s.out
    ensures id in f.copies && f.copies[id] == n && n in f.out && f.out[n] == s.out[n]
  {
  }

  lemma OrderGrows(s: State, s': State)
    requires Grows(s, s')
    ensures |s.order| <= |s'.order|
  {
  }

  lemma DenseAt(source: SourceHeap, id: nat)
    requires Dense(source) && id in source
    ensures DenseNode(source[id])
  {
  }

  lemma ImageGrows(f: State, ancestors: set<nat>, id: nat)
    requires id in f.copies
    ensures Image(f, ancestors + {id}) == Image(f, ancestors) + {f.copies[id]}
  {
  }

  lemma SeenAgain(t: Task, f: State, id: nat, ancestors: set<nat>, s: State, u: State)
    requires OnTheWay(t, f, ancestors, s) && Alike(t, s, u) && id in s.copies && Grows(s, f)
    ensures s.copies[id] !in Image(f, ancestors) && s.copies[id] in f.out && s.copies[id] in u.copies
  {
    hide Mirrors, HasChild, Dense;
  }

  lemma NewAgain(t: Task, f: State, id: nat, n: nat, ancestors: set<nat>, s: State)
    requires OnTheWay(t, f, ancestors, s) && id !in ancestors && id in f.copies && f.copies[id] == n
    ensures n !in Image(f, ancestors) && n in f.out
  {
    hide Mirrors, HasChild, Dense;
  }

  lemma {:induction false} ObjectAgain(t: Task, f: State, base: nat, o: Source, depth: nat, ancestors: set<nat>,
      s: State, u: State)
    requires depth <= MAX_DEPTH && OnTheWay(t, f, ancestors, s) && Alike(t, s, u) && DenseNode(o)
    requires CopyObject(t, o, depth, ancestors, s).Copied? && Grows(CopyObject(t, o, depth, ancestors, s).state, f)
    ensures var r := CopyObject(t, o, depth, ancestors, s);
            var q := CopyObject(Second(t, f, base), PlainSource(r.value), depth, Image(f, ancestors), u);
            q.Copied? && Alike(t, r.state, q.state)
    decreases MAX_DEPTH - depth, 3
  {
    hide CopyProps, CopyItems, OnTheWay, Alike, Image, Grows;
    match o
    case SRec(_, props) =>
      PropsAgain(t, f, base, props, depth, ancestors, s, u);
      FewerFields(t, props, depth, ancestors, s);
    case SArr(items, _) =>
      ItemCount(t, items, 0, depth, ancestors, s);
      var vs := CopyItems(t, items, 0, depth, ancestors, s).value;
      assert vs[0..] == vs;
      ItemsAgain(t, f, base, items, vs, 0, depth, ancestors, s, u);
      AllPresent(PlainSlots(vs));
  }

  lemma {:induction false} FewerFields(t: Task, props: seq<(string, Slot)>, depth: nat, ancestors: set<nat>, s: State)
    requires depth <= MAX_DEPTH && CopyProps(t, props, depth, ancestors, s).Copied?
    ensures |CopyProps(t, props, depth, ancestors, s).value| <= |props|
    decreases |props|
  {
    hide Copy;
    if props != [] {
      FewerFields(t, props[1..], depth, ancestors, CopyProp(t, props[0].0, props[0].1, depth, ancestors, s).state);
    }
  }

  lemma {:induction false} ItemCount(t: Task, items: seq<Slot>, index: nat, depth: nat, ancestors: set<nat>, s: State)
    requires depth <= MAX_DEPTH && index <= |items| && CopyItems(t, items, index, depth, ancestors, s).Copied?
    ensures |CopyItems(t, items, index, depth, ancestors, s).value| == |items| - index
    decreases |items| - index
  {
    hide CopySlot;
    if index < |items| {
      ItemCount(t, items, index + 1, depth, ancestors, CopySlot(t, items[index], index, depth, ancestors, s).state);
    }
  }

  lemma {:induction false} AllPresent(items: seq<Slot>)
    ensures Present(items) <= |items|
    decreases |items|
  {
    if items != [] { AllPresent(items[1..]); }
  }

  lemma {:induction false} PropsAgain(t: Task, f: State, base: nat, props: seq<(string, Slot)>, depth: nat,
      ancestors: set<nat>, s: State, u: State)
    requires depth <= MAX_DEPTH && OnTheWay(t, f, ancestors, s) && Alike(t, s, u)
    requires CopyProps(t, props, depth, ancestors, s).Copied? &&
             Grows(CopyProps(t, props, depth, ancestors, s).state, f)
    ensures var r := CopyProps(t, props, depth, ancestors, s);
            var q := CopyProps(Second(t, f, base), PlainProps(r.value), depth, Image(f, ancestors), u);
            q.Copied? && Alike(t, r.state, q.state)
    decreases MAX_DEPTH - depth, 2, |props|
  {
    hide CopyProp, Sound, Dense, Image, Grows, Alike;
    if props != [] {
      var (key, slot) := props[0];
      var r := CopyProp(t, key, slot, depth, ancestors, s);
      var rest := CopyProps(t, props[1..], depth, ancestors, r.state);
      PropKeeps(t, key, slot, depth, ancestors, s);
      PropsKeep(t, props[1..], depth, ancestors, r.state);
      GrowsOn(r.state, rest.state, f);
      var u' := PropAgain(t, f, base, key, slot, depth, ancestors, s, u);
      PropsAgain(t, f, base, props[1..], depth, ancestors, r.state, u');
      OneMoreProp(Second(t, f, base), r.value, rest.value, depth, Image(f, ancestors), u, u');
    }
  }

  /** The second copy of what the first copied of one property, which is at most one field. */
  ghost predicate PropRedone(t: Task, field: seq<(string, Value)>, depth: nat, ancestors: set<nat>, u: State, u': State)
    requires depth <= MAX_DEPTH
  {
    if field == [] then u' == u
    else |field| == 1 && CopyProp(t, field[0].0, PlainSlot(field[0].1), depth, ancestors, u).Copied?
         && CopyProp(t, field[0].0, PlainSlot(field[0].1), depth, ancestors, u).state == u'
  }

  lemma OneMoreProp(t: Task, field: seq<(string, Value)>, rest: seq<(string, Value)>, depth: nat, ancestors: set<nat>,
      u: State, u': State)
    requires depth <= MAX_DEPTH && PropRedone(t, field, depth, ancestors, u, u')
    requires CopyProps(t, PlainProps(rest), depth, ancestors, u').Copied?
    ensures CopyProps(t, PlainProps(field + rest), depth, ancestors, u).Copied?
    ensures CopyProps(t, PlainProps(field + rest), depth, ancestors, u).state ==
            CopyProps(t, PlainProps(rest), depth, ancestors, u').state
  {
    hide CopyProp;
    if field == [] {
      assert field + rest == rest;
    } else {
      assert PlainProps(field + rest)[1..] == PlainProps(rest);
    }
  }

  lemma {:induction false} PropAgain(t: Task, f: State, base: nat, key: string, slot: Slot, depth: nat,
                                       ancestors: set<nat>, s: State, u: State) returns (u': State)
    requires depth <= MAX_DEPTH && OnTheWay(t, f, ancestors, s) && Alike(t, s, u)
    requires CopyProp(t, key, slot, depth, ancestors, s).Copied? &&
             Grows(CopyProp(t, key, slot, depth, ancestors, s).state, f)
    ensures var r := CopyProp(t, key, slot, depth, ancestors, s);
            PropRedone(Second(t, f, base), r.value, depth, Image(f, ancestors), u, u') && Alike(t, r.state, u')
    decreases MAX_DEPTH - depth, 1
  {
    hide Copy, Sound, Dense, Image, Grows;
    u' := u;
    if !t.forbidden(key) && !slot.Hole? && slot.enumerable {
      var s', u1 := AddText(s, |key|).value, AddText(u, |key|).value;
      SoundIgnoresCounts(t, s, s');
      CopyAgain(t, f, base, slot.entry, depth + 1, ancestors, s', u1);
      var v := Copy(t, slot.entry, depth + 1, ancestors, s').value;
      u' := Copy(Second(t, f, base), EntryOf(v), depth + 1, Image(f, ancestors), u1).state;
    }
  }

  lemma {:induction false} ItemsAgain(t: Task, f: State, base: nat, items: seq<Slot>, vs: seq<Value>, index: nat,
      depth: nat,
                                        ancestors: set<nat>, s: State, u: State)
    requires depth <= MAX_DEPTH && index <= |items| == |vs| && OnTheWay(t, f, ancestors, s) && Alike(t, s, u)
    requires forall i :: 0 <= i < |items| ==> !items[i].Hole? && items[i].enumerable
    requires CopyItems(t, items, index, depth, ancestors, s).Copied? &&
             Grows(CopyItems(t, items, index, depth, ancestors, s).state, f)
    requires CopyItems(t, items, index, depth, ancestors, s).value == vs[index..]
    ensures var r := CopyItems(t, items, index, depth, ancestors, s);
            var q := CopyItems(Second(t, f, base), PlainSlots(vs), index, depth, Image(f, ancestors), u);
            q.Copied? && Alike(t, r.state, q.state)
    decreases MAX_DEPTH - depth, 2, |items| - index
  {
    hide CopySlot, Sound, Dense, Image, Grows, Alike;
    if index < |items| {
      var slot := items[index];
      var r := CopySlot(t, slot, index, depth, ancestors, s);
      var rest := CopyItems(t, items, index + 1, depth, ancestors, r.state);
      SlotKeeps(t, slot, index, depth, ancestors, s);
      ItemsKeep(t, items, index + 1, depth, ancestors, r.state);
      GrowsOn(r.state, rest.state, f);
      assert r.value == vs[index..][0] == vs[index] && rest.value == vs[index..][1..] == vs[index + 1..];
      SlotAgain(t, f, base, slot, index, depth, ancestors, s, u);
      var u' := CopySlot(Second(t, f, base), PlainSlot(r.value), index, depth, Image(f, ancestors), u).state;
      ItemsAgain(t, f, base, items, vs, index + 1, depth, ancestors, r.state, u');
    }
  }

  lemma {:induction false} SlotAgain(t: Task, f: State, base: nat, slot: Slot, index: nat, depth: nat,
      ancestors: set<nat>, s: State, u: State)
    requires depth <= MAX_DEPTH && OnTheWay(t, f, ancestors, s) && Alike(t, s, u) && !slot.Hole? && slot.enumerable
    requires CopySlot(t, slot, index, depth, ancestors, s).Copied? &&
             Grows(CopySlot(t, slot, index, depth, ancestors, s).state, f)
    ensures var r := CopySlot(t, slot, index, depth, ancestors, s);
            var q := CopySlot(Second(t, f, base), PlainSlot(r.value), index, depth, Image(f, ancestors), u);
            q.Copied? && Alike(t, r.state, q.state)
    decreases MAX_DEPTH - depth, 1
  {
    hide Copy, Sound, Dense, Image, Grows;
    var s', u' := AddText(s, Digits(index)).value, AddText(u, Digits(index)).value;
    SoundIgnoresCounts(t, s, s');
    CopyAgain(t, f, base, slot.entry, depth + 1, ancestors, s', u');
  }

  // ---- main result ----------------------------------------------------------------------------

  lemma RelatedFromCopyOf(m: map<nat, nat>, v: Value, w: Value)
    requires CopyOf(m, EntryOf(v), w)
    ensures Related(m, v, w)
  {
  }

  lemma {:induction false} PlainPropsVisible(t: Task, fs: seq<(string, Value)>)
    requires forall i :: 0 <= i < |fs| ==> !t.forbidden(fs[i].0)
    ensures VisibleFields(t, PlainProps(fs)) == seq(|fs|, i requires 0 <= i < |fs| => (fs[i].0, EntryOf(fs[i].1)))
    decreases |fs|
  {
    if fs != [] {
      PlainPropsVisible(t, fs[1..]);
      assert PlainProps(fs)[1..] == PlainProps(fs[1..]);
    }
  }

  lemma MirrorIsSameObj(t: Task, o: Obj, p: Obj, m: map<nat, nat>)
    requires Mirrors(t, PlainSource(o), p, m) &&
             (o.Rec? ==> forall i :: 0 <= i < |o.fields| ==> !t.forbidden(o.fields[i].0))
    ensures SameObj(m, o, p)
  {
    hide CopyOf, Related;
    match o
    case Arr(items) =>
      forall i | 0 <= i < |items| ensures Related(m, items[i], p.items[i]) {
        assert VisibleItems(PlainSlots(items))[i] == EntryOf(items[i]);
        RelatedFromCopyOf(m, items[i], p.items[i]);
      }
    case Rec(fields) =>
      PlainPropsVisible(t, fields);
      forall i | 0 <= i < |fields| ensures fields[i].0 == p.fields[i].0 && Related(m, fields[i].1, p.fields[i].1) {
        RelatedFromCopyOf(m, fields[i].1, p.fields[i].1);
      }
  }

  /**
   * Whatever the source, its snapshot and a snapshot of that are the same graph up to the renaming that copied it,
   * whenever there is a second one.
   */
  lemma CopiedAgainIsSame(t: Task, e: Entry, base: nat)
    requires Snap(t, e).Copied?
    requires var Copied(v, s) := Snap(t, e); Snap(Second(t, s, base), EntryOf(v)).Copied?
    ensures var Copied(v, s) := Snap(t, e);
            var q := Snap(Second(t, s, base), EntryOf(v));
            Isomorphic(q.state.copies, s.out, q.state.out) && Related(q.state.copies, v, q.value)
  {
    hide Copy, Mirrors, HasChild, SameObj, PlainSource, Related;
    var Copied(v, s) := Snap(t, e);
    var t2 := Second(t, s, base);
    var q := Snap(t2, EntryOf(v));
    SnapshotGraph.StartSound(t2);
    CopyKeeps(t2, EntryOf(v), 0, {}, START);
    RelatedFromCopyOf(q.state.copies, v, q.value);
    SnapshotGraph.SnapshotIsSafe(t, e);
    SnapshotGraph.SoundIsOneToOne(t2, q.state);
    forall n | n in q.state.copies
      ensures n in s.out && SameObj(q.state.copies, s.out[n], q.state.out[q.state.copies[n]])
    {
      MirrorIsSameObj(t2, s.out[n], q.state.out[q.state.copies[n]], q.state.copies);
    }
  }

  /** A snapshot of the snapshot of a dense source succeeds, with the same number of visits and no more text. */
  lemma SnapshotOfSnapshot(t: Task, e: Entry, base: nat)
    requires Dense(t.source) && Snap(t, e).Copied?
    ensures var Copied(v, s) := Snap(t, e);
            var q := Snap(Second(t, s, base), EntryOf(v));
            q.Copied? && q.state.nodes == s.nodes && q.state.text <= s.text
            && Isomorphic(q.state.copies, s.out, q.state.out) && Related(q.state.copies, v, q.value)
  {
    hide Copy, Sound, Dense, Isomorphic, Related;
    SnapshotGraph.StartSound(t);
    CopyKeeps(t, e, 0, {}, START);
    var s := Snap(t, e).state;
    NothingGrows(s);
    CopyAgain(t, s, base, e, 0, {}, START, START);
    assert Image(s, {}) == {};
    CopiedAgainIsSame(t, e, base);
  }

  /**
   * Made nodes have no gaps; so a source of nothing else, a snapshot above all, can be copied as often as one likes.
   */
  lemma PlainIsDense(h: Heap)
    ensures Dense(PlainHeap(h))
  {
  }
}
