/**
 * The bounded depth-first copier of form attachment contexts: what it answers, over a source graph whose records
 * and arrays may hold holes, hidden slots, accessors and values that have no copy.
 */
module Snapshot {
  import opened Options
  import opened Values

  /** A value as the source holds it. `NonFinite` is NaN or an infinity, `Foreign` a function, symbol or bigint. */
  datatype Entry =
    | EUndefined
    | ENull
    | EBool(flag: bool)
    | ENumber(number: real)
    | EText(text: string)
    | ERef(id: nat)
    | NonFinite
    | Foreign

  /** An own property: absent, a value, or an accessor. */
  datatype Slot = Hole | Data(entry: Entry, enumerable: bool) | Accessor(enumerable: bool)

  /** `extra` counts an array's own names that are not indices; `alien` marks a record with a foreign prototype. */
  datatype Source = SArr(items: seq<Slot>, extra: nat) | SRec(alien: bool, props: seq<(string, Slot)>)

  type SourceHeap = map<nat, Source>

  const MAX_DEPTH: nat := 64
  const MAX_VALUES: nat := 500000
  const MAX_LIST: nat := 100000
  const MAX_TEXT: nat := 1000000
  const MAX_TOTAL_TEXT: nat := 50000000

  datatype Reason = Limits | Invalid

  /**
   * The copier's memory: values and text counted so far, which source node was copied to which node, the source
   * nodes in the order their copies were finished, and the nodes made.
   */
  datatype State = State(nodes: nat, text: nat, copies: map<nat, nat>, order: seq<nat>, out: Heap)

  datatype Outcome<+T> = Copied(value: T, state: State) | Rejected(reason: Reason)

  /** The source, the names that must not be copied, and the first free node number. */
  datatype Task = Task(source: SourceHeap, forbidden: string -> bool, base: nat)

  function Digits(n: nat): nat { if n < 10 then 1 else 1 + Digits(n / 10) }

  function Present(items: seq<Slot>): nat
  {
    if items == [] then 0 else (if items[0].Hole? then 0 else 1) + Present(items[1..])
  }

  /** Counting a text of this length, or nothing when it passes a limit. */
  function AddText(s: State, length: nat): Option<State>
  {
    if length > MAX_TEXT || s.text + length > MAX_TOTAL_TEXT then None else Some(s.(text := s.text + length))
  }

  function Finish(s: State, t: Task, id: nat, made: Obj): State
  {
    var node := t.base + |s.order|;
    s.(copies := s.copies[id := node], order := s.order + [id], out := s.out[node := made])
  }

  function Copy(t: Task, e: Entry, depth: nat, ancestors: set<nat>, s: State): Outcome<Value>
    decreases if depth > MAX_DEPTH then 0 else MAX_DEPTH + 1 - depth, 0
  {
    if depth > MAX_DEPTH || s.nodes + 1 > MAX_VALUES then Rejected(Limits)
    else
      var s := s.(nodes := s.nodes + 1);
      match e
      case EUndefined => Copied(Undefined, s)
      case ENull => Copied(Null, s)
      case EBool(b) => Copied(Bool(b), s)
      case ENumber(n) => Copied(Number(n), s)
      case EText(text) =>
        (match AddText(s, |text|) case None => Rejected(Limits) case Some(s') => Copied(Text(text), s'))
      case NonFinite => Rejected(Invalid)
      case Foreign => Rejected(Invalid)
      case ERef(id) =>
        if id in ancestors || id !in t.source then Rejected(Invalid)
        else if id in s.copies then Copied(Ref(s.copies[id]), s)
        else
          match CopyObject(t, t.source[id], depth, ancestors + {id}, s)
          case Rejected(r) => Rejected(r)
          case Copied(made, s') => Copied(Ref(t.base + |s'.order|), Finish(s', t, id, made))
  }

  function CopyObject(t: Task, o: Source, depth: nat, ancestors: set<nat>, s: State): Outcome<Obj>
    requires depth <= MAX_DEPTH
    decreases MAX_DEPTH - depth, 3
  {
    match o
    case SRec(alien, props) =>
      if alien then Rejected(Invalid)
      else if |props| > MAX_LIST then Rejected(Limits)
      else
        (match CopyProps(t, props, depth, ancestors,
            s) case Rejected(r) => Rejected(r) case Copied(fs, s') => Copied(Rec(fs), s'))
    case SArr(items, extra) =>
      if |items| > MAX_LIST || Present(items) + 1 + extra > MAX_LIST + 1 then Rejected(Limits)
      else
        (match CopyItems(t, items, 0, depth, ancestors,
            s) case Rejected(r) => Rejected(r) case Copied(vs, s') => Copied(Arr(vs), s'))
  }

  /** The copies of a record's visible properties, in order. */
  function CopyProps(t: Task, props: seq<(string, Slot)>, depth: nat, ancestors: set<nat>,
      s: State): Outcome<seq<(string, Value)>>
    requires depth <= MAX_DEPTH
    decreases MAX_DEPTH - depth, 2, |props|
  {
    if props == [] then Copied([], s)
    else
      match CopyProp(t, props[0].0, props[0].1, depth, ancestors, s)
      case Rejected(r) => Rejected(r)
      case Copied(field, s') =>
        match CopyProps(t, props[1..], depth, ancestors, s')
        case Rejected(r) => Rejected(r)
        case Copied(fields, s'') => Copied(field + fields, s'')
  }

  /** One property of a record: no field when it is hidden, else its copy. */
  function CopyProp(t: Task, key: string, slot: Slot, depth: nat, ancestors: set<nat>, s: State): Outcome<seq<(string,
      Value)>>
    requires depth <= MAX_DEPTH
    decreases MAX_DEPTH - depth, 1
  {
    if t.forbidden(key) || slot.Hole? then Copied([], s)
    else
      match AddText(s, |key|)
      case None => Rejected(Limits)
      case Some(s') =>
        if !slot.enumerable then Copied([], s')
        else if slot.Accessor? then Rejected(Invalid)
        else
          match Copy(t, slot.entry, depth + 1, ancestors, s')
          case Rejected(r) => Rejected(r)
          case Copied(v, s'') => Copied([(key, v)], s'')
  }

  /** The copies of an array's slots from `index` on; a slot that is absent or hidden is copied as null. */
  function CopyItems(t: Task, items: seq<Slot>, index: nat, depth: nat, ancestors: set<nat>,
      s: State): Outcome<seq<Value>>
    requires depth <= MAX_DEPTH && index <= |items|
    decreases MAX_DEPTH - depth, 2, |items| - index
  {
    if index == |items| then Copied([], s)
    else
      match CopySlot(t, items[index], index, depth, ancestors, s)
      case Rejected(r) => Rejected(r)
      case Copied(v, s') =>
        match CopyItems(t, items, index + 1, depth, ancestors, s')
        case Rejected(r) => Rejected(r)
        case Copied(vs, s'') => Copied([v] + vs, s'')
  }

  function CopySlot(t: Task, slot: Slot, index: nat, depth: nat, ancestors: set<nat>, s: State): Outcome<Value>
    requires depth <= MAX_DEPTH
    decreases MAX_DEPTH - depth, 1
  {
    if slot.Hole? then Copied(Null, s)
    else
      match AddText(s, Digits(index))
      case None => Rejected(Limits)
      case Some(s') =>
        if !slot.enumerable then Copied(Null, s')
        else if slot.Accessor? then Rejected(Invalid)
        else Copy(t, slot.entry, depth + 1, ancestors, s')
  }

  const START: State := State(0, 0, map[], [], map[])

  /** The snapshot of a value. */
  function Snap(t: Task, e: Entry): Outcome<Value> { Copy(t, e, 0, {}, START) }

  // ---- the copier as it runs ------------------------------------------------------------------

  class Copier {
    const task: Task
    var nodes: nat
    var text: nat
    var ancestors: set<nat>
    var copies: map<nat, nat>
    var order: seq<nat>
    var out: Heap

    function Memory(): State
      reads this
    {
      State(nodes, text, copies, order, out)
    }

    /** The run answered what the specification answers and, on success, remembers what it remembers. */
    ghost predicate Agrees<T>(r: Option<T>, reason: Reason, wanted: Outcome<T>)
      reads this
    {
      match wanted
      case Rejected(why) => r == None && reason == why
      case Copied(value, s) => r == Some(value) && Memory() == s
    }

    constructor (task: Task)
      ensures this.task == task && Memory() == START && ancestors == {}
    {
      this.task := task;
      nodes, text, ancestors, copies, order, out := 0, 0, {}, map[], [], map[];
    }

    method CountText(length: nat) returns (ok: bool)
      modifies this`text
      ensures ok == AddText(old(Memory()), length).Some?
      ensures ok ==> Memory() == AddText(old(Memory()), length).value
    {
      text := text + length;
      ok := length <= MAX_TEXT && text <= MAX_TOTAL_TEXT;
    }

    method Run(e: Entry, depth: nat) returns (r: Option<Value>, reason: Reason)
      modifies this
      ensures Agrees(r, reason, Copy(task, e, depth, old(ancestors), old(Memory()))) && ancestors == old(ancestors)
      decreases if depth > MAX_DEPTH then 0 else MAX_DEPTH + 1 - depth, 0
    {
      reason := Limits;
      if depth > MAX_DEPTH { return None, Limits; }
      nodes := nodes + 1;
      if nodes > MAX_VALUES { return None, Limits; }
      match e {
        case EUndefined => return Some(Undefined), reason;
        case ENull => return Some(Null), reason;
        case EBool(b) => return Some(Bool(b)), reason;
        case ENumber(n) => return Some(Number(n)), reason;
        case NonFinite => return None, Invalid;
        case Foreign => return None, Invalid;
        case EText(value) =>
          var ok := CountText(|value|);
          return if ok then Some(Text(value)) else None, Limits;
        case ERef(id) =>
          if id in ancestors || id !in task.source { return None, Invalid; }
          if id in copies { return Some(Ref(copies[id])), reason; }
          ghost var above := ancestors;
          ancestors := ancestors + {id};
          var made;
          made, reason := RunObject(task.source[id], depth);
          ancestors := ancestors - {id};
          assert ancestors == above;
          if made == None { return None, reason; }
          var node := task.base + |order|;
          copies, order, out := copies[id := node], order + [id], out[node := made.value];
          return Some(Ref(node)), reason;
      }
    }

    method RunObject(o: Source, depth: nat) returns (r: Option<Obj>, reason: Reason)
      requires depth <= MAX_DEPTH
      modifies this
      ensures Agrees(r, reason, CopyObject(task, o, depth, old(ancestors), old(Memory()))) &&
              ancestors == old(ancestors)
      decreases MAX_DEPTH - depth, 3
    {
      reason := Limits;
      match o {
        case SRec(alien, props) =>
          if alien { return None, Invalid; }
          if |props| > MAX_LIST { return None, Limits; }
          var fields: seq<(string, Value)> := [];
          NothingBefore(CopyProps(task, props, depth, ancestors, Memory()));
          for i := 0 to |props|
            invariant ancestors == old(ancestors)
            invariant CopyProps(task, props, depth, ancestors, old(Memory())) ==
                      After(fields, CopyProps(task, props[i..], depth, ancestors, Memory()))
          {
            ghost var before := Memory();
            var (key, slot) := props[i];
            ghost var step := CopyProp(task, key, slot, depth, ancestors, before);
            assert props[i..][0] == props[i] && props[i..][1..] == props[i + 1..];
            if !task.forbidden(key) && !slot.Hole? {
              var ok := CountText(|key|);
              if !ok { return None, Limits; }
              if slot.enumerable {
                if slot.Accessor? { return None, Invalid; }
                var v;
                v, reason := Run(slot.entry, depth + 1);
                if v == None { return None, reason; }
                AfterStep(fields, step.value, CopyProps(task, props[i + 1..], depth, ancestors, Memory()));
                fields := fields + [(key, v.value)];
                continue;
              }
            }
            AfterStep(fields, [], CopyProps(task, props[i + 1..], depth, ancestors, Memory()));
            assert fields + [] == fields;
          }
          assert props[|props|..] == [];
          assert fields + [] == fields;
          return Some(Rec(fields)), reason;
        case SArr(items, extra) =>
          if |items| > MAX_LIST || Present(items) + 1 + extra > MAX_LIST + 1 { return None, Limits; }
          var values: seq<Value> := [];
          NothingBefore(CopyItems(task, items, 0, depth, ancestors, Memory()));
          for i := 0 to |items|
            invariant ancestors == old(ancestors)
            invariant CopyItems(task, items, 0, depth, ancestors, old(Memory())) ==
                      After(values, CopyItems(task, items, i, depth, ancestors, Memory()))
          {
            var slot := items[i];
            var v := Some(Null);
            if !slot.Hole? {
              var ok := CountText(Digits(i));
              if !ok { return None, Limits; }
              if slot.enumerable {
                if slot.Accessor? { return None, Invalid; }
                v, reason := Run(slot.entry, depth + 1);
                if v == None { return None, reason; }
              }
            }
            AfterStep(values, [v.value], CopyItems(task, items, i + 1, depth, ancestors, Memory()));
            values := values + [v.value];
          }
          assert values + [] == values;
          return Some(Arr(values)), reason;
      }
    }
  }

  /** An outcome with what was copied before it put in front. */
  function After<T>(before: seq<T>, r: Outcome<seq<T>>): Outcome<seq<T>>
  {
    match r case Rejected(why) => Rejected(why) case Copied(rest, s) => Copied(before + rest, s)
  }

  lemma NothingBefore<T>(r: Outcome<seq<T>>)
    ensures After([], r) == r
  {
    if r.Copied? { assert [] + r.value == r.value; }
  }

  lemma AfterStep<T>(before: seq<T>, step: seq<T>, r: Outcome<seq<T>>)
    ensures After(before, After(step, r)) == After(before + step, r)
  {
    if r.Copied? { assert before + (step + r.value) == before + step + r.value; }
  }

  method TakeSnapshot(task: Task, e: Entry) returns (r: Outcome<Value>)
    ensures r == Snap(task, e)
  {
    var copier := new Copier(task);
    var v, reason := copier.Run(e, 0);
    return if v == None then Rejected(reason) else Copied(v.value, copier.Memory());
  }
}
