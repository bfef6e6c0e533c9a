/** JSON-like values that live in a graph of shared arrays and records. */
module Values {

  import opened Options
  import Lexer

  /**
   * `Ref` is an array or record of the graph; `Fresh` is an array made during evaluation, identical to nothing else.
   */
  datatype Value =
    | Undefined
    | Null
    | Bool(flag: bool)
    | Number(number: real)
    | Text(text: string)
    | Ref(id: nat)
    | Fresh(items: seq<Value>)

  datatype Obj = Arr(items: seq<Value>) | Rec(fields: seq<(string, Value)>)

  type Heap = map<nat, Obj>

  // ---- own properties -------------------------------------------------------------------------

  /** A decimal index without superfluous zeros, as a number. */
  function Index(name: string): Option<nat>
  {
    if name == "" || (name[0] == '0' && |name| > 1) || exists k :: 0 <= k < |name| && !Lexer.IsDigit(name[k]) then None
    else Some(Lexer.WholeValue(name))
  }

  function Item(items: seq<Value>, name: string): Option<Value>
  {
    if name == "length" then Some(Number(|items| as real))
    else match Index(name)
      case Some(i) => if i < |items| then Some(items[i]) else None
      case None => None
  }

  function Field(fields: seq<(string, Value)>, name: string): Option<Value>
  {
    if fields == [] then None
    else if fields[0].0 == name then Some(fields[0].1)
    else Field(fields[1..], name)
  }

  function Letter(text: string, name: string): Option<Value>
  {
    if name == "length" then Some(Number(|text| as real))
    else match Index(name)
      case Some(i) => if i < |text| then Some(Text([text[i]])) else None
      case None => None
  }

  /** The own property `name` of a value. */
  function Own(h: Heap, v: Value, name: string): Option<Value>
  {
    match v
    case Ref(id) =>
      if id !in h then None
      else (match h[id] case Arr(items) => Item(items, name) case Rec(fields) => Field(fields, name))
    case Fresh(items) => Item(items, name)
    case Text(text) => Letter(text, name)
    case _ => None
  }

  function Elements(h: Heap, v: Value): Option<seq<Value>>
  {
    match v
    case Ref(id) => if id in h && h[id].Arr? then Some(h[id].items) else None
    case Fresh(items) => Some(items)
    case _ => None
  }

  predicate IsObject(v: Value) { v.Ref? || v.Fresh? }

  // ---- isomorphism of graphs ------------------------------------------------------------------

  /** Same value up to the renaming m of graph nodes. */
  ghost predicate Related(m: map<nat, nat>, v: Value, w: Value)
  {
    match v
    case Ref(id) => w.Ref? && id in m && m[id] == w.id
    case Fresh(items) =>
      w.Fresh? && |items| == |w.items| && forall i :: 0 <= i < |items| ==> Related(m, items[i], w.items[i])
    case _ => v == w
  }

  ghost predicate AllRelated(m: map<nat, nat>, vs: seq<Value>, ws: seq<Value>)
  {
    |vs| == |ws| && forall i :: 0 <= i < |vs| ==> Related(m, vs[i], ws[i])
  }

  ghost predicate SameFields(m: map<nat, nat>, fs: seq<(string, Value)>, gs: seq<(string, Value)>)
  {
    |fs| == |gs| && forall i :: 0 <= i < |fs| ==> fs[i].0 == gs[i].0 && Related(m, fs[i].1, gs[i].1)
  }

  ghost predicate SameObj(m: map<nat, nat>, o: Obj, p: Obj)
  {
    match o
    case Arr(items) => p.Arr? && AllRelated(m, items, p.items)
    case Rec(fields) => p.Rec? && SameFields(m, fields, p.fields)
  }

  ghost predicate Injective(m: map<nat, nat>) { forall i, j :: i in m && j in m && m[i] == m[j] ==> i == j }

  /** m renames nodes of h to nodes of g one to one, and renamed nodes hold the same things up to m. */
  ghost predicate Isomorphic(m: map<nat, nat>, h: Heap, g: Heap)
  {
    Injective(m) && forall i :: i in m ==> i in h && m[i] in g && SameObj(m, h[i], g[m[i]])
  }

  ghost predicate OptionRelated(m: map<nat, nat>, v: Option<Value>, w: Option<Value>)
  {
    match v case None => w == None case Some(x) => w.Some? && Related(m, x, w.value)
  }

  lemma {:induction false} FieldRelated(m: map<nat, nat>, fs: seq<(string, Value)>, gs: seq<(string, Value)>,
      name: string)
    requires SameFields(m, fs, gs)
    ensures OptionRelated(m, Field(fs, name), Field(gs, name))
    decreases |fs|
  {
    if fs != [] && fs[0].0 != name { FieldRelated(m, fs[1..], gs[1..], name); }
  }

  lemma OwnRelated(m: map<nat, nat>, h: Heap, g: Heap, v: Value, w: Value, name: string)
    requires Isomorphic(m, h, g) && Related(m, v, w)
    ensures OptionRelated(m, Own(h, v, name), Own(g, w, name))
  {
    if v.Ref? && h[v.id].Rec? { FieldRelated(m, h[v.id].fields, g[w.id].fields, name); }
  }

  lemma ElementsRelated(m: map<nat, nat>, h: Heap, g: Heap, v: Value, w: Value)
    requires Isomorphic(m, h, g) && Related(m, v, w)
    ensures Elements(h, v).Some? <==> Elements(g, w).Some?
    ensures Elements(h, v).Some? ==> AllRelated(m, Elements(h, v).value, Elements(g, w).value)
  {
  }
}
