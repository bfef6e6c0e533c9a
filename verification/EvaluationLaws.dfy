/**
 * What expressions compute, operator by operator and function by function, said of the values of their parts and
 * without the functions that compute it.
 */
module EvaluationLaws {
  import opened Options
  import opened Syntax
  import opened Values
  import opened Evaluator
  import Lexer
  import Texts
  import ValidationProof
  import ValidationRules

  // ---- how values are read --------------------------------------------------------------------

  predicate Inked(s: string) { exists k :: 0 <= k < |s| && !Lexer.IsSpace(s[k]) }

  /** A number, or a text that is not blank and that the runtime reads as one. */
  predicate ReadsAs(v: Value, a: real, host: Host)
  {
    v == Number(a) || (v.Text? && Inked(v.text) && host.number(v.text) == Some(a))
  }

  ghost predicate Numberless(v: Value, host: Host) { forall a :: !ReadsAs(v, a, host) }

  predicate ReadsBool(v: Value, b: bool) { v == Bool(b) || v == Text(if b then "true" else "false") }

  /** An array of the graph, or one made during evaluation, with these items. */
  predicate ListOf(h: Heap, v: Value, items: seq<Value>)
  {
    v == Fresh(items) || (v.Ref? && v.id in h && h[v.id] == Arr(items))
  }

  ghost predicate NoList(h: Heap, v: Value) { forall items :: !ListOf(h, v, items) }

  predicate Empty(h: Heap, v: Value)
  {
    v.Undefined? || v.Null? || (v.Text? && !Inked(v.text)) || ListOf(h, v, [])
  }

  predicate CountsAsFalse(h: Heap, v: Value)
  {
    Empty(h, v) || v == Bool(false) || v == Text("false") || v == Number(0.0)
  }

  lemma ReadExactly(v: Value, a: real, host: Host)
    ensures ToNumber(v, host) == Some(a) <==> ReadsAs(v, a, host)
  {
  }

  lemma ReadNothing(v: Value, host: Host)
    ensures ToNumber(v, host) == None <==> Numberless(v, host)
  {
    forall a ensures ToNumber(v, host) == Some(a) <==> ReadsAs(v, a, host) { ReadExactly(v, a, host); }
    if ToNumber(v, host).Some? { assert ReadsAs(v, ToNumber(v, host).value, host); }
  }

  lemma BoolExactly(v: Value, b: bool)
    ensures ToBoolean(v) == Some(b) <==> ReadsBool(v, b)
  {
  }

  lemma ListExactly(h: Heap, v: Value)
    ensures forall items :: Elements(h, v) == Some(items) <==> ListOf(h, v, items)
    ensures IsArray(h, v) <==> !NoList(h, v)
  {
    if IsArray(h, v) { assert ListOf(h, v, Elements(h, v).value); }
  }

  lemma EmptyExactly(h: Heap, v: Value)
    ensures IsBlank(h, v) <==> Empty(h, v)
  {
  }

  lemma TruthExactly(h: Heap, v: Value)
    ensures IsTruthy(h, v) <==> !CountsAsFalse(h, v)
  {
    EmptyExactly(h, v);
    BoolExactly(v, true);
    BoolExactly(v, false);
    if v == Text("true") || v == Text("false") { assert !Lexer.IsSpace(v.text[0]) && Inked(v.text); }
  }

  // ---- equality -------------------------------------------------------------------------------

  /**
   * Two empty values are equal unless one is a list; a boolean equals what reads as the same boolean, a number what
   * reads as the same number; anything else only the same text or the same object.
   */
  ghost predicate Equal(h: Heap, v: Value, w: Value, host: Host)
  {
    || (Empty(h, v) && Empty(h, w) && NoList(h, v) && NoList(h, w))
    || (!(Empty(h, v) && Empty(h, w)) && (
          || ((v.Bool? || w.Bool?) && exists b :: ReadsBool(v, b) && ReadsBool(w, b))
          || (!v.Bool? && !w.Bool? && (v.Number? || w.Number?) &&
              exists a :: ReadsAs(v, a, host) && ReadsAs(w, a, host))
          || (v == w && (v.Text? || v.Ref?))))
  }

  lemma EqualsExactly(h: Heap, v: Value, w: Value, host: Host)
    ensures LooseEquals(h, v, w, host) <==> Equal(h, v, w, host)
  {
    EmptyExactly(h, v);
    EmptyExactly(h, w);
    ListExactly(h, v);
    ListExactly(h, w);
    ReadNothing(v, host);
    ReadNothing(w, host);
    forall b ensures (ToBoolean(v) == Some(b) <==> ReadsBool(v, b)) && (ToBoolean(w) == Some(b) <==> ReadsBool(w, b)) {
      BoolExactly(v, b);
      BoolExactly(w, b);
    }
    forall a
      ensures (ToNumber(v, host) == Some(a) <==> ReadsAs(v, a, host))
      ensures (ToNumber(w, host) == Some(a) <==> ReadsAs(w, a, host))
    {
      ReadExactly(v, a, host);
      ReadExactly(w, a, host);
    }
    hide ToNumber, ToBoolean, ReadsAs, ReadsBool, Inked;
  }

  lemma EqualTurns(h: Heap, v: Value, w: Value, host: Host)
    ensures Equal(h, v, w, host) <==> Equal(h, w, v, host)
  {
    hide Empty, ReadsAs, ReadsBool, NoList;
  }

  // ---- operators ------------------------------------------------------------------------------

  /** A literal is its value, and a list of trees is a new list of their values. */
  lemma {:induction false} Leaves(n: real, s: string, b: bool, items: seq<Node>, h: Heap, root: Value, host: Host)
    requires forall i :: 0 <= i < |items| ==> CallsChecked(items[i])
    ensures Run(Lit(LNum(n)), h, root, host) == Number(n) && Run(Lit(LText(s)), h, root, host) == Text(s)
    ensures Run(Lit(LBool(b)), h, root, host) == Bool(b) && Run(Lit(LNull), h, root, host) == Null
    ensures var v := Run(List(items), h, root, host);
      v.Fresh? && |v.items| == |items| && forall i :: 0 <= i < |items| ==> v.items[i] == Run(items[i], h, root, host)
  {
    ValuesInTurn(items, h, root, host);
  }

  lemma {:induction false} ValuesInTurn(ts: seq<Node>, h: Heap, root: Value, host: Host)
    requires forall i :: 0 <= i < |ts| ==> CallsChecked(ts[i])
    ensures forall i :: 0 <= i < |ts| ==> RunAll(ts, h, root, host)[i] == Run(ts[i], h, root, host)
    decreases |ts|
  {
    hide Run;
    if ts != [] { ValuesInTurn(ts[1..], h, root, host); }
  }

  /** `!`, `&&` and `||` are the truth tables over what counts as false. */
  lemma Logic(l: Node, r: Node, h: Heap, root: Value, host: Host)
    requires CallsChecked(l) && CallsChecked(r)
    ensures var p, q := !CountsAsFalse(h, Run(l, h, root, host)), !CountsAsFalse(h, Run(r, h, root, host));
      && Run(Unary(Not, l), h, root, host) == Bool(!p)
      && Run(Binary(And, l, r), h, root, host) == Bool(p && q)
      && Run(Binary(Or, l, r), h, root, host) == Bool(p || q)
  {
    hide IsTruthy, CountsAsFalse;
    TruthExactly(h, Run(l, h, root, host));
    TruthExactly(h, Run(r, h, root, host));
  }

  lemma Relates(relation: Relation, l: Node, r: Node, h: Heap, root: Value, host: Host)
    requires CallsChecked(l) && CallsChecked(r)
    ensures Run(Binary(Relate(relation), l, r), h, root, host)
      == Compare(relation, Run(l, h, root, host), Run(r, h, root, host), h, host)
  {
    hide Compare;
  }

  lemma Combines(op: BinaryOp, l: Node, r: Node, h: Heap, root: Value, host: Host)
    requires CallsChecked(l) && CallsChecked(r) && (op.Additive? || op.Multiplicative?)
    ensures Run(Binary(op, l, r), h, root, host) == Combine(op, Run(l, h, root, host), Run(r, h, root, host), h, host)
  {
    hide Combine;
  }

  lemma Equality(l: Node, r: Node, h: Heap, root: Value, host: Host)
    requires CallsChecked(l) && CallsChecked(r)
    ensures var equal := Equal(h, Run(l, h, root, host), Run(r, h, root, host), host);
      && Run(Binary(Relate(Eq), l, r), h, root, host) == Bool(equal)
      && Run(Binary(Relate(Ne), l, r), h, root, host) == Bool(!equal)
  {
    hide LooseEquals, Equal, Run;
    Relates(Eq, l, r, h, root, host);
    Relates(Ne, l, r, h, root, host);
    EqualsExactly(h, Run(l, h, root, host), Run(r, h, root, host), host);
  }

  /** Equality does not depend on the side, though it is not transitive. */
  lemma EqualityTurns(l: Node, r: Node, h: Heap, root: Value, host: Host)
    requires CallsChecked(l) && CallsChecked(r)
    ensures Run(Binary(Relate(Eq), l, r), h, root, host) == Run(Binary(Relate(Eq), r, l), h, root, host)
  {
    Equality(l, r, h, root, host);
    Equality(r, l, h, root, host);
    EqualTurns(h, Run(l, h, root, host), Run(r, h, root, host), host);
  }

  /** Some item of some list that v is. */
  ghost predicate HasEqual(h: Heap, list: Value, v: Value, host: Host)
  {
    exists items, i :: ListOf(h, list, items) && 0 <= i < |items| && Equal(h, v, items[i], host)
  }

  lemma Membership(l: Node, r: Node, h: Heap, root: Value, host: Host)
    requires CallsChecked(l) && CallsChecked(r)
    ensures Run(Binary(Relate(In), l, r), h, root, host)
      == Bool(HasEqual(h, Run(r, h, root, host), Run(l, h, root, host), host))
  {
    hide LooseEquals, Equal, ListOf, Elements, Run;
    Relates(In, l, r, h, root, host);
    var v, list := Run(l, h, root, host), Run(r, h, root, host);
    ListExactly(h, list);
    if IsArray(h, list) {
      var items := Elements(h, list).value;
      forall i | 0 <= i < |items| ensures LooseEquals(h, v, items[i], host) <==> Equal(h, v, items[i], host) {
        EqualsExactly(h, v, items[i], host);
      }
    }
  }

  lemma FourRelations(l: Node, r: Node, h: Heap, root: Value, host: Host)
    requires CallsChecked(l) && CallsChecked(r)
    ensures forall relation :: relation in {Lt, Le, Gt, Ge} ==>
      Run(Binary(Relate(relation), l, r), h, root, host)
        == Bool(Ordered(relation, Order(Run(l, h, root, host), Run(r, h, root, host), host)))
  {
    hide Run, Order, Ordered, LooseEquals, Member;
    forall relation | relation in {Lt, Le, Gt, Ge}
      ensures Run(Binary(Relate(relation), l, r), h, root, host)
        == Bool(Ordered(relation, Order(Run(l, h, root, host), Run(r, h, root, host), host)))
    {
      Relates(relation, l, r, h, root, host);
    }
  }

  /** Values read as numbers compare as numbers. */
  lemma NumbersCompare(l: Node, r: Node, h: Heap, root: Value, host: Host, a: real, b: real)
    requires CallsChecked(l) && CallsChecked(r)
    requires ReadsAs(Run(l, h, root, host), a, host) && ReadsAs(Run(r, h, root, host), b, host)
    ensures Run(Binary(Relate(Lt), l, r), h, root, host) == Bool(a < b)
    ensures Run(Binary(Relate(Gt), l, r), h, root, host) == Bool(b < a)
    ensures Run(Binary(Relate(Le), l, r), h, root, host) == Bool(!(b < a))
    ensures Run(Binary(Relate(Ge), l, r), h, root, host) == Bool(!(a < b))
  {
    hide Run;
    FourRelations(l, r, h, root, host);
    ReadExactly(Run(l, h, root, host), a, host);
    ReadExactly(Run(r, h, root, host), b, host);
    hide ToNumber, ReadsAs;
  }

  /** Texts that are not both read as numbers compare character by character. */
  lemma TextsCompare(l: Node, r: Node, h: Heap, root: Value, host: Host, s: string, t: string)
    requires CallsChecked(l) && CallsChecked(r)
    requires Run(l, h, root, host) == Text(s) && Run(r, h, root, host) == Text(t)
    requires Numberless(Text(s), host) || Numberless(Text(t), host)
    ensures var less, more := exists k: nat :: Texts.PartsAt(s, t, k),
        exists k: nat :: Texts.PartsAt(t, s, k);
      && Run(Binary(Relate(Lt), l, r), h, root, host) == Bool(less)
      && Run(Binary(Relate(Gt), l, r), h, root, host) == Bool(more)
      && Run(Binary(Relate(Le), l, r), h, root, host) == Bool(!more)
      && Run(Binary(Relate(Ge), l, r), h, root, host) == Bool(!less)
  {
    hide Run;
    FourRelations(l, r, h, root, host);
    ReadNothing(Text(s), host);
    ReadNothing(Text(t), host);
    Texts.BeforeExactly(s, t);
    Texts.BeforeExactly(t, s);
    Texts.BeforeOrders(s, t);
    hide ToNumber, Texts.PartsAt, Texts.Before;
  }

  /** Other values stand in none of the four relations. */
  lemma OthersDoNotCompare(l: Node, r: Node, h: Heap, root: Value, host: Host, relation: Relation)
    requires CallsChecked(l) && CallsChecked(r) && relation in {Lt, Le, Gt, Ge}
    requires Numberless(Run(l, h, root, host), host) || Numberless(Run(r, h, root, host), host)
    requires !Run(l, h, root, host).Text? || !Run(r, h, root, host).Text?
    ensures Run(Binary(Relate(relation), l, r), h, root, host) == Bool(false)
  {
    hide Run, Order, LooseEquals, Member, Numberless;
    Relates(relation, l, r, h, root, host);
    Incomparable(Run(l, h, root, host), Run(r, h, root, host), host);
  }

  lemma Incomparable(v: Value, w: Value, host: Host)
    requires Numberless(v, host) || Numberless(w, host)
    requires !v.Text? || !w.Text?
    ensures Order(v, w, host) == None
  {
    ReadNothing(v, host);
    ReadNothing(w, host);
  }

  /**
   * Of values read as numbers exactly one of less, equal and greater holds; equal is `==` if one of them is a number.
   */
  lemma ExactlyOneHolds(l: Node, r: Node, h: Heap, root: Value, host: Host, a: real, b: real)
    requires CallsChecked(l) && CallsChecked(r)
    requires ReadsAs(Run(l, h, root, host), a, host) && ReadsAs(Run(r, h, root, host), b, host)
    requires Run(l, h, root, host).Number? || Run(r, h, root, host).Number?
    ensures var less, equal, more := Run(Binary(Relate(Lt), l, r), h, root, host) == Bool(true),
        Run(Binary(Relate(Eq), l, r), h, root, host) == Bool(true),
        Run(Binary(Relate(Gt), l, r), h, root, host) == Bool(true);
      (less || equal || more) && !(less && equal) && !(equal && more) && !(less && more)
  {
    var v, w := Run(l, h, root, host), Run(r, h, root, host);
    NumbersCompare(l, r, h, root, host, a, b);
    Equality(l, r, h, root, host);
    assert Equal(h, v, w, host) <==> a == b by {
      hide Run;
      assert !Empty(h, v) && !Empty(h, w);
    }
  }

  lemma Negated(t: Node, h: Heap, root: Value, host: Host)
    requires CallsChecked(t)
    ensures Run(Unary(Negate, t), h, root, host)
      == match ToNumber(Run(t, h, root, host), host) case Some(n) => Number(-n) case None => Null
  {
    hide ToNumber;
  }

  /** Arithmetic on values read as numbers; dividing by zero is null. */
  lemma NumbersCombine(l: Node, r: Node, h: Heap, root: Value, host: Host, a: real, b: real)
    requires CallsChecked(l) && CallsChecked(r)
    requires ReadsAs(Run(l, h, root, host), a, host) && ReadsAs(Run(r, h, root, host), b, host)
    ensures Run(Binary(Additive(Plus), l, r), h, root, host) == Number(a + b)
    ensures Run(Binary(Additive(Minus), l, r), h, root, host) == Number(a - b)
    ensures Run(Binary(Multiplicative(Times), l, r), h, root, host) == Number(a * b)
    ensures b == 0.0 ==> Run(Binary(Multiplicative(Over), l, r), h, root, host) == Null
    ensures b != 0.0 ==> Run(Binary(Multiplicative(Over), l, r), h, root, host) == Number(a / b)
    ensures Run(Unary(Negate, l), h, root, host) == Number(-a)
  {
    hide Run;
    Combines(Additive(Plus), l, r, h, root, host);
    Combines(Additive(Minus), l, r, h, root, host);
    Combines(Multiplicative(Times), l, r, h, root, host);
    Combines(Multiplicative(Over), l, r, h, root, host);
    Negated(l, h, root, host);
    ReadExactly(Run(l, h, root, host), a, host);
    ReadExactly(Run(r, h, root, host), b, host);
    hide ToNumber, ReadsAs;
  }

  /** Subtraction undoes addition, division by anything but zero undoes multiplication, and `-` undoes itself. */
  lemma Undoing(l: Node, r: Node, h: Heap, root: Value, host: Host, a: real, b: real)
    requires CallsChecked(l) && CallsChecked(r)
    requires ReadsAs(Run(l, h, root, host), a, host) && ReadsAs(Run(r, h, root, host), b, host)
    ensures var sum, product := Binary(Additive(Plus), l, r), Binary(Multiplicative(Times), l, r);
      && Run(Binary(Additive(Minus), sum, r), h, root, host) == Number(a)
      && (b != 0.0 ==> Run(Binary(Multiplicative(Over), product, r), h, root, host) == Number(a))
      && Run(Unary(Negate, Unary(Negate, l)), h, root, host) == Number(a)
  {
    hide Run;
    var sum, product := Binary(Additive(Plus), l, r), Binary(Multiplicative(Times), l, r);
    NumbersCombine(l, r, h, root, host, a, b);
    NumbersCombine(sum, r, h, root, host, a + b, b);
    NumbersCombine(product, r, h, root, host, a * b, b);
    NumbersCombine(Unary(Negate, l), r, h, root, host, -a, b);
    if b != 0.0 { Cancelled(a, b); }
  }

  lemma Cancelled(a: real, b: real)
    requires b != 0.0
    ensures a * b / b == a
  {
  }

  /** Arithmetic with a value not read as a number is null. */
  lemma OthersDoNotCombine(l: Node, r: Node, h: Heap, root: Value, host: Host, op: BinaryOp)
    requires CallsChecked(l) && CallsChecked(r) && (op.Additive? || op.Multiplicative?)
    requires Numberless(Run(l, h, root, host), host) || Numberless(Run(r, h, root, host), host)
    ensures Run(Binary(op, l, r), h, root, host) == Null
    ensures Numberless(Run(l, h, root, host), host) ==> Run(Unary(Negate, l), h, root, host) == Null
  {
    hide Run;
    Combines(op, l, r, h, root, host);
    Negated(l, h, root, host);
    ReadNothing(Run(l, h, root, host), host);
    ReadNothing(Run(r, h, root, host), host);
    hide ToNumber;
  }

  // ---- own properties and paths ---------------------------------------------------------------

  /** The value is under this name for the first time at i. */
  predicate FirstNamed(fields: seq<(string, Value)>, name: string, v: Value, i: nat)
  {
    i < |fields| && fields[i] == (name, v) && forall j :: 0 <= j < i ==> fields[j].0 != name
  }

  lemma {:induction false} FieldExactly(fields: seq<(string, Value)>, name: string, v: Value)
    ensures Field(fields, name) == Some(v) <==> exists i: nat :: FirstNamed(fields, name, v, i)
    decreases |fields|
  {
    if fields != [] {
      if fields[0].0 == name {
        if fields[0].1 == v { assert FirstNamed(fields, name, v, 0); }
      } else {
        FieldExactly(fields[1..], name, v);
        if i: nat :| FirstNamed(fields[1..], name, v, i) { assert FirstNamed(fields, name, v, i + 1); }
        if i: nat :| FirstNamed(fields, name, v, i) {
          forall j | 0 <= j < i - 1 ensures fields[1..][j].0 != name { assert fields[1..][j] == fields[j + 1]; }
          assert FirstNamed(fields[1..], name, v, i - 1);
        }
      }
    }
  }

  /** A record has what stands first under the name. */
  lemma RecordHas(h: Heap, id: nat, name: string, v: Value)
    requires id in h && h[id].Rec?
    ensures Own(h, Ref(id), name) == Some(v) <==> exists i: nat :: FirstNamed(h[id].fields, name, v, i)
  {
    FieldExactly(h[id].fields, name, v);
  }

  lemma {:induction false} DecimalBack(name: string)
    requires Texts.AllDigits(name) && (name[0] != '0' || |name| == 1)
    ensures ValidationRules.Decimal(Lexer.WholeValue(name)) == name
    ensures |name| > 1 ==> Lexer.WholeValue(name) >= 10
    decreases |name|
  {
    var init, last := name[..|name| - 1], name[|name| - 1];
    assert name == init + [last];
    if |name| == 1 {
      assert init == "";
    } else {
      DecimalBack(init);
      if |init| == 1 { assert init[..0] == "" && init[0] != '0'; }
    }
  }

  lemma IndexExactly(name: string, i: nat)
    ensures Index(name) == Some(i) <==> name == ValidationRules.Decimal(i)
  {
    ValidationProof.DecimalIndexes(i);
    if Index(name) == Some(i) { DecimalBack(name); }
  }

  /** A list has its items under their decimal indices, its length, and nothing else. */
  lemma ListHas(h: Heap, list: Value, items: seq<Value>, name: string)
    requires ListOf(h, list, items)
    ensures Own(h, list, "length") == Some(Number(|items| as real))
    ensures forall i :: 0 <= i < |items| ==> Own(h, list, ValidationRules.Decimal(i)) == Some(items[i])
    ensures name != "length" && (forall i :: 0 <= i < |items| ==> name != ValidationRules.Decimal(i)) ==>
      Own(h, list, name) == None
  {
    forall i | 0 <= i < |items| ensures Own(h, list, ValidationRules.Decimal(i)) == Some(items[i]) {
      ValidationProof.DecimalIndexes(i);
    }
    if Index(name).Some? { IndexExactly(name, Index(name).value); }
  }

  /** A text has its characters likewise; a value that is neither text, list nor record has nothing. */
  lemma OthersHave(h: Heap, v: Value, name: string)
    ensures v.Text? ==> Own(h, v, "length") == Some(Number(|v.text| as real))
    ensures v.Text? ==>
      forall i :: 0 <= i < |v.text| ==> Own(h, v, ValidationRules.Decimal(i)) == Some(Text([v.text[i]]))
    ensures v.Text? && name != "length" && (forall i :: 0 <= i < |v.text| ==> name != ValidationRules.Decimal(i)) ==>
      Own(h, v, name) == None
    ensures v.Undefined? || v.Null? || v.Bool? || v.Number? ==> Own(h, v, name) == None
  {
    if v.Text? {
      forall i | 0 <= i < |v.text| ensures Own(h, v, ValidationRules.Decimal(i)) == Some(Text([v.text[i]])) {
        ValidationProof.DecimalIndexes(i);
      }
      if Index(name).Some? { IndexExactly(name, Index(name).value); }
    }
  }

  /** The values met along a path: each but the last an array or record, with the next one as its own property. */
  ghost predicate Met(h: Heap, from: Value, path: seq<string>, vs: seq<Value>)
  {
    && |vs| == |path| + 1 && vs[0] == from
    && forall i :: 0 <= i < |path| ==> (vs[i].Ref? || vs[i].Fresh?) && Own(h, vs[i], path[i]) == Some(vs[i + 1])
  }

  function NotUndefined(v: Value): Value { if v.Undefined? then Null else v }

  lemma {:induction false} WalkMeets(h: Heap, from: Value, path: seq<string>, vs: seq<Value>)
    requires Met(h, from, path, vs)
    ensures Walk(h, from, path) == NotUndefined(vs[|path|])
    decreases |path|
  {
    hide Own;
    if path != [] {
      assert (from.Ref? || from.Fresh?) && Own(h, from, path[0]) == Some(vs[1]);
      forall i | 0 <= i < |path| - 1
        ensures (vs[1..][i].Ref? || vs[1..][i].Fresh?) && Own(h, vs[1..][i], path[1..][i]) == Some(vs[1..][i + 1])
      {
        assert vs[1..][i] == vs[i + 1] && path[1..][i] == path[i + 1];
      }
      WalkMeets(h, vs[1], path[1..], vs[1..]);
    }
  }

  lemma {:induction false} WalkEnds(h: Heap, from: Value, path: seq<string>)
    ensures Walk(h, from, path) == Null || exists vs :: Met(h, from, path, vs)
    decreases |path|
  {
    hide Own;
    if path == [] {
      assert Met(h, from, path, [from]);
    } else if (from.Ref? || from.Fresh?) && Own(h, from, path[0]).Some? {
      var next := Own(h, from, path[0]).value;
      WalkEnds(h, next, path[1..]);
      if vs :| Met(h, next, path[1..], vs) {
        var longer := [from] + vs;
        forall i | 0 <= i < |path|
          ensures (longer[i].Ref? || longer[i].Fresh?) && Own(h, longer[i], path[i]) == Some(longer[i + 1])
        {
          if i > 0 { assert longer[i] == vs[i - 1] && longer[i + 1] == vs[i] && path[i] == path[1..][i - 1]; }
        }
        assert Met(h, from, path, longer);
      }
    }
  }

  /** A path gives what stands at its end, undefined as null, and null if it leads nowhere. */
  lemma PathRead(path: seq<string>, h: Heap, root: Value, host: Host)
    ensures forall vs :: Met(h, root, path, vs) ==> Run(Name(path), h, root, host) == NotUndefined(vs[|path|])
    ensures (forall vs :: !Met(h, root, path, vs)) ==> Run(Name(path), h, root, host) == Null
  {
    hide Met;
    forall vs | Met(h, root, path, vs)
      ensures |vs| > |path| && Run(Name(path), h, root, host) == NotUndefined(vs[|path|])
    {
      WalkMeets(h, root, path, vs);
      MetLength(h, root, path, vs);
    }
    WalkEnds(h, root, path);
  }

  lemma MetLength(h: Heap, from: Value, path: seq<string>, vs: seq<Value>)
    requires Met(h, from, path, vs)
    ensures |vs| == |path| + 1
  {
  }
}
