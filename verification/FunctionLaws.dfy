/** What the functions of the expression language answer, said of the values they are called with. */
module FunctionLaws {
  import opened Options
  import opened Syntax
  import opened Values
  import opened Evaluator
  import opened EvaluationLaws
  import Grammar
  import Texts

  /** A call that the arity check passes, with a value for each argument. */
  ghost predicate CallOf(name: string, args: seq<Node>, at: nat, vs: seq<Value>, h: Heap, root: Value, host: Host)
  {
    && CallsChecked(Call(name, args, at)) && |vs| == |args|
    && forall i :: 0 <= i < |args| ==> CallsChecked(args[i]) && Run(args[i], h, root, host) == vs[i]
  }

  lemma Called(name: string, args: seq<Node>, at: nat, vs: seq<Value>, h: Heap, root: Value, host: Host)
    requires CallOf(name, args, at, vs, h, root, host)
    ensures name in FUNCTIONS && ArityOf(BuiltinOf(name)).min <= |vs| <= ArityOf(BuiltinOf(name)).max
    ensures Run(Call(name, args, at), h, root, host) == Apply(BuiltinOf(name), vs, h, root, host)
  {
    hide Apply, BuiltinOf, ArityOf;
    TableArities(name);
    ValuesInTurn(args, h, root, host);
    assert RunAll(args, h, root, host) == vs;
  }

  /** How many values each function takes; no other name is a function. */
  predicate Takes(name: string, count: nat)
  {
    if name in ["count", "isSet", "isEmpty", "len", "abs", "lower", "upper", "number"] then count == 1
    else if name in ["sum", "contains", "startsWith", "daysBetween"] then count == 2
    else if name in ["min", "max"] then 1 <= count <= 20
    else if name == "round" then 1 <= count <= 2
    else if name == "lookup" then count == 3
    else name == "today" && count == 0
  }

  /** A call passes the arity check exactly if its function takes as many values and its arguments pass. */
  lemma CheckedExactly(name: string, args: seq<Node>, at: nat)
    ensures CallsChecked(Call(name, args, at)) <==>
            Takes(name, |args|) && forall i :: 0 <= i < |args| ==> CallsChecked(args[i])
    ensures name in FUNCTIONS <==> exists count :: Takes(name, count)
  {
    assert ArityHolds(name, |args|) <==> Takes(name, |args|);
    if name in FUNCTIONS {
      TableArities(name);
      assert Takes(name, FUNCTIONS[name].min);
    }
  }

  // ---- lists ----------------------------------------------------------------------------------

  /** `count` is the number of items of a list, and 0 of anything else. */
  lemma Count(args: seq<Node>, at: nat, v: Value, h: Heap, root: Value, host: Host)
    requires CallOf("count", args, at, [v], h, root, host)
    ensures forall items :: ListOf(h, v, items) ==>
            Run(Call("count", args, at), h, root, host) == Number(|items| as real)
    ensures NoList(h, v) ==> Run(Call("count", args, at), h, root, host) == Number(0.0)
  {
    Called("count", args, at, [v], h, root, host);
    hide Run, CallOf;
    ListExactly(h, v);
  }

  /** `len` is that too, and the number of characters of a text. */
  lemma Len(args: seq<Node>, at: nat, v: Value, h: Heap, root: Value, host: Host)
    requires CallOf("len", args, at, [v], h, root, host)
    ensures v.Text? ==> Run(Call("len", args, at), h, root, host) == Number(|v.text| as real)
    ensures forall items :: ListOf(h, v, items) ==> Run(Call("len", args, at), h, root, host) == Number(|items| as real)
    ensures !v.Text? && NoList(h, v) ==> Run(Call("len", args, at), h, root, host) == Number(0.0)
  {
    Called("len", args, at, [v], h, root, host);
    hide Run, CallOf;
    ListExactly(h, v);
  }

  /** `isSet` and `isEmpty` say whether a value is empty. */
  lemma SetOrEmpty(args: seq<Node>, at: nat, v: Value, h: Heap, root: Value, host: Host)
    requires CallOf("isSet", args, at, [v], h, root, host) && CallOf("isEmpty", args, at, [v], h, root, host)
    ensures Run(Call("isSet", args, at), h, root, host) == Bool(!Empty(h, v))
    ensures Run(Call("isEmpty", args, at), h, root, host) == Bool(Empty(h, v))
  {
    Called("isSet", args, at, [v], h, root, host);
    Called("isEmpty", args, at, [v], h, root, host);
    hide Run, CallOf;
    EmptyExactly(h, v);
  }

  /** `contains` of a list is whether an item is equal, and of a text whether the other stands somewhere in it. */
  lemma ContainsItem(args: seq<Node>, at: nat, v: Value, w: Value, h: Heap, root: Value, host: Host)
    requires CallOf("contains", args, at, [v, w], h, root, host)
    ensures !NoList(h, v) ==> Run(Call("contains", args, at), h, root, host) == Bool(HasEqual(h, v, w, host))
    ensures NoList(h, v) ==>
      var found := v.Text? && w.Text? && exists before, after :: v.text == before + w.text + after;
      Run(Call("contains", args, at), h, root, host) == Bool(found)
  {
    Called("contains", args, at, [v, w], h, root, host);
    hide Run, CallOf;
    ListExactly(h, v);
    if IsArray(h, v) {
      AnyEqual(h, v, Elements(h, v).value, w, host);
    } else if v.Text? && w.Text? {
      StandsIn(v.text, w.text);
    }
  }

  lemma AnyEqual(h: Heap, list: Value, items: seq<Value>, v: Value, host: Host)
    requires ListOf(h, list, items)
    ensures EqualsAny(h, items, v, host) <==> HasEqual(h, list, v, host)
  {
    hide LooseEquals, Equal;
    forall i | 0 <= i < |items| ensures LooseEquals(h, items[i], v, host) <==> Equal(h, v, items[i], host) {
      EqualsExactly(h, items[i], v, host);
      EqualTurns(h, items[i], v, host);
    }
  }

  lemma StandsIn(s: string, t: string)
    ensures Includes(s, t) <==> exists before, after :: s == before + t + after
  {
    if Includes(s, t) {
      var i :| 0 <= i <= |s| && StartsWith(s[i..], t);
      assert s == s[..i] + t + s[i + |t|..];
    }
    if before, after :| s == before + t + after {
      assert s[|before|..] == t + after;
      assert StartsWith(s[|before|..], t);
    }
  }

  lemma StartsText(args: seq<Node>, at: nat, v: Value, w: Value, h: Heap, root: Value, host: Host)
    requires CallOf("startsWith", args, at, [v, w], h, root, host)
    ensures Run(Call("startsWith", args, at), h, root, host)
      == Bool(v.Text? && w.Text? && exists after :: v.text == w.text + after)
  {
    Called("startsWith", args, at, [v, w], h, root, host);
    hide Run, CallOf;
    if v.Text? && w.Text? && StartsWith(v.text, w.text) { assert v.text == w.text + v.text[|w.text|..]; }
  }

  // ---- sums -----------------------------------------------------------------------------------

  /** What an item adds to a sum of this field: nothing unless it has the field and that reads as a number. */
  ghost predicate Adds(h: Heap, item: Value, field: string, host: Host, n: real)
  {
    || ((item.Ref? || item.Fresh?) && exists v :: Own(h, item, field) == Some(v) && ReadsAs(v, n, host))
    || (n == 0.0 &&
        !((item.Ref? || item.Fresh?) && exists v, a :: Own(h, item, field) == Some(v) && ReadsAs(v, a, host)))
  }

  lemma TotalOfOne(h: Heap, item: Value, field: string, host: Host, n: real)
    requires Adds(h, item, field, host, n)
    ensures Total(h, [item], field, host) == n
  {
    hide Own;
    assert [item][..0] == [];
    if Own(h, item, field).Some? {
      var v := Own(h, item, field).value;
      ReadExactly(v, n, host);
      ReadNothing(v, host);
    }
  }

  lemma {:induction false} TotalOfTwo(h: Heap, xs: seq<Value>, ys: seq<Value>, field: string, host: Host)
    ensures Total(h, xs + ys, field, host) == Total(h, xs, field, host) + Total(h, ys, field, host)
    decreases |ys|
  {
    hide Own, ToNumber;
    if ys == [] {
      assert xs + ys == xs;
    } else {
      TotalOfTwo(h, xs, ys[..|ys| - 1], field, host);
      assert (xs + ys)[..|xs + ys| - 1] == xs + ys[..|ys| - 1];
    }
  }

  /** `sum` over one item is what that item adds, and over an empty list, another value or no field name it is 0. */
  lemma SumOfOne(args: seq<Node>, at: nat, v: Value, field: Value, h: Heap, root: Value, host: Host)
    requires CallOf("sum", args, at, [v, field], h, root, host)
    ensures forall item, n :: ListOf(h, v, [item]) && field.Text? && Adds(h, item, field.text, host, n) ==>
      Run(Call("sum", args, at), h, root, host) == Number(n)
    ensures NoList(h, v) || ListOf(h, v, []) || !field.Text? ==>
            Run(Call("sum", args, at), h, root, host) == Number(0.0)
  {
    Called("sum", args, at, [v, field], h, root, host);
    hide Run, CallOf;
    ListExactly(h, v);
    forall item, n | ListOf(h, v, [item]) && field.Text? && Adds(h, item, field.text, host, n)
      ensures Total(h, [item], field.text, host) == n
    {
      TotalOfOne(h, item, field.text, host, n);
    }
    hide Adds, Total;
    if ListOf(h, v, []) && field.Text? { NoTotal(h, field.text, host); }
  }

  lemma NoTotal(h: Heap, field: string, host: Host)
    ensures Total(h, [], field, host) == 0.0
  {
  }

  /** `sum` adds over lists one after the other. */
  lemma SumAdds(xs: seq<Value>, ys: seq<Value>, a: seq<Node>, b: seq<Node>, c: seq<Node>, at: nat, va: Value, vb: Value,
      vc: Value, field: Value, h: Heap, root: Value, host: Host) returns (p: real, q: real)
    requires CallOf("sum", a, at, [va, field], h, root, host) && ListOf(h, va, xs) && field.Text?
    requires CallOf("sum", b, at, [vb, field], h, root, host) && ListOf(h, vb, ys)
    requires CallOf("sum", c, at, [vc, field], h, root, host) && ListOf(h, vc, xs + ys)
    ensures Run(Call("sum", a, at), h, root, host) == Number(p) && Run(Call("sum", b, at), h, root, host) == Number(q)
    ensures Run(Call("sum", c, at), h, root, host) == Number(p + q)
  {
    Called("sum", a, at, [va, field], h, root, host);
    Called("sum", b, at, [vb, field], h, root, host);
    Called("sum", c, at, [vc, field], h, root, host);
    hide Run, CallOf;
    ListExactly(h, va);
    ListExactly(h, vb);
    ListExactly(h, vc);
    TotalOfTwo(h, xs, ys, field.text, host);
    p, q := Total(h, xs, field.text, host), Total(h, ys, field.text, host);
  }

  // ---- numbers --------------------------------------------------------------------------------

  ghost predicate AllRead(vs: seq<Value>, ns: seq<real>, host: Host)
  {
    |vs| == |ns| && forall i :: 0 <= i < |vs| ==> ReadsAs(vs[i], ns[i], host)
  }

  lemma {:induction false} NumbersRead(vs: seq<Value>, host: Host)
    ensures forall ns :: AllRead(vs, ns, host) ==> AllNumbers(vs, host) == Some(ns)
    ensures (exists i :: 0 <= i < |vs| && Numberless(vs[i], host)) ==> AllNumbers(vs, host) == None
    decreases |vs|
  {
    hide ToNumber, ReadsAs, Numberless;
    if vs != [] {
      NumbersRead(vs[1..], host);
      ReadNothing(vs[0], host);
      forall ns | AllRead(vs, ns, host) ensures AllNumbers(vs, host) == Some(ns) {
        ReadExactly(vs[0], ns[0], host);
        assert AllRead(vs[1..], ns[1..], host) && ns == [ns[0]] + ns[1..];
      }
      if i :| 0 < i < |vs| && Numberless(vs[i], host) { assert Numberless(vs[1..][i - 1], host); }
    }
  }

  predicate LeastOf(ns: seq<real>, m: real) { m in ns && forall i :: 0 <= i < |ns| ==> m <= ns[i] }

  predicate GreatestOf(ns: seq<real>, m: real) { m in ns && forall i :: 0 <= i < |ns| ==> ns[i] <= m }

  lemma {:induction false} LeastBounds(ns: seq<real>)
    requires ns != []
    ensures LeastOf(ns, Least(ns))
    decreases |ns|
  {
    if |ns| > 1 { LeastBounds(ns[1..]); assert ns == [ns[0]] + ns[1..]; }
  }

  lemma {:induction false} GreatestBounds(ns: seq<real>)
    requires ns != []
    ensures GreatestOf(ns, Greatest(ns))
    decreases |ns|
  {
    if |ns| > 1 { GreatestBounds(ns[1..]); assert ns == [ns[0]] + ns[1..]; }
  }

  /** `min` is the one of the values read as numbers that none is below; one that is not read so makes it null. */
  lemma Minimum(args: seq<Node>, at: nat, vs: seq<Value>, h: Heap, root: Value, host: Host)
    requires CallOf("min", args, at, vs, h, root, host)
    ensures forall ns :: AllRead(vs, ns, host) ==>
      exists m :: LeastOf(ns, m) && Run(Call("min", args, at), h, root, host) == Number(m)
    ensures (exists i :: 0 <= i < |vs| && Numberless(vs[i], host)) ==> Run(Call("min", args, at), h, root, host) == Null
  {
    Called("min", args, at, vs, h, root, host);
    hide Run, CallOf;
    NumbersRead(vs, host);
    hide AllNumbers, Least, Numberless, AllRead;
    forall ns | AllRead(vs, ns, host)
      ensures exists m :: LeastOf(ns, m) && Run(Call("min", args, at), h, root, host) == Number(m)
    {
      assert AllNumbers(vs, host) == Some(ns) && ns != [];
      LeastBounds(ns);
    }
  }

  /** `max` likewise. */
  lemma Maximum(args: seq<Node>, at: nat, vs: seq<Value>, h: Heap, root: Value, host: Host)
    requires CallOf("max", args, at, vs, h, root, host)
    ensures forall ns :: AllRead(vs, ns, host) ==>
      exists m :: GreatestOf(ns, m) && Run(Call("max", args, at), h, root, host) == Number(m)
    ensures (exists i :: 0 <= i < |vs| && Numberless(vs[i], host)) ==> Run(Call("max", args, at), h, root, host) == Null
  {
    Called("max", args, at, vs, h, root, host);
    hide Run, CallOf;
    NumbersRead(vs, host);
    hide AllNumbers, Greatest, Numberless, AllRead;
    forall ns | AllRead(vs, ns, host)
      ensures exists m :: GreatestOf(ns, m) && Run(Call("max", args, at), h, root, host) == Number(m)
    {
      assert AllNumbers(vs, host) == Some(ns) && ns != [];
      GreatestBounds(ns);
    }
  }

  /** `abs` is the value or its opposite, whichever is not negative, and `number` the value as a number. */
  lemma Absolute(args: seq<Node>, at: nat, v: Value, h: Heap, root: Value, host: Host)
    requires CallOf("abs", args, at, [v], h, root, host) && CallOf("number", args, at, [v], h, root, host)
    ensures forall a :: ReadsAs(v, a, host) ==>
      && Run(Call("number", args, at), h, root, host) == Number(a)
      && exists b :: b >= 0.0 && (b == a || b == -a) && Run(Call("abs", args, at), h, root, host) == Number(b)
    ensures Numberless(v, host) ==>
      Run(Call("abs", args, at), h, root, host) == Null && Run(Call("number", args, at), h, root, host) == Null
  {
    Called("abs", args, at, [v], h, root, host);
    Called("number", args, at, [v], h, root, host);
    hide Run, CallOf;
    ReadNothing(v, host);
    forall a | ReadsAs(v, a, host)
      ensures Run(Call("number", args, at), h, root, host) == Number(a)
      ensures exists b :: b >= 0.0 && (b == a || b == -a) && Run(Call("abs", args, at), h, root, host) == Number(b)
    {
      ReadExactly(v, a, host);
      assert Run(Call("abs", args, at), h, root, host) == Number(if a < 0.0 then -a else a);
    }
  }

  /** The places that a number of digits asks for: whole ones, none below one and at most six. */
  predicate Places(digits: real, p: nat)
  {
    if digits < 1.0 then p == 0 else if digits >= 6.0 then p == 6 else p as real <= digits < p as real + 1.0
  }

  predicate Units(a: real, r: real, unit: nat, k: int)
  {
    r * unit as real == k as real && k as real - 0.5 <= a * unit as real < k as real + 0.5
  }

  /** r is a whole number of units of 10^-p, and a is at most half a unit below it, or less than half above. */
  ghost predicate RoundsTo(a: real, p: nat, r: real)
  {
    exists k :: Units(a, r, Grammar.TenTo(p), k)
  }

  lemma {:induction false} TenToAgrees(p: nat)
    ensures PowerOfTen(p) == Grammar.TenTo(p) as real && PowerOfTen(p) > 0.0
  {
    if p > 0 { TenToAgrees(p - 1); }
  }

  lemma RoundedExactly(a: real, digits: real, p: nat)
    requires Places(digits, p)
    ensures RoundsTo(a, p, Rounded(a, digits))
  {
    TenToAgrees(p);
    PlacesAgree(digits, p);
    hide PowerOfTen, Grammar.TenTo, Truncate, Places, ToNearest, Units;
    var unit := Grammar.TenTo(p);
    assert Rounded(a, digits) == ToNearest(a, unit as real);
    NearestIsNear(a, unit);
    assert Units(a, Rounded(a, digits), unit, (a * unit as real + 0.5).Floor);
  }

  lemma NearestIsNear(a: real, unit: nat)
    requires unit > 0
    ensures Units(a, ToNearest(a, unit as real), unit, (a * unit as real + 0.5).Floor)
  {
    var x, r := a * unit as real, ToNearest(a, unit as real);
    FloorNear(x);
    NearestAt(a, unit as real, x);
    Unscaled((x + 0.5).Floor as real, unit as real);
  }

  lemma NearestAt(a: real, unit: real, x: real)
    requires unit != 0.0 && x == a * unit
    ensures ToNearest(a, unit) == (x + 0.5).Floor as real / unit
  {
    var n := (a * unit + 0.5).Floor;
    assert n == (x + 0.5).Floor;
    assert ToNearest(a, unit) == n as real / unit;
  }

  lemma FloorNear(x: real)
    ensures (x + 0.5).Floor as real - 0.5 <= x < (x + 0.5).Floor as real + 0.5
  {
  }

  lemma PlacesAgree(digits: real, p: nat)
    requires Places(digits, p)
    ensures (if Truncate(digits) < 0 then 0 else if Truncate(digits) > 6 then 6 else Truncate(digits)) == p
  {
  }

  lemma Unscaled(k: real, unit: real)
    requires unit != 0.0
    ensures k / unit * unit == k
  {
  }

  /** `round` is to the nearest, halves up, at the places asked for; without a second value, to whole numbers. */
  lemma Rounding(args: seq<Node>, at: nat, vs: seq<Value>, h: Heap, root: Value, host: Host)
    requires CallOf("round", args, at, vs, h, root, host) && vs != []
    ensures |vs| == 1 ==> forall a :: ReadsAs(vs[0], a, host) ==>
      exists r :: RoundsTo(a, 0, r) && Run(Call("round", args, at), h, root, host) == Number(r)
    ensures |vs| == 2 ==> forall a, d, p :: ReadsAs(vs[0], a, host) && ReadsAs(vs[1], d, host) && Places(d, p) ==>
      exists r :: RoundsTo(a, p, r) && Run(Call("round", args, at), h, root, host) == Number(r)
    ensures (exists i :: 0 <= i < |vs| && Numberless(vs[i], host)) ==>
            Run(Call("round", args, at), h, root, host) == Null
  {
    Called("round", args, at, vs, h, root, host);
    hide Run, CallOf, RoundsTo, Rounded, Places;
    ReadNothing(vs[0], host);
    if |vs| == 1 {
      forall a | ReadsAs(vs[0], a, host)
        ensures exists r :: RoundsTo(a, 0, r) && Run(Call("round", args, at), h, root, host) == Number(r)
      {
        ReadExactly(vs[0], a, host);
        NoPlaces();
        RoundedExactly(a, 0.0, 0);
      }
    } else {
      ReadNothing(vs[1], host);
      forall a, d, p | ReadsAs(vs[0], a, host) && ReadsAs(vs[1], d, host) && Places(d, p)
        ensures exists r :: RoundsTo(a, p, r) && Run(Call("round", args, at), h, root, host) == Number(r)
      {
        ReadExactly(vs[0], a, host);
        ReadExactly(vs[1], d, host);
        RoundedExactly(a, d, p);
      }
    }
  }

  lemma NoPlaces()
    ensures Places(0.0, 0)
  {
  }

  // ---- texts and dates ------------------------------------------------------------------------

  /** `lower` and `upper` change texts as the runtime does, and nothing else. */
  lemma Cases(args: seq<Node>, at: nat, v: Value, h: Heap, root: Value, host: Host)
    requires CallOf("lower", args, at, [v], h, root, host) && CallOf("upper", args, at, [v], h, root, host)
    ensures Run(Call("lower", args, at), h, root, host) == if v.Text? then Text(host.lower(v.text)) else v
    ensures Run(Call("upper", args, at), h, root, host) == if v.Text? then Text(host.upper(v.text)) else v
  {
    Called("lower", args, at, [v], h, root, host);
    Called("upper", args, at, [v], h, root, host);
    hide Run, CallOf;
  }

  /** Four, two and two digits with hyphens between them. */
  ghost predicate Dated(s: string)
  {
    exists y, m, d :: s == y + "-" + m + "-" + d && |y| == 4 && |m| == 2 && |d| == 2
      && Texts.AllDigits(y) && Texts.AllDigits(m) && Texts.AllDigits(d)
  }

  /** A text that begins with a date the runtime knows. */
  ghost predicate ReadsDay(v: Value, n: int, host: Host)
  {
    v.Text? && |v.text| >= 10 && Dated(v.text[..10]) && host.day(v.text[..10]) == Some(n)
  }

  lemma DatedExactly(s: string)
    ensures IsDateText(s) <==> |s| >= 10 && Dated(s[..10])
  {
    if IsDateText(s) { DatedWhole(s); }
    hide IsDateText;
    if |s| >= 10 && Dated(s[..10]) {
      var y, m, d :| s[..10] == y + "-" + m + "-" + d && |y| == 4 && |m| == 2 && |d| == 2
        && Texts.AllDigits(y) && Texts.AllDigits(m) && Texts.AllDigits(d);
      DatedParts(s, y, m, d);
    }
  }

  lemma DatedWhole(s: string)
    requires IsDateText(s)
    ensures Dated(s[..10])
  {
    var y, m, d := s[..4], s[5..7], s[8..10];
    assert s[4..5] == "-" && s[7..8] == "-";
    assert s[..10] == y + s[4..5] + m + s[7..8] + d;
    assert Texts.AllDigits(y) && Texts.AllDigits(m) && Texts.AllDigits(d);
  }

  lemma DatedParts(s: string, y: string, m: string, d: string)
    requires |s| >= 10 && s[..10] == y + "-" + m + "-" + d && |y| == 4 && |m| == 2 && |d| == 2
    requires Texts.AllDigits(y) && Texts.AllDigits(m) && Texts.AllDigits(d)
    ensures IsDateText(s)
  {
    var t := s[..10];
    assert t[..4] == y && t[5..7] == m && t[8..10] == d && t[4] == '-' && t[7] == '-';
    forall k | 0 <= k < 4 ensures s[k] == y[k] { assert t[..4][k] == s[k]; }
    forall k | 5 <= k < 7 ensures s[k] == m[k - 5] { assert t[5..7][k - 5] == s[k]; }
    forall k | 8 <= k < 10 ensures s[k] == d[k - 8] { assert t[8..10][k - 8] == s[k]; }
  }

  lemma DayExactly(v: Value, host: Host)
    ensures forall n :: DayNumber(v, host) == Some(n) <==> ReadsDay(v, n, host)
  {
    if v.Text? { DatedExactly(v.text); }
  }

  /** `daysBetween` is the number of days from one to the other, or null. */
  lemma Days(args: seq<Node>, at: nat, v: Value, w: Value, h: Heap, root: Value, host: Host)
    requires CallOf("daysBetween", args, at, [v, w], h, root, host)
    ensures forall a, b :: ReadsDay(v, a, host) && ReadsDay(w, b, host) ==>
      Run(Call("daysBetween", args, at), h, root, host) == Number((b - a) as real)
    ensures (forall a :: !ReadsDay(v, a, host)) || (forall b :: !ReadsDay(w, b, host)) ==>
      Run(Call("daysBetween", args, at), h, root, host) == Null
  {
    Called("daysBetween", args, at, [v, w], h, root, host);
    hide Run, CallOf;
    DayExactly(v, host);
    DayExactly(w, host);
    hide DayNumber, ReadsDay;
  }

  /** `today` is the pinned date of the context if it has one, and otherwise the runtime's. */
  lemma PinnedDay(args: seq<Node>, at: nat, h: Heap, root: Value, host: Host)
    requires CallOf("today", args, at, [], h, root, host)
    ensures forall v, n :: Own(h, root, "$today") == Some(v) && ReadsDay(v, n, host) ==>
      Run(Call("today", args, at), h, root, host) == Text(v.text[..10])
    ensures (forall v, n :: Own(h, root, "$today") == Some(v) ==> !ReadsDay(v, n, host)) ==>
      Run(Call("today", args, at), h, root, host) == Text(host.today)
  {
    Called("today", args, at, [], h, root, host);
    hide Run, CallOf, Own;
    var pinned := Own(h, root, "$today");
    if pinned.Some? {
      DayExactly(pinned.value, host);
      if DayNumber(pinned.value, host).Some? {
        assert ReadsDay(pinned.value, DayNumber(pinned.value, host).value, host);
      }
    }
  }

  // ---- lookup tables --------------------------------------------------------------------------

  function InColumn(h: Heap, row: Value, column: string): Value
  {
    if Own(h, row, column).Some? then Own(h, row, column).value else Undefined
  }

  /** The value names this column: a text names itself, and any other value its spelling. */
  predicate NamesColumn(h: Heap, v: Value, column: string, host: Host)
  {
    || v == Text(column)
    || (v.Number? && host.numberName(v.number) == column)
    || (v == Bool(true) && column == "true")
    || (v == Bool(false) && column == "false")
    || (v == Null && column == "null")
    || (v == Undefined && column == "undefined")
    || (v.Ref? && v.id in h && h[v.id].Rec? && column == "[object Object]")
  }

  /** The context carries a table of this name, with these rows and this key column. */
  ghost predicate HasTable(h: Heap, root: Value, name: string, rows: seq<Value>, key: string, host: Host)
  {
    exists tables, table, list ::
      && Own(h, root, "$tables") == Some(tables) && (tables.Ref? || tables.Fresh?)
      && Own(h, tables, name) == Some(table) && NamesColumn(h, InColumn(h, table, "key"), key, host)
      && Own(h, table, "rows") == Some(list) && ListOf(h, list, rows)
  }

  /** The first row whose key column equals the key. */
  ghost predicate FirstRow(h: Heap, rows: seq<Value>, column: string, key: Value, host: Host, i: nat)
  {
    && i < |rows| && Equal(h, InColumn(h, rows[i], column), key, host)
    && forall j :: 0 <= j < i ==> !Equal(h, InColumn(h, rows[j], column), key, host)
  }

  lemma {:induction false} RowFound(h: Heap, rows: seq<Value>, column: string, key: Value, host: Host)
    ensures forall i: nat :: FirstRow(h, rows, column, key, host, i) ==> FindRow(h, rows, column, key, host) == rows[i]
    ensures (forall i: nat :: !FirstRow(h, rows, column, key, host, i)) ==>
              FindRow(h, rows, column, key, host) == Undefined
    decreases |rows|
  {
    hide Own, LooseEquals, Equal;
    if rows != [] {
      EqualsExactly(h, InColumn(h, rows[0], column), key, host);
      RowFound(h, rows[1..], column, key, host);
      if Equal(h, InColumn(h, rows[0], column), key, host) {
        assert FirstRow(h, rows, column, key, host, 0);
      } else {
        forall i: nat
          ensures FirstRow(h, rows, column, key, host, i + 1) <==> FirstRow(h, rows[1..], column, key, host, i)
        {
          OneRowOn(h, rows, column, key, host, i);
        }
        forall i: nat | FirstRow(h, rows, column, key, host, i) ensures i > 0 {}
      }
    }
  }

  lemma OneRowOn(h: Heap, rows: seq<Value>, column: string, key: Value, host: Host, i: nat)
    requires rows != [] && !Equal(h, InColumn(h, rows[0], column), key, host)
    ensures FirstRow(h, rows, column, key, host, i + 1) <==> FirstRow(h, rows[1..], column, key, host, i)
  {
    hide Equal, Own;
    var rest := rows[1..];
    if FirstRow(h, rows, column, key, host, i + 1) {
      forall j | 0 <= j < i ensures !Equal(h, InColumn(h, rest[j], column), key, host) {
        assert rest[j] == rows[j + 1];
      }
    }
    if FirstRow(h, rest, column, key, host, i) {
      forall j | 0 <= j < i + 1 ensures !Equal(h, InColumn(h, rows[j], column), key, host) {
        if j > 0 { assert rest[j - 1] == rows[j]; }
      }
    }
  }

  /**
   * `lookup` gives the column of the first row with that key, and null if there is no such row or column. A row that
   * is an empty text, which no table holds, counts as none.
   */
  lemma Lookup(args: seq<Node>, at: nat, name: string, key: Value, column: string, h: Heap, root: Value, host: Host,
      rows: seq<Value>, keyColumn: string)
    requires CallOf("lookup", args, at, [Text(name), key, Text(column)], h, root, host)
    requires HasTable(h, root, name, rows, keyColumn, host) && !Empty(h, key)
    ensures forall i: nat :: FirstRow(h, rows, keyColumn, key, host, i) && rows[i] != Text("") ==>
      Run(Call("lookup", args, at), h, root, host) == NotUndefined(InColumn(h, rows[i], column))
    ensures (forall i: nat :: !FirstRow(h, rows, keyColumn, key, host, i)) ==>
      Run(Call("lookup", args, at), h, root, host) == Null
  {
    Called("lookup", args, at, [Text(name), key, Text(column)], h, root, host);
    hide Run, CallOf;
    var tables, table, list :|
      && Own(h, root, "$tables") == Some(tables) && (tables.Ref? || tables.Fresh?)
      && Own(h, tables, name) == Some(table) && NamesColumn(h, InColumn(h, table, "key"), keyColumn, host)
      && Own(h, table, "rows") == Some(list) && ListOf(h, list, rows);
    ColumnNamed(h, InColumn(h, table, "key"), keyColumn, host);
    ListExactly(h, list);
    EmptyExactly(h, key);
    RowFound(h, rows, keyColumn, key, host);
    forall i: nat | FirstRow(h, rows, keyColumn, key, host, i) ensures rows[i] == Text("") || !Falsy(rows[i]) {
      if Falsy(rows[i]) && rows[i] != Text("") { EmptyKeyRow(h, rows[i], keyColumn, key, host); }
    }
    hide Own, IsBlank, FindRow, FirstRow, Elements, ListOf, NamesColumn, PropertyName;
  }

  lemma ColumnNamed(h: Heap, v: Value, column: string, host: Host)
    requires NamesColumn(h, v, column, host)
    ensures PropertyName(v, host) == column
  {
  }

  /** A value without properties has no key. */
  lemma EmptyKeyRow(h: Heap, row: Value, column: string, key: Value, host: Host)
    requires Falsy(row) && row != Text("") && !Empty(h, key)
    ensures !Equal(h, InColumn(h, row, column), key, host)
  {
    assert InColumn(h, row, column) == Undefined;
  }

  /** Without a table, a key or texts to name them `lookup` is null. */
  lemma NoLookup(args: seq<Node>, at: nat, name: Value, key: Value, column: Value, h: Heap, root: Value, host: Host)
    requires CallOf("lookup", args, at, [name, key, column], h, root, host)
    requires Empty(h, key) || !name.Text? || !column.Text? || Own(h, root, "$tables") == None
      || Own(h, Own(h, root, "$tables").value, name.text) == None
    ensures Run(Call("lookup", args, at), h, root, host) == Null
  {
    Called("lookup", args, at, [name, key, column], h, root, host);
    hide Run, CallOf;
    EmptyExactly(h, key);
    hide IsBlank, Empty, FindRow, Own;
  }
}
