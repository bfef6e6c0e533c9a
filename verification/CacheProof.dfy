/** Two values have one canonical text exactly if they are the same value. */
module CacheProof {
  import Lexer
  import Texts
  import opened Cache

  // ---- canonical form: keys in order, no undefined --------------------------------------------------

  function Canon(v: Json, leq: (string, string) -> bool): Json
    decreases v, 0
  {
    match v
    case Undefined => Null
    case Arr(items) => Arr(CanonAll(items, leq))
    case Obj(entries) => Obj(SortEntries(CanonEntries(entries, leq), leq))
    case _ => v
  }

  function CanonAll(vs: seq<Json>, leq: (string, string) -> bool): (r: seq<Json>)
    ensures |r| == |vs| && forall i :: 0 <= i < |vs| ==> r[i] == Canon(vs[i], leq)
    decreases vs, 1
  {
    if vs == [] then [] else [Canon(vs[0], leq)] + CanonAll(vs[1..], leq)
  }

  function CanonEntries(es: seq<Entry>, leq: (string, string) -> bool): (r: seq<Entry>)
    ensures |r| == |es| && forall i :: 0 <= i < |es| ==> r[i] == Entry(es[i].key, Canon(es[i].value, leq))
    decreases es, 1
  {
    if es == [] then [] else [Entry(es[0].key, Canon(es[0].value, leq))] + CanonEntries(es[1..], leq)
  }

  /** The text of a value as it stands. */
  function Print(v: Json): string
    decreases v, 0
  {
    match v
    case Undefined => "null"
    case Null => "null"
    case Bool(b) => if b then "true" else "false"
    case Num(numeral) => numeral
    case Text(s) => Quoted(s)
    case Arr(items) => "[" + Texts.Join(PrintAll(items), ',') + "]"
    case Obj(entries) => "{" + Texts.Join(PrintEntries(entries), ',') + "}"
  }

  function PrintAll(vs: seq<Json>): (r: seq<string>)
    ensures |r| == |vs|
    decreases vs, 1
  {
    if vs == [] then [] else [Print(vs[0])] + PrintAll(vs[1..])
  }

  function PrintEntries(es: seq<Entry>): (r: seq<string>)
    ensures |r| == |es|
    decreases es, 1
  {
    if es == [] then [] else [Quoted(es[0].key) + ":" + Print(es[0].value)] + PrintEntries(es[1..])
  }

  lemma {:induction false} InsertCommutes(e: Entry, es: seq<Entry>, leq: (string, string) -> bool)
    ensures CanonEntries(Insert(e, es, leq), leq) ==
            Insert(Entry(e.key, Canon(e.value, leq)), CanonEntries(es, leq), leq)
    decreases |es|
  {
    if es != [] && !leq(e.key, es[0].key) {
      InsertCommutes(e, es[1..], leq);
      assert ([es[0]] + Insert(e, es[1..], leq))[1..] == Insert(e, es[1..], leq);
      assert CanonEntries(es, leq)[1..] == CanonEntries(es[1..], leq);
    } else {
      assert ([e] + es)[1..] == es;
    }
  }

  lemma {:induction false} SortCommutes(es: seq<Entry>, leq: (string, string) -> bool)
    ensures CanonEntries(SortEntries(es, leq), leq) == SortEntries(CanonEntries(es, leq), leq)
    decreases |es|
  {
    if es != [] {
      SortCommutes(es[1..], leq);
      InsertCommutes(es[0], SortEntries(es[1..], leq), leq);
      assert CanonEntries(es, leq)[1..] == CanonEntries(es[1..], leq);
    }
  }

  /** What is written is the canonical form. */
  lemma {:induction false} WritesCanon(v: Json, leq: (string, string) -> bool)
    ensures StableStringify(v, leq) == Print(Canon(v, leq))
    decreases Size(v), 0
  {
    match v
    case Arr(items) => WritesCanonAll(items, leq);
    case Obj(entries) =>
      WritesCanonEntries(SortEntries(entries, leq), leq);
      SortCommutes(entries, leq);
    case _ =>
  }

  lemma {:induction false} WritesCanonAll(vs: seq<Json>, leq: (string, string) -> bool)
    ensures StringifyAll(vs, leq) == PrintAll(CanonAll(vs, leq))
    decreases SizeAll(vs), 1
  {
    if vs != [] {
      WritesCanon(vs[0], leq);
      WritesCanonAll(vs[1..], leq);
      assert CanonAll(vs, leq)[1..] == CanonAll(vs[1..], leq);
    }
  }

  lemma {:induction false} WritesCanonEntries(es: seq<Entry>, leq: (string, string) -> bool)
    ensures StringifyEntries(es, leq) == PrintEntries(CanonEntries(es, leq))
    decreases SizeEntries(es), 1
  {
    if es != [] {
      WritesCanon(es[0].value, leq);
      WritesCanonEntries(es[1..], leq);
      assert CanonEntries(es, leq)[1..] == CanonEntries(es[1..], leq);
    }
  }

  // ---- a text that starts with a value starts with one value only -------------------------------------

  predicate Proper(v: Json)
  {
    match v
    case Undefined => false
    case Num(n) => n != "" && (Lexer.IsDigit(n[0]) || n[0] == '-') && forall i :: 0 <= i < |n| ==> NumeralChar(n[i])
    case Arr(items) => forall i :: 0 <= i < |items| ==> Proper(items[i])
    case Obj(entries) => forall i :: 0 <= i < |entries| ==> Proper(entries[i].value)
    case _ => true
  }

  /** Nothing more of a value follows. */
  predicate Ends(r: string) { r == "" || r[0] in ",]}" }

  function Commas(parts: seq<string>): string { if parts == [] then "" else "," + parts[0] + Commas(parts[1..]) }

  lemma {:induction false} JoinCommas(parts: seq<string>)
    requires parts != []
    ensures Texts.Join(parts, ',') == parts[0] + Commas(parts[1..])
    decreases |parts|
  {
    if |parts| > 1 { JoinCommas(parts[1..]); }
  }

  predicate Opens(v: Json, c: char)
  {
    match v
    case Undefined => c == 'n'
    case Null => c == 'n'
    case Bool(b) => c == if b then 't' else 'f'
    case Num(_) => Lexer.IsDigit(c) || c == '-'
    case Text(_) => c == '\"'
    case Arr(_) => c == '['
    case Obj(_) => c == '{'
  }

  lemma PrintOpens(v: Json)
    requires Proper(v)
    ensures Print(v) != "" && Opens(v, Print(v)[0])
  {
  }

  lemma EscapedCut(c: char, d: char, x: string, y: string)
    requires Escaped(c) + x == Escaped(d) + y
    ensures c == d && x == y
  {
    var s := Escaped(c) + x;
    assert s == Escaped(d) + y;
    assert forall i :: 0 <= i < |Escaped(c)| ==> s[i] == Escaped(c)[i];
    assert forall i :: 0 <= i < |Escaped(d)| ==> s[i] == Escaped(d)[i];
    SameEscape(c, d);
    assert x == s[|Escaped(c)|..] && y == s[|Escaped(c)|..];
  }

  lemma SameEscape(c: char, d: char)
    requires forall i :: 0 <= i < |Escaped(c)| && i < |Escaped(d)| ==> Escaped(c)[i] == Escaped(d)[i]
    ensures c == d
  {
    assert Escaped(c)[0] == Escaped(d)[0];
    if |Escaped(c)| > 1 {
      assert |Escaped(d)| > 1 && Escaped(c)[1] == Escaped(d)[1];
      if |Escaped(c)| == 6 {
        assert |Escaped(d)| == 6 && Escaped(c)[4] == Escaped(d)[4] && Escaped(c)[5] == Escaped(d)[5];
        HexInjective(c as int / 16, d as int / 16);
        HexInjective(c as int % 16, d as int % 16);
      }
    }
  }

  lemma HexInjective(a: nat, b: nat)
    requires a < 16 && b < 16 && HEX[a] == HEX[b]
    ensures a == b
  {
  }

  lemma Regroup(a: string, b: string, c: string)
    ensures (a + b) + c == a + (b + c)
  {
  }

  lemma PrefixCut(p: string, r: string, t: string)
    requires p + r == p + t
    ensures r == t
  {
    assert r == (p + r)[|p|..] && t == (p + t)[|p|..];
  }

  /** A string body and its closing quote, before what follows. */
  function Closed(s: string, r: string): string { EscapedAll(s) + ("\"" + r) }

  lemma ClosedFirst(s: string, r: string)
    ensures Closed(s, r) != "" && (Closed(s, r)[0] == '\"' <==> s == "")
    ensures s != "" ==> Closed(s, r) == Escaped(s[0]) + Closed(s[1..], r)
  {
    if s != "" {
      Regroup(Escaped(s[0]), EscapedAll(s[1..]), "\"" + r);
      assert Closed(s, r)[0] == Escaped(s[0])[0];
    } else {
      assert Closed(s, r) == "\"" + r;
    }
  }

  lemma {:induction false} ClosedCut(s: string, u: string, r: string, t: string)
    requires Closed(s, r) == Closed(u, t)
    ensures s == u && r == t
    decreases |s|
  {
    hide Closed, Escaped;
    ClosedFirst(s, r);
    ClosedFirst(u, t);
    if s != "" {
      EscapedCut(s[0], u[0], Closed(s[1..], r), Closed(u[1..], t));
      ClosedCut(s[1..], u[1..], r, t);
    } else {
      ClosedEmpty(r);
      ClosedEmpty(t);
      PrefixCut("\"", r, t);
    }
  }

  lemma ClosedEmpty(r: string)
    ensures Closed("", r) == "\"" + r
  {
  }

  lemma QuotedCut(s: string, u: string, r: string, t: string)
    requires Quoted(s) + r == Quoted(u) + t
    ensures s == u && r == t
  {
    hide EscapedAll;
    QuotedClosed(s, r);
    QuotedClosed(u, t);
    PrefixCut("\"", Closed(s, r), Closed(u, t));
    ClosedCut(s, u, r, t);
  }

  lemma QuotedClosed(s: string, r: string)
    ensures Quoted(s) + r == "\"" + Closed(s, r)
  {
    hide EscapedAll;
    Regroup("\"" + EscapedAll(s), "\"", r);
    Regroup("\"", EscapedAll(s), "\"" + r);
  }

  lemma NumeralCut(n: string, m: string, r: string, t: string)
    requires (forall i :: 0 <= i < |n| ==> NumeralChar(n[i])) && (forall i :: 0 <= i < |m| ==> NumeralChar(m[i]))
    requires Ends(r) && Ends(t) && n + r == m + t
    ensures n == m && r == t
  {
    var s := n + r;
    assert s == m + t;
    NumeralEnds(n, r, |m|);
    NumeralEnds(m, t, |n|);
    assert n == s[..|n|] && m == s[..|n|] && r == s[|n|..] && t == s[|n|..];
  }

  /** The numeral ends where its last character is a numeral's and the next one is not. */
  lemma NumeralEnds(n: string, r: string, k: nat)
    requires (forall i :: 0 <= i < |n| ==> NumeralChar(n[i])) && Ends(r) && k <= |n + r| &&
             forall i :: 0 <= i < k ==> NumeralChar((n + r)[i])
    ensures k <= |n|
  {
    if r != "" { assert (n + r)[|n|] == r[0] && !NumeralChar(r[0]); }
  }

  // ---- lists of parts ---------------------------------------------------------------------------------

  predicate Closes(close: string) { close == "]" || close == "}" }

  lemma MoreParts(parts: seq<string>, close: string, r: string)
    requires Closes(close)
    ensures var text := Commas(parts) + (close + r);
      Ends(text) && text != "" && (text[0] == ',' <==> parts != [])
      && (parts == [] ==> text == close + r)
      && (parts != [] ==> text == "," + (parts[0] + (Commas(parts[1..]) + (close + r))))
  {
    if parts != [] {
      Regroup("," + parts[0], Commas(parts[1..]), close + r);
      Regroup(",", parts[0], Commas(parts[1..]) + (close + r));
    } else {
      assert "" + (close + r) == close + r;
    }
  }

  lemma FirstPart(parts: seq<string>, close: string, r: string)
    requires Closes(close)
    ensures var text := Texts.Join(parts, ',') + (close + r);
      && (parts == [] ==> text == close + r)
      && (parts != [] ==> text == parts[0] + (Commas(parts[1..]) + (close + r)))
  {
    if parts != [] {
      JoinCommas(parts);
      Regroup(parts[0], Commas(parts[1..]), close + r);
    } else {
      assert "" + (close + r) == close + r;
    }
  }

  lemma Bracketed(open: string, body: string, close: string, r: string)
    ensures (open + body + close) + r == open + (body + (close + r))
  {
    Regroup(open + body, close, r);
    Regroup(open, body, close + r);
  }

  // ---- values -----------------------------------------------------------------------------------------

  lemma SameKind(a: Json, b: Json, r: string, t: string)
    requires Proper(a) && Proper(b) && Print(a) + r == Print(b) + t
    ensures (a.Null? <==> b.Null?) && (a.Bool? <==> b.Bool?) && (a.Num? <==> b.Num?) && (a.Text? <==> b.Text?)
    ensures (a.Arr? <==> b.Arr?) && (a.Obj? <==> b.Obj?) && (a.Bool? ==> a == b)
  {
    PrintOpens(a);
    PrintOpens(b);
    hide Print, Proper;
    assert (Print(a) + r)[0] == Print(a)[0] && (Print(b) + t)[0] == Print(b)[0];
  }

  /** A value can be cut off a text in one way only. */
  lemma {:induction false} ValueCut(a: Json, b: Json, r: string, t: string)
    requires Proper(a) && Proper(b) && Ends(r) && Ends(t) && Print(a) + r == Print(b) + t
    ensures a == b && r == t
    decreases a, 0
  {
    SameKind(a, b, r, t);
    if a.Arr? {
      ItemsCut(a.items, b.items, r, t);
    } else if a.Obj? {
      EntriesCut(a.entries, b.entries, r, t);
    } else {
      LeafCut(a, b, r, t);
    }
  }

  lemma LeafCut(a: Json, b: Json, r: string, t: string)
    requires Proper(a) && Proper(b) && Ends(r) && Ends(t) && Print(a) + r == Print(b) + t && !a.Arr? && !a.Obj?
    requires (a.Null? && b.Null?) || (a.Num? && b.Num?) || (a.Text? && b.Text?) || a == b
    ensures a == b && r == t
  {
    hide Quoted;
    if a.Num? { NumeralCut(a.numeral, b.numeral, r, t); }
    else if a.Text? { QuotedCut(a.text, b.text, r, t); }
    else { PrefixCut(Print(a), r, t); }
  }

  predicate ProperAll(vs: seq<Json>) { forall i :: 0 <= i < |vs| ==> Proper(vs[i]) }

  predicate ProperEntries(es: seq<Entry>) { forall i :: 0 <= i < |es| ==> Proper(es[i].value) }

  lemma ItemOpens(items: seq<Json>, r: string)
    requires ProperAll(items)
    ensures var text := Texts.Join(PrintAll(items), ',') + ("]" + r);
      text != "" && (text[0] == ']' <==> items == [])
  {
    FirstPart(PrintAll(items), "]", r);
    if items != [] { PrintOpens(items[0]); }
  }

  lemma {:induction false} ItemsCut(a: seq<Json>, b: seq<Json>, r: string, t: string)
    requires ProperAll(a) && ProperAll(b) && Print(Arr(a)) + r == Print(Arr(b)) + t
    ensures a == b && r == t
    decreases a, 2
  {
    hide Print, Texts.Join, Commas;
    ArrText(a, r);
    ArrText(b, t);
    var x, y := Texts.Join(PrintAll(a), ',') + ("]" + r), Texts.Join(PrintAll(b), ',') + ("]" + t);
    PrefixCut("[", x, y);
    ItemOpens(a, r);
    ItemOpens(b, t);
    FirstPart(PrintAll(a), "]", r);
    FirstPart(PrintAll(b), "]", t);
    if a != [] {
      MoreParts(PrintAll(a[1..]), "]", r);
      MoreParts(PrintAll(b[1..]), "]", t);
      assert PrintAll(a)[1..] == PrintAll(a[1..]) && PrintAll(b)[1..] == PrintAll(b[1..]);
      ValueCut(a[0], b[0], Commas(PrintAll(a[1..])) + ("]" + r), Commas(PrintAll(b[1..])) + ("]" + t));
      MoreItemsCut(a[1..], b[1..], r, t);
      assert a == [a[0]] + a[1..] && b == [b[0]] + b[1..];
    } else {
      PrefixCut("]", r, t);
    }
  }

  lemma ArrText(a: seq<Json>, r: string)
    ensures Print(Arr(a)) + r == "[" + (Texts.Join(PrintAll(a), ',') + ("]" + r))
  {
    hide Texts.Join;
    Bracketed("[", Texts.Join(PrintAll(a), ','), "]", r);
  }

  lemma {:induction false} MoreItemsCut(a: seq<Json>, b: seq<Json>, r: string, t: string)
    requires ProperAll(a) && ProperAll(b)
    requires Commas(PrintAll(a)) + ("]" + r) == Commas(PrintAll(b)) + ("]" + t)
    ensures a == b && r == t
    decreases a, 1
  {
    hide Print, Commas;
    MoreParts(PrintAll(a), "]", r);
    MoreParts(PrintAll(b), "]", t);
    if a != [] {
      var restA, restB := Commas(PrintAll(a[1..])) + ("]" + r), Commas(PrintAll(b[1..])) + ("]" + t);
      MoreParts(PrintAll(a[1..]), "]", r);
      MoreParts(PrintAll(b[1..]), "]", t);
      assert PrintAll(a)[1..] == PrintAll(a[1..]) && PrintAll(b)[1..] == PrintAll(b[1..]);
      PrefixCut(",", Print(a[0]) + restA, Print(b[0]) + restB);
      ValueCut(a[0], b[0], restA, restB);
      MoreItemsCut(a[1..], b[1..], r, t);
      assert a == [a[0]] + a[1..] && b == [b[0]] + b[1..];
    } else {
      PrefixCut("]", r, t);
    }
  }

  function PrintEntry(e: Entry): string { Quoted(e.key) + ":" + Print(e.value) }

  lemma {:induction false} EntryCut(a: Entry, b: Entry, r: string, t: string)
    requires Proper(a.value) && Proper(b.value) && Ends(r) && Ends(t) && PrintEntry(a) + r == PrintEntry(b) + t
    ensures a == b && r == t
    decreases a, 1
  {
    hide Quoted, Proper, Print;
    Bracketed(Quoted(a.key), ":", Print(a.value), r);
    Bracketed(Quoted(b.key), ":", Print(b.value), t);
    QuotedCut(a.key, b.key, ":" + (Print(a.value) + r), ":" + (Print(b.value) + t));
    PrefixCut(":", Print(a.value) + r, Print(b.value) + t);
    ValueCut(a.value, b.value, r, t);
  }

  lemma EntryOpens(es: seq<Entry>, r: string)
    ensures var text := Texts.Join(PrintEntries(es), ',') + ("}" + r);
      text != "" && (text[0] == '}' <==> es == [])
  {
    FirstPart(PrintEntries(es), "}", r);
    if es != [] { assert PrintEntries(es)[0][0] == '\"'; }
  }

  lemma {:induction false} EntriesCut(a: seq<Entry>, b: seq<Entry>, r: string, t: string)
    requires ProperEntries(a) && ProperEntries(b) && Print(Obj(a)) + r == Print(Obj(b)) + t
    ensures a == b && r == t
    decreases a, 3
  {
    hide Print, Texts.Join, Commas, Quoted;
    ObjText(a, r);
    ObjText(b, t);
    var x, y := Texts.Join(PrintEntries(a), ',') + ("}" + r), Texts.Join(PrintEntries(b), ',') + ("}" + t);
    PrefixCut("{", x, y);
    EntryOpens(a, r);
    EntryOpens(b, t);
    FirstPart(PrintEntries(a), "}", r);
    FirstPart(PrintEntries(b), "}", t);
    if a != [] {
      MoreParts(PrintEntries(a[1..]), "}", r);
      MoreParts(PrintEntries(b[1..]), "}", t);
      assert PrintEntries(a)[1..] == PrintEntries(a[1..]) && PrintEntries(b)[1..] == PrintEntries(b[1..]);
      EntryCut(a[0], b[0], Commas(PrintEntries(a[1..])) + ("}" + r), Commas(PrintEntries(b[1..])) + ("}" + t));
      MoreEntriesCut(a[1..], b[1..], r, t);
      assert a == [a[0]] + a[1..] && b == [b[0]] + b[1..];
    } else {
      PrefixCut("}", r, t);
    }
  }

  lemma ObjText(a: seq<Entry>, r: string)
    ensures Print(Obj(a)) + r == "{" + (Texts.Join(PrintEntries(a), ',') + ("}" + r))
  {
    hide Texts.Join;
    Bracketed("{", Texts.Join(PrintEntries(a), ','), "}", r);
  }

  lemma {:induction false} MoreEntriesCut(a: seq<Entry>, b: seq<Entry>, r: string, t: string)
    requires ProperEntries(a) && ProperEntries(b)
    requires Commas(PrintEntries(a)) + ("}" + r) == Commas(PrintEntries(b)) + ("}" + t)
    ensures a == b && r == t
    decreases a, 2
  {
    hide Print, Commas, Quoted;
    MoreParts(PrintEntries(a), "}", r);
    MoreParts(PrintEntries(b), "}", t);
    if a != [] {
      var restA, restB := Commas(PrintEntries(a[1..])) + ("}" + r), Commas(PrintEntries(b[1..])) + ("}" + t);
      MoreParts(PrintEntries(a[1..]), "}", r);
      MoreParts(PrintEntries(b[1..]), "}", t);
      assert PrintEntries(a)[1..] == PrintEntries(a[1..]) && PrintEntries(b)[1..] == PrintEntries(b[1..]);
      PrefixCut(",", PrintEntry(a[0]) + restA, PrintEntry(b[0]) + restB);
      EntryCut(a[0], b[0], restA, restB);
      MoreEntriesCut(a[1..], b[1..], r, t);
      assert a == [a[0]] + a[1..] && b == [b[0]] + b[1..];
    } else {
      PrefixCut("}", r, t);
    }
  }

  // ---- one canonical form -------------------------------------------------------------------------------

  ghost predicate InOrder(es: seq<Entry>, leq: (string, string) -> bool)
  {
    forall i, j :: 0 <= i < j < |es| ==> leq(es[i].key, es[j].key) && es[i].key != es[j].key
  }

  lemma {:induction false} SameElements(es: seq<Entry>, leq: (string, string) -> bool, e: Entry)
    ensures e in SortEntries(es, leq) <==> e in es
  {
    assert e in multiset(SortEntries(es, leq)) <==> e in multiset(es);
  }

  lemma {:induction false} InsertInOrder(e: Entry, es: seq<Entry>, leq: (string, string) -> bool)
    requires Orders(leq) && InOrder(es, leq) && forall i :: 0 <= i < |es| ==> es[i].key != e.key
    ensures InOrder(Insert(e, es, leq), leq)
    ensures forall x :: x in Insert(e, es, leq) <==> x == e || x in es
    decreases |es|
  {
    if es != [] && !leq(e.key, es[0].key) {
      InsertInOrder(e, es[1..], leq);
      var rest := Insert(e, es[1..], leq);
      forall i | 0 <= i < |rest| ensures leq(es[0].key, rest[i].key) && es[0].key != rest[i].key {
        assert rest[i] in rest;
        if rest[i] != e { assert rest[i] in es[1..]; }
      }
      assert forall x :: x in es <==> x == es[0] || x in es[1..];
    } else if es != [] {
      forall i | 0 <= i < |es| ensures leq(e.key, es[i].key) { assert leq(es[0].key, es[i].key); }
    }
  }

  lemma {:induction false} SortInOrder(es: seq<Entry>, leq: (string, string) -> bool)
    requires Orders(leq) && Distinct(es)
    ensures InOrder(SortEntries(es, leq), leq)
    ensures forall x :: x in SortEntries(es, leq) <==> x in es
    decreases |es|
  {
    if es != [] {
      SortInOrder(es[1..], leq);
      var rest := SortEntries(es[1..], leq);
      forall i | 0 <= i < |rest| ensures rest[i].key != es[0].key { assert rest[i] in es[1..]; }
      InsertInOrder(es[0], rest, leq);
      assert forall x :: x in es <==> x == es[0] || x in es[1..];
    }
  }

  /** There is one list in order of given entries. */
  lemma {:induction false} OneOrder(a: seq<Entry>, b: seq<Entry>, leq: (string, string) -> bool)
    requires Orders(leq) && InOrder(a, leq) && InOrder(b, leq) && forall x :: x in a <==> x in b
    ensures a == b
    decreases |a|
  {
    assert b != [] ==> b[0] in b && b[0] in a;
    if a != [] {
      assert a[0] in b;
      assert b[0] in a;
      assert a[0] == b[0];
      forall x | x in a[1..] ensures x in b[1..] { assert x in b; assert x != a[0]; }
      forall x | x in b[1..] ensures x in a[1..] { assert x in a; assert x != b[0]; }
      OneOrder(a[1..], b[1..], leq);
      assert a == [a[0]] + a[1..] && b == [b[0]] + b[1..];
    }
  }

  lemma {:induction false} CanonProper(v: Json, leq: (string, string) -> bool)
    requires Valid(v)
    ensures Proper(Canon(v, leq))
    decreases v
  {
    match v
    case Arr(items) =>
      forall i | 0 <= i < |items| ensures Proper(CanonAll(items, leq)[i]) { CanonProper(items[i], leq); }
    case Obj(entries) =>
      var canon := CanonEntries(entries, leq);
      forall i | 0 <= i < |canon| ensures Proper(canon[i].value) { CanonProper(entries[i].value, leq); }
      var sorted := SortEntries(canon, leq);
      forall i | 0 <= i < |sorted| ensures Proper(sorted[i].value) {
        assert sorted[i] in sorted;
        SameElements(canon, leq, sorted[i]);
      }
    case _ =>
  }

  /** Canonical forms are equal exactly for values that are the same. */
  lemma {:induction false} CanonExactly(v: Json, w: Json, leq: (string, string) -> bool)
    requires Orders(leq) && Valid(v) && Valid(w)
    ensures Canon(v, leq) == Canon(w, leq) <==> Same(v, w)
    decreases v
  {
    if v.Arr? && w.Arr? && |v.items| == |w.items| {
      forall i | 0 <= i < |v.items|
        ensures Canon(v.items[i], leq) == Canon(w.items[i], leq) <==> Same(v.items[i], w.items[i])
      {
        CanonExactly(v.items[i], w.items[i], leq);
      }
      ArraysExactly(v.items, w.items, leq);
    } else if v.Obj? && w.Obj? {
      forall i, j | 0 <= i < |v.entries| && 0 <= j < |w.entries|
        ensures Canon(v.entries[i].value, leq) == Canon(w.entries[j].value, leq) <==>
                Same(v.entries[i].value, w.entries[j].value)
      {
        CanonExactly(v.entries[i].value, w.entries[j].value, leq);
      }
      ObjectsExactly(v.entries, w.entries, leq);
    }
  }

  lemma ArraysExactly(a: seq<Json>, b: seq<Json>, leq: (string, string) -> bool)
    requires |a| == |b| && forall i :: 0 <= i < |a| ==> (Canon(a[i], leq) == Canon(b[i], leq) <==> Same(a[i], b[i]))
    ensures CanonAll(a, leq) == CanonAll(b, leq) <==> forall i :: 0 <= i < |a| ==> Same(a[i], b[i])
  {
    hide Same, Canon;
    if CanonAll(a, leq) == CanonAll(b, leq) {
      forall i | 0 <= i < |a| ensures Same(a[i], b[i]) { assert CanonAll(a, leq)[i] == CanonAll(b, leq)[i]; }
    }
  }

  lemma ObjectsExactly(a: seq<Entry>, b: seq<Entry>, leq: (string, string) -> bool)
    requires Orders(leq) && Distinct(a) && Distinct(b)
    requires forall i, j :: 0 <= i < |a| && 0 <= j < |b| ==>
             (Canon(a[i].value, leq) == Canon(b[j].value, leq) <==> Same(a[i].value, b[j].value))
    ensures SortEntries(CanonEntries(a, leq), leq) == SortEntries(CanonEntries(b, leq), leq)
      <==> |a| == |b| && forall i :: 0 <= i < |a| ==> Among(a[i], b)
  {
    hide Same, Canon, SortEntries, Orders;
    var x, y := CanonEntries(a, leq), CanonEntries(b, leq);
    SortInOrder(x, leq);
    SortInOrder(y, leq);
    if SortEntries(x, leq) == SortEntries(y, leq) {
      assert |x| == |multiset(x)| == |multiset(y)| == |y|;
      EntriesAmong(a, b, leq);
    }
    if |a| == |b| && forall i :: 0 <= i < |a| ==> Among(a[i], b) {
      AmongEntries(a, b, leq);
      OneOrder(SortEntries(x, leq), SortEntries(y, leq), leq);
    }
  }

  lemma EntriesAmong(a: seq<Entry>, b: seq<Entry>, leq: (string, string) -> bool)
    requires forall i, j :: 0 <= i < |a| && 0 <= j < |b| ==>
             (Canon(a[i].value, leq) == Canon(b[j].value, leq) <==> Same(a[i].value, b[j].value))
    requires forall e :: e in CanonEntries(a, leq) ==> e in CanonEntries(b, leq)
    ensures forall i :: 0 <= i < |a| ==> Among(a[i], b)
  {
    hide Same, Canon;
    var x, y := CanonEntries(a, leq), CanonEntries(b, leq);
    forall i | 0 <= i < |a| ensures Among(a[i], b) {
      assert x[i] in x;
      var j :| 0 <= j < |y| && y[j] == x[i];
      assert b[j].key == a[i].key && Same(a[i].value, b[j].value);
    }
  }

  lemma AmongEntries(a: seq<Entry>, b: seq<Entry>, leq: (string, string) -> bool)
    requires Distinct(a) && Distinct(b) && |a| == |b|
    requires forall i, j :: 0 <= i < |a| && 0 <= j < |b| ==>
             (Canon(a[i].value, leq) == Canon(b[j].value, leq) <==> Same(a[i].value, b[j].value))
    requires forall i :: 0 <= i < |a| ==> Among(a[i], b)
    ensures forall e :: e in CanonEntries(a, leq) <==> e in CanonEntries(b, leq)
  {
    hide Same, Canon;
    var x, y := CanonEntries(a, leq), CanonEntries(b, leq);
    forall e | e in x ensures e in y {
      var i :| 0 <= i < |x| && x[i] == e;
      assert Among(a[i], b);
      var j :| 0 <= j < |b| && b[j].key == a[i].key && Same(a[i].value, b[j].value);
      assert y[j] == x[i];
    }
    Filled(x, y);
  }

  /** Distinct entries that all occur in a list as long are all of it. */
  lemma {:induction false} Filled(x: seq<Entry>, y: seq<Entry>)
    requires |x| == |y| && Distinct(x) && Distinct(y) && forall e :: e in x ==> e in y
    ensures forall e :: e in y ==> e in x
    decreases |x|
  {
    if x != [] {
      assert x[0] in y;
      var j :| 0 <= j < |y| && y[j] == x[0];
      var rest := y[..j] + y[j + 1..];
      forall e | e in x[1..] ensures e in rest {
        assert e in x;
        var k :| 0 <= k < |y| && y[k] == e;
        assert e != x[0];
        assert if k < j then rest[k] == e else rest[k - 1] == e;
      }
      Filled(x[1..], rest);
      forall e | e in y ensures e in x {
        var k :| 0 <= k < |y| && y[k] == e;
        if k != j { assert if k < j then rest[k] == e else rest[k - 1] == e; assert e in x[1..]; }
      }
    }
  }

  /**
   * Two values are written as one text, and so share a cache entry, exactly if they are equal up to the order of keys
   * and undefined as null.
   */
  lemma SharesTextExactly(v: Json, w: Json, leq: (string, string) -> bool)
    requires Orders(leq) && Valid(v) && Valid(w)
    ensures StableStringify(v, leq) == StableStringify(w, leq) <==> Same(v, w)
  {
    var a, b := Canon(v, leq), Canon(w, leq);
    WritesCanon(v, leq);
    WritesCanon(w, leq);
    CanonProper(v, leq);
    CanonProper(w, leq);
    CanonExactly(v, w, leq);
    if Print(a) == Print(b) {
      assert Print(a) + "" == Print(b) + "";
      ValueCut(a, b, "", "");
    }
  }
}
