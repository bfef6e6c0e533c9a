/** The coverages of a policy, from any of the shapes they come in, by normalized code. */
module Coverages {
  import opened Options
  import opened Values
  import opened Evaluator
  import Lexer
  import Texts

  /** One coverage as given: a code, which may be no text, and what is said of it. */
  datatype Entry = Entry(code: Option<string>, item: Value)

  /** The item's own fields, under which `selected` is set. */
  datatype Coverage = Coverage(fields: seq<(string, Value)>, selected: bool)

  datatype Normalized = Normalized(coverages: map<string, Coverage>, codes: seq<string>)

  /** A graph, the runtime, and the names that no code may have. */
  datatype Setting = Setting(h: Heap, host: Host, forbidden: string -> bool)

  function FieldsOf(h: Heap, v: Value): seq<(string, Value)> {
    if v.Ref? && v.id in h && h[v.id].Rec? then h[v.id].fields else []
  }

  function TextOf(v: Option<Value>): Option<string> { if v.Some? && v.value.Text? then Some(v.value.text) else None }

  function CommaFor(c: char): char { if c == '|' then ',' else c }

  /** The entries of a text list, an array or a record. */
  function Entries(h: Heap, value: Value): seq<Entry>
  {
    if value.Text? then
      var parts := Texts.Split(seq(|value.text|, i requires 0 <= i < |value.text| => CommaFor(value.text[i])), ',');
      seq(|parts|, i requires 0 <= i < |parts| => Entry(Some(parts[i]), Bool(true)))
    else if IsArray(h, value) then
      var items := Elements(h, value).value;
      seq(|items|, i requires 0 <= i < |items| =>
        Entry(if items[i].Text? then Some(items[i].text) else TextOf(Field(FieldsOf(h, items[i]), "code")), items[i]))
    else
      var fields := FieldsOf(h, value);
      seq(|fields|, i requires 0 <= i < |fields| => Entry(Some(fields[i].0), fields[i].1))
  }

  function CodeOf(e: Entry, s: Setting): string { s.host.upper(Texts.Trim(if e.code.Some? then e.code.value else "")) }

  predicate CodeStart(c: char) { 'A' <= c <= 'Z' || Lexer.IsDigit(c) || c == '_' }

  predicate ValidCode(code: string)
  {
    1 <= |code| <= 100 && CodeStart(code[0]) &&
        forall i :: 0 <= i < |code| ==> CodeStart(code[i]) || (i > 0 && code[i] == '-')
  }

  predicate Acceptable(e: Entry, s: Setting) { e.code.Some? && ValidCode(CodeOf(e, s)) && !s.forbidden(CodeOf(e, s)) }

  function CoverageOf(item: Value, s: Setting): Coverage
  {
    var fields := FieldsOf(s.h, item);
    var given := Field(fields, "selected");
    var selected := if given.Some? && !given.value.Null? && !given.value.Undefined? then given.value
        else if item.Bool? then item else Bool(true);
    Coverage(fields, IsTruthy(s.h, selected))
  }

  predicate Sorted(codes: seq<string>) { forall i, j :: 0 <= i < j < |codes| ==> Texts.Before(codes[i], codes[j]) }

  /** The entry is the last of its code among these. */
  ghost predicate LastOfCode(es: seq<Entry>, i: nat, s: Setting)
  {
    i < |es| && forall j :: i < j < |es| ==> CodeOf(es[j], s) != CodeOf(es[i], s)
  }

  ghost predicate Says(es: seq<Entry>, i: nat, code: string, c: Coverage, s: Setting)
  {
    LastOfCode(es, i, s) && CodeOf(es[i], s) == code && c == CoverageOf(es[i].item, s)
  }

  ghost predicate Said(es: seq<Entry>, code: string, c: Coverage, s: Setting) { exists i :: Says(es, i, code, c, s) }

  /** Every coverage is what the last entry of its code says, and every entry's code is there. */
  ghost predicate Reflects(coverages: map<string, Coverage>, es: seq<Entry>, s: Setting)
  {
    && (forall i :: 0 <= i < |es| ==> CodeOf(es[i], s) in coverages)
    && (forall code :: code in coverages ==> Said(es, code, coverages[code], s))
  }

  /**
   * Fails if some entry has no acceptable code. Otherwise the last entry of a code counts, and the codes listed are
   * exactly the selected ones, in order and each once.
   */
  method NormalizeCoverages(value: Value, s: Setting) returns (r: Option<Normalized>)
    ensures r.Some? <==> forall i :: 0 <= i < |Entries(s.h, value)| ==> Acceptable(Entries(s.h, value)[i], s)
    ensures r.Some? ==> Reflects(r.value.coverages, Entries(s.h, value), s)
    ensures r.Some? ==> Sorted(r.value.codes)
    ensures r.Some? ==>
            forall code :: code in r.value.codes <==> code in r.value.coverages && r.value.coverages[code].selected
  {
    hide Acceptable, CoverageOf, Sorted, Entries, CodeOf;
    var es := Entries(s.h, value);
    var coverages: map<string, Coverage> := map[];
    var i := 0;
    while i < |es|
      invariant 0 <= i <= |es| && Reflects(coverages, es[..i], s)
      invariant forall j :: 0 <= j < i ==> Acceptable(es[j], s)
    {
      if !Acceptable(es[i], s) { return None; }
      Recorded(coverages, es, i, s);
      coverages := coverages[CodeOf(es[i], s) := CoverageOf(es[i].item, s)];
      i := i + 1;
    }
    assert es[..i] == es;
    var codes := SelectedCodes(coverages);
    return Some(Normalized(coverages, codes));
  }

  lemma Recorded(coverages: map<string, Coverage>, es: seq<Entry>, i: nat, s: Setting)
    requires i < |es| && Reflects(coverages, es[..i], s)
    ensures Reflects(coverages[CodeOf(es[i], s) := CoverageOf(es[i].item, s)], es[..i + 1], s)
  {
    hide CodeOf, CoverageOf;
    var code := CodeOf(es[i], s);
    var next := coverages[code := CoverageOf(es[i].item, s)];
    var longer := es[..i + 1];
    forall other | other in next ensures Said(longer, other, next[other], s) {
      if other == code {
        assert Says(longer, i, code, next[code], s);
      } else {
        assert Said(es[..i], other, coverages[other], s);
        var j :| Says(es[..i], j, other, coverages[other], s);
        assert Says(longer, j, other, next[other], s);
      }
    }
    forall j | 0 <= j < |longer| ensures CodeOf(longer[j], s) in next { if j < i { assert es[..i][j] == longer[j]; } }
  }

  /** There is one such map: the entries determine the coverages. */
  lemma {:induction false} ReflectedOnce(a: map<string, Coverage>, b: map<string, Coverage>, es: seq<Entry>, s: Setting)
    requires Reflects(a, es, s) && Reflects(b, es, s)
    ensures a == b
  {
    hide CodeOf, CoverageOf;
    forall code | code in a ensures code in b && a[code] == b[code] {
      assert Said(es, code, a[code], s);
      var i :| Says(es, i, code, a[code], s);
      assert Said(es, code, b[code], s);
      var j :| Says(es, j, code, b[code], s);
    }
    forall code | code in b ensures code in a {
      assert Said(es, code, b[code], s);
      var i :| Says(es, i, code, b[code], s);
    }
  }

  /** The selected codes, sorted. */
  method SelectedCodes(coverages: map<string, Coverage>) returns (codes: seq<string>)
    ensures Sorted(codes) && forall code :: code in codes <==> code in coverages && coverages[code].selected
  {
    codes := [];
    var left := coverages.Keys;
    while left != {}
      invariant left <= coverages.Keys && Sorted(codes)
      invariant forall code :: code in codes <==> code in coverages && code !in left && coverages[code].selected
      decreases |left|
    {
      var code :| code in left;
      left := left - {code};
      if coverages[code].selected { codes := Place(code, codes); }
    }
  }

  function Place(code: string, codes: seq<string>): (r: seq<string>)
    requires Sorted(codes) && code !in codes
    ensures Sorted(r) && forall c :: c in r <==> c == code || c in codes
  {
    if codes == [] then [code]
    else
      Texts.BeforeOrders(code, codes[0]);
      if Texts.Before(code, codes[0]) then BeforeAll(code, codes); [code] + codes
      else
        var rest := Place(code, codes[1..]);
        assert forall i :: 0 <= i < |rest| ==> rest[i] in rest && Texts.Before(codes[0], rest[i]);
        assert forall c :: c in codes <==> c == codes[0] || c in codes[1..];
        [codes[0]] + rest
  }

  lemma BeforeAll(code: string, codes: seq<string>)
    requires Sorted(codes) && codes != [] && Texts.Before(code, codes[0])
    ensures forall i :: 0 <= i < |codes| ==> Texts.Before(code, codes[i])
  {
    forall i | 0 < i < |codes| ensures Texts.Before(code, codes[i]) { Texts.BeforeChains(code, codes[0], codes[i]); }
  }
}
