/** How coverages are read from the shapes they come in, which codes are accepted, and when one counts as selected. */
module CoveragesMeaning {
  import opened Coverages
  import opened EvaluationLaws
  import opened Evaluator
  import opened Options
  import opened Values
  import Texts

  // ---- the shapes -----------------------------------------------------------------------------

  predicate Unbroken(s: string) { forall i :: 0 <= i < |s| ==> s[i] != ',' && s[i] != '|' }

  /** A text lists codes between commas and bars, each of them meant as selected. */
  lemma TextEntries(h: Heap, code: string, separator: char, rest: string)
    requires Unbroken(code) && (separator == ',' || separator == '|')
    ensures Entries(h, Text(code)) == [Entry(Some(code), Bool(true))]
    ensures Entries(h, Text(code + [separator] + rest)) == [Entry(Some(code), Bool(true))] + Entries(h, Text(rest))
  {
    hide Texts.Split;
    CommasOn(code, separator, rest);
    Texts.SplitPrefix(code, Commas(rest), ',');
    TextParts(h, code);
    TextParts(h, rest);
    TextParts(h, code + [separator] + rest);
    assert FromParts([code]) == [Entry(Some(code), Bool(true))];
    PartsOn([code], Texts.Split(Commas(rest), ','));
  }

  lemma CommasOn(code: string, separator: char, rest: string)
    requires Unbroken(code) && (separator == ',' || separator == '|')
    ensures Commas(code) == code && Commas(code + [separator] + rest) == code + [','] + Commas(rest) &&
            Texts.Lacks(code, ',')
  {
  }

  lemma TextParts(h: Heap, s: string)
    ensures Entries(h, Text(s)) == FromParts(Texts.Split(Commas(s), ','))
  {
    hide Texts.Split;
  }

  lemma PartsOn(a: seq<string>, b: seq<string>)
    ensures FromParts(a + b) == FromParts(a) + FromParts(b)
  {
  }

  function Commas(s: string): string { seq(|s|, i requires 0 <= i < |s| => CommaFor(s[i])) }

  function FromParts(parts: seq<string>): seq<Entry>
  {
    seq(|parts|, i requires 0 <= i < |parts| => Entry(Some(parts[i]), Bool(true)))
  }

  /** The value is a record with these fields. */
  predicate RecordOf(h: Heap, v: Value, fields: seq<(string, Value)>) { v.Ref? && v.id in h && h[v.id] == Rec(fields) }

  /** The code an item of a list names: its own text, or the text first named `code` in its record. */
  ghost predicate Names(h: Heap, item: Value, code: Option<string>)
  {
    || (item.Text? && code == Some(item.text))
    || (!item.Text? && exists fields, text, i: nat ::
          RecordOf(h, item, fields) && FirstNamed(fields, "code", Text(text), i) && code == Some(text))
    || (code == None && !item.Text? && forall fields, text, i: nat ::
          !(RecordOf(h, item, fields) && FirstNamed(fields, "code", Text(text), i)))
  }

  lemma ListEntries(h: Heap, value: Value, items: seq<Value>)
    requires ListOf(h, value, items)
    ensures |Entries(h, value)| == |items|
    ensures forall i :: 0 <= i < |items| ==>
      Entries(h, value)[i].item == items[i] && Names(h, items[i], Entries(h, value)[i].code)
  {
    ListExactly(h, value);
    forall i | 0 <= i < |items| ensures Names(h, items[i], Entries(h, value)[i].code) { NamesItem(h, items[i]); }
  }

  lemma NamesItem(h: Heap, item: Value)
    ensures Names(h, item, if item.Text? then Some(item.text) else TextOf(Field(FieldsOf(h, item), "code")))
  {
    var fields := FieldsOf(h, item);
    forall text
      ensures Field(fields, "code") == Some(Text(text)) <==> exists i: nat :: FirstNamed(fields, "code", Text(text), i)
    {
      FieldExactly(fields, "code", Text(text));
    }
    hide Field;
  }

  /** A record lists its fields, and any other value nothing. */
  lemma OtherEntries(h: Heap, value: Value, fields: seq<(string, Value)>)
    ensures RecordOf(h, value, fields) ==>
      |Entries(h, value)| == |fields| &&
      forall i :: 0 <= i < |fields| ==> Entries(h, value)[i] == Entry(Some(fields[i].0), fields[i].1)
    ensures !value.Text? && NoList(h, value) && (forall fs :: !RecordOf(h, value, fs)) ==> Entries(h, value) == []
  {
    ListExactly(h, value);
    if value.Ref? && value.id in h && h[value.id].Rec? { assert RecordOf(h, value, h[value.id].fields); }
  }

  // ---- codes ----------------------------------------------------------------------------------

  predicate CodeChar(c: char) { 'A' <= c <= 'Z' || '0' <= c <= '9' || c == '_' }

  /**
   * A code is taken without the blanks around it and in capitals; it is accepted if it then has one to a hundred
   * capitals, digits, underscores and, but for the first, hyphens, and is not a forbidden name.
   */
  lemma CodeExactly(before: string, text: string, after: string, item: Value, s: Setting)
    requires Texts.IsBlankText(before) && Texts.IsBlankText(after) && text != ""
    requires !Texts.IsBlankText(text[..1]) && !Texts.IsBlankText(text[|text| - 1..])
    ensures CodeOf(Entry(Some(before + text + after), item), s) == s.host.upper(text)
    ensures var code := s.host.upper(text);
      Acceptable(Entry(Some(before + text + after), item), s) <==>
        && code != "" && |code| <= 100 && !s.forbidden(code) && code[0] != '-'
        && forall i :: 0 <= i < |code| ==> CodeChar(code[i]) || code[i] == '-'
    ensures !Acceptable(Entry(None, item), s)
  {
    Texts.TrimExactly(before, text, after);
  }

  // ---- selection ------------------------------------------------------------------------------

  /**
   * What decides whether a coverage is selected: its own `selected` unless missing or null, or else the item itself.
   */
  ghost predicate Decides(h: Heap, item: Value, v: Value)
  {
    || (exists fields, i: nat ::
        RecordOf(h, item, fields) && FirstNamed(fields, "selected", v, i) && v != Null && v != Undefined)
    || (NotSaid(h, item) && v == if item.Bool? then item else Bool(true))
  }

  ghost predicate NotSaid(h: Heap, item: Value)
  {
    forall fields, v, i: nat :: RecordOf(h, item, fields) && FirstNamed(fields, "selected", v, i) ==>
        v == Null || v == Undefined
  }

  lemma SelectionExactly(item: Value, s: Setting)
    ensures exists v :: Decides(s.h, item, v) && (CoverageOf(item, s).selected <==> !CountsAsFalse(s.h, v))
    ensures forall fields :: RecordOf(s.h, item, fields) ==> CoverageOf(item, s).fields == fields
  {
    var fields := FieldsOf(s.h, item);
    var given := Field(fields, "selected");
    forall v ensures given == Some(v) <==> exists i: nat :: FirstNamed(fields, "selected", v, i) {
      FieldExactly(fields, "selected", v);
    }
    var selected := if given.Some? && !given.value.Null? && !given.value.Undefined? then given.value
        else if item.Bool? then item else Bool(true);
    hide Field;
    if given.Some? && !given.value.Null? && !given.value.Undefined? {
      assert RecordOf(s.h, item, fields);
    } else {
      forall fs, v, i: nat | RecordOf(s.h, item, fs) && FirstNamed(fs, "selected", v, i)
        ensures v == Null || v == Undefined
      {
        assert fs == fields && given == Some(v);
      }
    }
    assert Decides(s.h, item, selected);
    TruthExactly(s.h, selected);
  }
}
