/** Cache keys: the canonical text of a JSON value, and keys built of parts. */
module Cache {
  import Lexer
  import Texts
  import opened Options

  // ---- values ---------------------------------------------------------------------------------------

  /** A number stands by its shortest decimal numeral, an object by its properties in insertion order. */
  datatype Json =
    | Undefined
    | Null
    | Bool(value: bool)
    | Num(numeral: string)
    | Text(text: string)
    | Arr(items: seq<Json>)
    | Obj(entries: seq<Entry>)

  datatype Entry = Entry(key: string, value: Json)

  predicate NumeralChar(c: char) { Lexer.IsDigit(c) || c in "+-.e" }

  predicate Distinct(entries: seq<Entry>) { forall i, j :: 0 <= i < j < |entries| ==> entries[i].key != entries[j].key }

  /** Numbers are finite and no object has a key twice. */
  predicate Valid(v: Json)
  {
    match v
    case Num(n) => n != "" && (Lexer.IsDigit(n[0]) || n[0] == '-') && forall i :: 0 <= i < |n| ==> NumeralChar(n[i])
    case Arr(items) => forall i :: 0 <= i < |items| ==> Valid(items[i])
    case Obj(entries) => Distinct(entries) && forall i :: 0 <= i < |entries| ==> Valid(entries[i].value)
    case _ => true
  }

  /** The same value up to the order of object keys, with undefined counted as null. */
  predicate Same(v: Json, w: Json)
  {
    match v
    case Undefined => w.Undefined? || w.Null?
    case Null => w.Undefined? || w.Null?
    case Arr(items) => w.Arr? && |items| == |w.items| && forall i :: 0 <= i < |items| ==> Same(items[i], w.items[i])
    case Obj(entries) =>
      w.Obj? && |entries| == |w.entries| && forall i :: 0 <= i < |entries| ==> Among(entries[i], w.entries)
    case _ => v == w
  }

  predicate Among(e: Entry, entries: seq<Entry>)
    decreases e, 1
  {
    exists j :: 0 <= j < |entries| && entries[j].key == e.key && Same(e.value, entries[j].value)
  }

  // ---- text -----------------------------------------------------------------------------------------

  const HEX := "0123456789abcdef"

  function Escaped(c: char): (r: string)
    ensures r != ""
  {
    if c == '\"' then "\\\""
    else if c == '\\' then "\\\\"
    else if c == '\U{8}' then "\\b"
    else if c == '\t' then "\\t"
    else if c == '\n' then "\\n"
    else if c == '\U{C}' then "\\f"
    else if c == '\r' then "\\r"
    else if c < ' ' then "\\u00" + [HEX[c as int / 16], HEX[c as int % 16]]
    else [c]
  }

  function EscapedAll(s: string): string { if s == "" then "" else Escaped(s[0]) + EscapedAll(s[1..]) }

  function Quoted(s: string): string { "\"" + EscapedAll(s) + "\"" }

  // ---- the canonical text ---------------------------------------------------------------------------

  /** How keys compare: an order in which no two different keys are equal. */
  ghost predicate Orders(leq: (string, string) -> bool)
  {
    && (forall a, b :: leq(a, b) || leq(b, a))
    && (forall a, b :: leq(a, b) && leq(b, a) ==> a == b)
    && (forall a, b, c :: leq(a, b) && leq(b, c) ==> leq(a, c))
  }

  function Size(v: Json): (r: nat)
    ensures r > 0
  {
    match v
    case Arr(items) => 1 + SizeAll(items)
    case Obj(entries) => 1 + SizeEntries(entries)
    case _ => 1
  }

  function SizeAll(vs: seq<Json>): nat { if vs == [] then 0 else Size(vs[0]) + SizeAll(vs[1..]) }

  function SizeEntries(es: seq<Entry>): nat { if es == [] then 0 else Size(es[0].value) + SizeEntries(es[1..]) }

  function Insert(e: Entry, es: seq<Entry>, leq: (string, string) -> bool): (r: seq<Entry>)
    ensures SizeEntries(r) == Size(e.value) + SizeEntries(es)
    ensures multiset(r) == multiset{e} + multiset(es)
  {
    if es == [] || leq(e.key, es[0].key) then assert ([e] + es)[1..] == es; [e] + es
    else
      var rest := Insert(e, es[1..], leq);
      assert ([es[0]] + rest)[1..] == rest && es == [es[0]] + es[1..];
      [es[0]] + rest
  }

  function SortEntries(es: seq<Entry>, leq: (string, string) -> bool): (r: seq<Entry>)
    ensures SizeEntries(r) == SizeEntries(es)
    ensures multiset(r) == multiset(es)
  {
    if es == [] then []
    else assert es == [es[0]] + es[1..]; Insert(es[0], SortEntries(es[1..], leq), leq)
  }

  function StableStringify(v: Json, leq: (string, string) -> bool): string
    decreases Size(v), 0
  {
    match v
    case Undefined => "null"
    case Null => "null"
    case Bool(b) => if b then "true" else "false"
    case Num(numeral) => numeral
    case Text(s) => Quoted(s)
    case Arr(items) => "[" + Texts.Join(StringifyAll(items, leq), ',') + "]"
    case Obj(entries) => "{" + Texts.Join(StringifyEntries(SortEntries(entries, leq), leq), ',') + "}"
  }

  function StringifyAll(vs: seq<Json>, leq: (string, string) -> bool): seq<string>
    decreases SizeAll(vs), 1
  {
    if vs == [] then [] else [StableStringify(vs[0], leq)] + StringifyAll(vs[1..], leq)
  }

  function StringifyEntries(es: seq<Entry>, leq: (string, string) -> bool): seq<string>
    decreases SizeEntries(es), 1
  {
    if es == [] then []
    else [Quoted(es[0].key) + ":" + StableStringify(es[0].value, leq)] + StringifyEntries(es[1..], leq)
  }

  // ---- keys of parts --------------------------------------------------------------------------------

  predicate Unkeyed(c: char) { Lexer.IsSpace(c) || c == ':' }

  /** Every run of white space and colons becomes one underscore. */
  function Collapsed(s: string): string
  {
    if s == "" then ""
    else if !Unkeyed(s[0]) then [s[0]] + Collapsed(s[1..])
    else if |s| > 1 && Unkeyed(s[1]) then Collapsed(s[1..])
    else "_" + Collapsed(s[1..])
  }

  /** A part as its text; none stands for null and undefined. */
  function SanitizeKeyPart(part: Option<string>): (r: string)
    ensures r != "" && forall i :: 0 <= i < |r| ==> !Unkeyed(r[i])
  {
    var r := Collapsed(Texts.Trim(if part.Some? then part.value else ""));
    CollapsedClean(Texts.Trim(if part.Some? then part.value else ""));
    if r == "" then "na" else r
  }

  lemma {:induction false} CollapsedClean(s: string)
    ensures forall i :: 0 <= i < |Collapsed(s)| ==> !Unkeyed(Collapsed(s)[i])
  {
    if s != "" { CollapsedClean(s[1..]); }
  }

  function Sanitized(parts: seq<Option<string>>): seq<string> {
    seq(|parts|, i requires 0 <= i < |parts| => SanitizeKeyPart(parts[i]))
  }

  function BuildCacheKey(parts: seq<Option<string>>): string { Texts.Join(Sanitized(parts), ':') }

  /**
   * A key can be taken apart again into its sanitized parts, so that two lists of parts share a key exactly if they
   * sanitize alike.
   */
  lemma KeysShareExactly(a: seq<Option<string>>, b: seq<Option<string>>)
    requires a != [] && b != []
    ensures Texts.Split(BuildCacheKey(a), ':') == Sanitized(a)
    ensures BuildCacheKey(a) == BuildCacheKey(b) <==> Sanitized(a) == Sanitized(b)
  {
    assert forall i :: 0 <= i < |a| ==> Texts.Lacks(Sanitized(a)[i], ':') by { SanitizedLack(a); }
    assert forall i :: 0 <= i < |b| ==> Texts.Lacks(Sanitized(b)[i], ':') by { SanitizedLack(b); }
    Texts.SplitUndoesJoinExactly(Sanitized(a), ':');
    Texts.SplitUndoesJoinExactly(Sanitized(b), ':');
  }

  lemma SanitizedLack(a: seq<Option<string>>)
    ensures forall i :: 0 <= i < |a| ==> Texts.Lacks(Sanitized(a)[i], ':')
  {
    hide Collapsed, Texts.Trim;
    forall i | 0 <= i < |a| ensures Texts.Lacks(Sanitized(a)[i], ':') {
      var r := SanitizeKeyPart(a[i]);
      assert forall k :: 0 <= k < |r| ==> !Unkeyed(r[k]);
    }
  }
}
