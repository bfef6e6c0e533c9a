/** The tokenizer of the rule expression language, and the text that spells a given list of tokens. */
module Lexer {
  import opened Syntax
  import opened Options

  const OPERATORS: seq<string> := ["||", "&&", "==", "!=", "<=", ">=", "<", ">", "!", "+", "-", "*", "/", "(", ")",
      "[", "]", ",", "."]

  predicate IsDigit(c: char) { '0' <= c <= '9' }

  predicate IsWordStart(c: char) { 'A' <= c <= 'Z' || 'a' <= c <= 'z' || c == '_' }

  predicate IsWordPart(c: char) { IsWordStart(c) || IsDigit(c) }

  /** The characters JavaScript's `\s` matches. */
  predicate IsSpace(c: char)
  {
    c == ' ' || '\t' <= c <= '\r' || c == '\U{A0}' || c == '\U{1680}' || c == '\U{2028}' || c == '\U{2029}'
    || c == '\U{202F}' || c == '\U{205F}' || c == '\U{3000}' || c == '\U{FEFF}'
    || '\U{2000}' <= c <= '\U{200A}'
  }

  /** By their codes: the digits, the characters a word starts with, and those it goes on with. */
  lemma CharactersExactly(c: char)
    ensures IsDigit(c) <==> 48 <= c as nat <= 57
    ensures IsWordStart(c) <==> 65 <= c as nat <= 90 || 97 <= c as nat <= 122 || c as nat == 95
    ensures IsWordPart(c) <==> IsWordStart(c) || 48 <= c as nat <= 57
  {
  }

  /**
   * The white space of the runtime: tab, line feed, vertical tab, form feed, carriage return and the blanks of Unicode.
   */
  lemma SpacesExactly(c: char)
    ensures IsSpace(c) <==> c as nat in {9, 10, 11, 12, 13, 32, 0xA0, 0x1680, 0x2000, 0x2001, 0x2002, 0x2003, 0x2004,
      0x2005, 0x2006, 0x2007, 0x2008, 0x2009, 0x200A, 0x2028, 0x2029, 0x202F, 0x205F, 0x3000, 0xFEFF}
  {
  }

  /** The number a run of decimal digits stands for. */
  function WholeValue(w: string): nat
  {
    if w == "" then 0
    else 10 * WholeValue(w[..|w| - 1]) + (if IsDigit(w[|w| - 1]) then w[|w| - 1] as nat - '0' as nat else 0)
  }

  /** End of the longest run of digits starting at i. */
  function DigitsEnd(s: string, i: nat): (e: nat)
    requires i <= |s|
    ensures i <= e <= |s|
    ensures forall k :: i <= k < e ==> IsDigit(s[k])
    ensures e < |s| ==> !IsDigit(s[e])
    decreases |s| - i
  {
    if i < |s| && IsDigit(s[i]) then DigitsEnd(s, i + 1) else i
  }

  function WordEnd(s: string, i: nat): (e: nat)
    requires i <= |s|
    ensures i <= e <= |s|
    ensures forall k :: i <= k < e ==> IsWordPart(s[k])
    ensures e < |s| ==> !IsWordPart(s[e])
    decreases |s| - i
  {
    if i < |s| && IsWordPart(s[i]) then WordEnd(s, i + 1) else i
  }

  /** End of the longest match of digits with an optional fraction at i. */
  function NumberEnd(s: string, i: nat): (e: nat)
    requires i < |s| && IsDigit(s[i])
    ensures i < e <= |s|
  {
    var whole := DigitsEnd(s, i);
    if whole + 1 < |s| && s[whole] == '.' && IsDigit(s[whole + 1]) then DigitsEnd(s, whole + 1) else whole
  }

  /** The text between quotes: what it spells and where the closing quote is (or the end of the source). */
  function Quoted(s: string, quote: char, i: nat): (r: (string, nat))
    requires i <= |s|
    ensures i <= r.1 <= |s|
    ensures r.1 < |s| ==> s[r.1] == quote
    decreases |s| - i
  {
    if i < |s| && s[i] != quote then
      var at := if s[i] == '\\' && i + 1 < |s| then i + 1 else i;
      var rest := Quoted(s, quote, at + 1);
      ([s[at]] + rest.0, rest.1)
    else
      ("", i)
  }

  predicate Starts(s: string, i: nat, w: string) { i + |w| <= |s| && forall k :: 0 <= k < |w| ==> s[i + k] == w[k] }

  /** The first operator, in table order from k, that the source has at i. */
  function FindOperator(s: string, i: nat, k: nat): (r: Option<string>)
    requires k <= |OPERATORS|
    ensures r.Some? ==> r.value in OPERATORS && Starts(s, i, r.value)
    decreases |OPERATORS| - k
  {
    if k == |OPERATORS| then None
    else if Starts(s, i, OPERATORS[k]) then Some(OPERATORS[k])
    else FindOperator(s, i, k + 1)
  }

  function Prepend(before: seq<Token>, r: Result<seq<Token>>): Result<seq<Token>>
  {
    match r case Ok(after) => Ok(before + after) case Err(e) => Err(e)
  }

  /** One scanning step at a position that holds no blank: the token there and where the next one may start. */
  function Scan(s: string, i: nat): (r: Result<(Token, nat)>)
    requires i < |s|
    ensures r.Ok? ==> i < r.value.1 <= |s| && r.value.0.position == i && r.value.0.lexeme.kind != End
    ensures r.Err? ==> r.error.position == i
  {
    var c := s[i];
    if IsDigit(c) then
      var e := NumberEnd(s, i);
      Ok((Token(Lexeme(Num, s[i..e]), i), e))
    else if c == '\'' || c == '"' then
      var q := Quoted(s, c, i + 1);
      if q.1 >= |s| then Err(ExpressionError(MissingQuote, i))
      else Ok((Token(Lexeme(Str, q.0), i), q.1 + 1))
    else if IsWordStart(c) then
      var e := WordEnd(s, i);
      assert e > i;
      Ok((Token(Lexeme(Word, s[i..e]), i), e))
    else
      match FindOperator(s, i, 0)
      case None => Err(ExpressionError(UnexpectedCharacter(c), i))
      case Some(op) => assert |op| > 0; Ok((Token(Lexeme(Op, op), i), i + |op|))
  }

  /** Tokens of the source from i on, closed by the end token. */
  function LexFrom(s: string, i: nat): Result<seq<Token>>
    requires i <= |s|
    decreases |s| - i
  {
    if i == |s| then Ok([Token(Lexeme(End, ""), |s|)])
    else if IsSpace(s[i]) then LexFrom(s, i + 1)
    else
      match Scan(s, i)
      case Err(e) => Err(e)
      case Ok((token, next)) => Prepend([token], LexFrom(s, next))
  }

  /** The scan of a quoted text, from just after its opening quote. */
  method ReadQuoted(source: string, quote: char, start: nat) returns (text: string, end: nat)
    requires start <= |source|
    ensures (text, end) == Quoted(source, quote, start)
  {
    text, end := "", start;
    assert "" + Quoted(source, quote, end).0 == Quoted(source, quote, end).0;
    while end < |source| && source[end] != quote
      invariant start <= end <= |source|
      invariant Quoted(source, quote, start) == (text + Quoted(source, quote, end).0, Quoted(source, quote, end).1)
    {
      if source[end] == '\\' && end + 1 < |source| { end := end + 1; }
      ghost var rest := Quoted(source, quote, end + 1).0;
      assert text + ([source[end]] + rest) == text + [source[end]] + rest;
      text := text + [source[end]];
      end := end + 1;
    }
    assert text + "" == text;
  }

  method Tokenize(source: string) returns (r: Result<seq<Token>>)
    ensures r == LexFrom(source, 0)
  {
    hide FindOperator, IsSpace, NumberEnd, WordEnd, LexFrom;
    var tokens: seq<Token> := [];
    var index := 0;
    PrependNothing(LexFrom(source, 0));
    while index < |source|
      invariant 0 <= index <= |source|
      invariant LexFrom(source, 0) == Prepend(tokens, LexFrom(source, index))
    {
      var c := source[index];
      if IsSpace(c) {
        SkipBlank(source, index);
        index := index + 1;
        continue;
      }
      if IsDigit(c) {
        var e := NumberEnd(source, index);
        TakeToken(source, index, tokens);
        tokens := tokens + [Token(Lexeme(Num, source[index..e]), index)];
        index := e;
        continue;
      }
      if c == '\'' || c == '"' {
        var text, end := ReadQuoted(source, c, index + 1);
        TakeToken(source, index, tokens);
        if end >= |source| { return Err(ExpressionError(MissingQuote, index)); }
        tokens := tokens + [Token(Lexeme(Str, text), index)];
        index := end + 1;
        continue;
      }
      TakeToken(source, index, tokens);
      if IsWordStart(c) {
        var e := WordEnd(source, index);
        tokens := tokens + [Token(Lexeme(Word, source[index..e]), index)];
        index := e;
        continue;
      }
      var operator := FindOperator(source, index, 0);
      if operator == None { return Err(ExpressionError(UnexpectedCharacter(c), index)); }
      tokens := tokens + [Token(Lexeme(Op, operator.value), index)];
      index := index + |operator.value|;
    }
    SourceEnds(source);
    return Ok(tokens + [Token(Lexeme(End, ""), |source|)]);
  }

  lemma SkipBlank(s: string, i: nat)
    requires i < |s| && IsSpace(s[i])
    ensures LexFrom(s, i) == LexFrom(s, i + 1)
  {
  }

  lemma SourceEnds(s: string)
    ensures LexFrom(s, |s|) == Ok([Token(Lexeme(End, ""), |s|)])
  {
  }

  lemma TakeToken(s: string, i: nat, before: seq<Token>)
    requires i < |s| && !IsSpace(s[i])
    ensures match Scan(s, i)
            case Err(e) => LexFrom(s, i) == Err(e)
            case Ok((token, next)) => Prepend(before, LexFrom(s, i)) == Prepend(before + [token], LexFrom(s, next))
  {
    hide Scan;
    match Scan(s, i)
    case Err(_) =>
    case Ok((token, next)) => PrependTwice(before, token, LexFrom(s, next));
  }

  lemma PrependTwice(before: seq<Token>, token: Token, r: Result<seq<Token>>)
    ensures Prepend(before, Prepend([token], r)) == Prepend(before + [token], r)
  {
    if r.Ok? { assert before + ([token] + r.value) == before + [token] + r.value; }
  }

  lemma PrependNothing(r: Result<seq<Token>>)
    ensures Prepend([], r) == r
  {
    if r.Ok? { assert [] + r.value == r.value; }
  }

  /** The last token, and only the last one, is the end token. */
  ghost predicate Ended(ts: seq<Token>)
  {
    |ts| > 0 && ts[|ts| - 1].lexeme.kind == End && forall i :: 0 <= i < |ts| - 1 ==> ts[i].lexeme.kind != End
  }

  /** Tokens stand in the source one after the other, and the end token stands at its end. */
  ghost predicate Placed(s: string, ts: seq<Token>, from: nat)
  {
    |ts| > 0
    && ts[|ts| - 1].position == |s|
    && (forall i :: 0 <= i < |ts| ==> from <= ts[i].position <= |s|)
    && (forall i, j :: 0 <= i < j < |ts| ==> ts[i].position < ts[j].position)
  }

  /** Tokenizing either places every token inside the source and ends properly, or blames a character of it. */
  lemma {:induction false} LexWithin(s: string, i: nat)
    requires i <= |s|
    ensures LexFrom(s, i).Ok? ==> Ended(LexFrom(s, i).value) && Placed(s, LexFrom(s, i).value, i)
    ensures LexFrom(s, i).Err? ==> i <= LexFrom(s, i).error.position < |s|
    decreases |s| - i
  {
    hide Scan, IsSpace;
    if i == |s| {
    } else if IsSpace(s[i]) {
      LexWithin(s, i + 1);
    } else {
      match Scan(s, i)
      case Err(_) =>
      case Ok((token, next)) =>
        LexWithin(s, next);
    }
  }

  // ---- the text that spells a list of tokens --------------------------------------------------

  ghost predicate IsNumberText(w: string) { w != "" && IsDigit(w[0]) && NumberEnd(w, 0) == |w| }

  ghost predicate IsWordText(w: string) {
    w != "" && IsWordStart(w[0]) && forall k :: 0 <= k < |w| ==> IsWordPart(w[k])
  }

  /** Lexemes that some source text can produce. */
  ghost predicate Lexable(l: Lexeme)
  {
    match l.kind
    case Num => IsNumberText(l.value)
    case Str => true
    case Word => IsWordText(l.value)
    case Op => l.value in OPERATORS
    case End => false
  }

  function Escape(text: string): string
  {
    if text == "" then ""
    else (if text[0] == '\'' || text[0] == '\\' then ['\\', text[0]] else [text[0]]) + Escape(text[1..])
  }

  function Spell(l: Lexeme): string
  {
    if l.kind == Str then "'" + Escape(l.value) + "'" else l.value
  }

  /** The lexemes spelled one after the other, a blank after each. */
  function Render(ls: seq<Lexeme>): string
  {
    if ls == [] then "" else Spell(ls[0]) + " " + Render(ls[1..])
  }

  function Lexemes(ts: seq<Token>): seq<Lexeme> { seq(|ts|, i requires 0 <= i < |ts| => ts[i].lexeme) }

  lemma DigitsStop(s: string, i: nat, e: nat)
    requires i <= e <= |s| && (forall k :: i <= k < e ==> IsDigit(s[k])) && (e < |s| ==> !IsDigit(s[e]))
    ensures DigitsEnd(s, i) == e
    decreases e - i
  {
    if i < e { DigitsStop(s, i + 1, e); }
  }

  lemma WordStop(s: string, i: nat, e: nat)
    requires i <= e <= |s| && (forall k :: i <= k < e ==> IsWordPart(s[k])) && (e < |s| ==> !IsWordPart(s[e]))
    ensures WordEnd(s, i) == e
    decreases e - i
  {
    if i < e { WordStop(s, i + 1, e); }
  }

  lemma {:induction false} QuotedSpells(s: string, i: nat, text: string)
    requires Starts(s, i, Escape(text) + "'")
    ensures Quoted(s, '\'', i) == (text, i + |Escape(text)|)
    decreases |text|
  {
    var w := Escape(text) + "'";
    if text == "" {
      assert s[i + 0] == w[0];
    } else {
      var d := if text[0] == '\'' || text[0] == '\\' then 2 else 1;
      var v := Escape(text[1..]) + "'";
      assert w == w[..d] + v;
      assert s[i + 0] == w[0] && s[i + (d - 1)] == w[d - 1] == text[0];
      forall k | 0 <= k < |v| ensures s[i + d + k] == v[k] {
        assert v[k] == w[d + k] == s[i + (d + k)];
      }
      QuotedSpells(s, i + d, text[1..]);
      assert text == [text[0]] + text[1..];
    }
  }

  lemma NumberSpells(s: string, i: nat, w: string)
    requires IsNumberText(w) && Starts(s, i, w + " ")
    ensures s[i] == w[0] && NumberEnd(s, i) == i + |w|
  {
    var e := i + |w|;
    var v := w + " ";
    assert s[i + 0] == v[0] && s[e] == v[|w|] == ' ';
    forall k | i <= k < e ensures s[k] == w[k - i] { assert s[i + (k - i)] == v[k - i]; }
    var d := DigitsEnd(w, 0);
    DigitsStop(s, i, i + d);
    if d < |w| {
      assert DigitsEnd(w, d + 1) == |w|;
      DigitsStop(s, i + d + 1, e);
    }
  }

  lemma {:induction false} FindOperatorAt(s: string, i: nat, k: nat, j: nat)
    requires k <= j < |OPERATORS| && Starts(s, i, OPERATORS[j])
    requires forall h :: 0 <= h < j ==> !Starts(s, i, OPERATORS[h])
    ensures FindOperator(s, i, k) == Some(OPERATORS[j])
    decreases j - k
  {
    if k < j { FindOperatorAt(s, i, k + 1, j); }
  }

  lemma OperatorSpells(s: string, i: nat, op: string)
    requires op in OPERATORS && Starts(s, i, op + " ")
    ensures FindOperator(s, i, 0) == Some(op)
    ensures |op| > 0 && s[i] == op[0]
  {
    var j :| 0 <= j < |OPERATORS| && OPERATORS[j] == op;
    var w := op + " ";
    forall k | 0 <= k < |op| ensures s[i + k] == op[k] { assert s[i + k] == w[k]; }
    forall h | 0 <= h < j ensures !Starts(s, i, OPERATORS[h]) {
      var other := OPERATORS[h];
      OperatorsDiffer(h, j);
      assert s[i + 0] == w[0] && s[i + 1] == w[1];
      assert other[0] != s[i + 0] || (|other| > 1 && other[1] != s[i + 1]);
    }
    assert s[i + 0] == op[0];
    FindOperatorAt(s, i, 0, j);
  }

  /** An operator listed earlier never starts the text "operator, blank". */
  lemma OperatorsDiffer(h: nat, j: nat)
    requires h < j < |OPERATORS|
    ensures OPERATORS[h] != "" && OPERATORS[j] != ""
    ensures OPERATORS[h][0] != OPERATORS[j][0]
         || (|OPERATORS[h]| > 1 &&
             (if |OPERATORS[j]| > 1 then OPERATORS[h][1] != OPERATORS[j][1] else OPERATORS[h][1] != ' '))
  {
  }

  /** A lexeme spelled at i and followed by a blank is scanned as itself. */
  lemma ScanSpelled(s: string, i: nat, l: Lexeme)
    requires Lexable(l) && Starts(s, i, Spell(l) + " ")
    ensures i < |s| && !IsSpace(s[i])
    ensures Scan(s, i) == Ok((Token(l, i), i + |Spell(l)|))
  {
    hide Scan, IsSpace, FindOperator;
    var w := Spell(l) + " ";
    assert s[i + 0] == w[0];
    forall k | i <= k < i + |Spell(l)| ensures s[k] == Spell(l)[k - i] { assert s[i + (k - i)] == w[k - i]; }
    assert s[i..i + |Spell(l)|] == Spell(l);
    match l.kind
    case Num => ScanNumber(s, i, l.value);
    case Str => ScanQuoted(s, i, l.value);
    case Word => ScanWord(s, i, l.value);
    case Op => ScanOperator(s, i, l.value);
  }

  lemma ScanNumber(s: string, i: nat, w: string)
    requires IsNumberText(w) && Starts(s, i, w + " ")
    ensures i < |s| && !IsSpace(s[i])
    ensures Scan(s, i) == Ok((Token(Lexeme(Num, w), i), i + |w|))
  {
    NumberSpells(s, i, w);
    forall k | i <= k < i + |w| ensures s[k] == w[k - i] { assert s[i + (k - i)] == (w + " ")[k - i]; }
    assert s[i..i + |w|] == w;
  }

  lemma ScanQuoted(s: string, i: nat, text: string)
    requires Starts(s, i, "'" + Escape(text) + "'" + " ")
    ensures i < |s| && !IsSpace(s[i])
    ensures Scan(s, i) == Ok((Token(Lexeme(Str, text), i), i + |Escape(text)| + 2))
  {
    var v := Escape(text) + "'";
    var w := "'" + Escape(text) + "'" + " ";
    assert s[i + 0] == w[0];
    forall k | 0 <= k < |v| ensures s[i + 1 + k] == v[k] { assert v[k] == w[k + 1] == s[i + (k + 1)]; }
    QuotedSpells(s, i + 1, text);
  }

  lemma ScanWord(s: string, i: nat, w: string)
    requires IsWordText(w) && Starts(s, i, w + " ")
    ensures i < |s| && !IsSpace(s[i])
    ensures Scan(s, i) == Ok((Token(Lexeme(Word, w), i), i + |w|))
  {
    var v := w + " ";
    assert s[i + 0] == v[0] && s[i + |w|] == v[|w|] == ' ';
    forall k | i <= k < i + |w| ensures s[k] == w[k - i] { assert s[i + (k - i)] == v[k - i]; }
    WordStop(s, i, i + |w|);
    assert s[i..i + |w|] == w;
  }

  lemma ScanOperator(s: string, i: nat, op: string)
    requires op in OPERATORS && Starts(s, i, op + " ")
    ensures i < |s| && !IsSpace(s[i])
    ensures Scan(s, i) == Ok((Token(Lexeme(Op, op), i), i + |op|))
  {
    hide FindOperator;
    OperatorSpells(s, i, op);
    OperatorStarts();
  }

  lemma OperatorStarts()
    ensures forall op :: op in OPERATORS ==> op != "" && OperatorStart(op[0])
  {
    forall op | op in OPERATORS ensures op != "" && OperatorStart(op[0]) {
      var k :| 0 <= k < |OPERATORS| && OPERATORS[k] == op;
    }
  }

  predicate OperatorStart(c: char) { !IsDigit(c) && !IsWordStart(c) && !IsSpace(c) && c != '\'' && c != '"' }

  /** Tokenizing a rendering gives back the rendered lexemes and nothing else. */
  lemma {:induction false} LexRendered(s: string, i: nat, ls: seq<Lexeme>)
    requires i <= |s| && s[i..] == Render(ls)
    requires forall k :: 0 <= k < |ls| ==> Lexable(ls[k])
    ensures LexFrom(s, i).Ok?
    ensures Lexemes(LexFrom(s, i).value) == ls + [Lexeme(End, "")]
    decreases |ls|
  {
    hide Scan, IsSpace, Spell, Lexable, FindOperator;
    if ls == [] {
      assert i == |s|;
    } else {
      var w := Spell(ls[0]) + " ";
      var next := i + |Spell(ls[0])|;
      StartsRendering(s, i, w, Render(ls[1..]));
      ScanSpelled(s, i, ls[0]);
      assert s[i + |Spell(ls[0])|] == w[|Spell(ls[0])|] == ' ';
      LexRendered(s, next + 1, ls[1..]);
      BlankIsSpace();
      LexemesCons(Token(ls[0], i), LexFrom(s, next + 1).value);
    }
  }

  lemma BlankIsSpace()
    ensures IsSpace(' ')
  {
  }

  lemma StartsRendering(s: string, i: nat, w: string, rest: string)
    requires i <= |s| && s[i..] == w + rest
    ensures Starts(s, i, w) && i + |w| <= |s| && s[i + |w|..] == rest
  {
    assert |s| - i == |w| + |rest|;
    forall k | 0 <= k < |w| ensures s[i + k] == w[k] { assert s[i + k] == s[i..][k]; }
    assert s[i + |w|..] == s[i..][|w|..] == rest;
  }

  lemma LexemesCons(t: Token, rest: seq<Token>)
    ensures Lexemes([t] + rest) == [t.lexeme] + Lexemes(rest)
  {
  }

  /** Every lexeme the tokenizer produces is one that text can spell. */
  lemma {:induction false} LexedLexable(s: string, i: nat)
    requires i <= |s| && LexFrom(s, i).Ok?
    ensures forall k :: 0 <= k < |LexFrom(s, i).value| - 1 ==> Lexable(LexFrom(s, i).value[k].lexeme)
    decreases |s| - i
  {
    if i == |s| {
    } else if IsSpace(s[i]) {
      LexedLexable(s, i + 1);
    } else {
      hide Scan, IsSpace, Lexable;
      ScannedLexable(s, i);
      LexedLexable(s, Scan(s, i).value.1);
    }
  }

  lemma ScannedLexable(s: string, i: nat)
    requires i < |s| && Scan(s, i).Ok?
    ensures Lexable(Scan(s, i).value.0.lexeme)
  {
    if IsDigit(s[i]) { ScannedNumber(s, i); }
  }

  lemma ScannedNumber(s: string, i: nat)
    requires i < |s| && IsDigit(s[i])
    ensures IsNumberText(s[i..NumberEnd(s, i)])
  {
    var e := NumberEnd(s, i);
    var w := s[i..e];
    var whole := DigitsEnd(s, i);
    DigitsStop(w, 0, whole - i);
    if whole < e { DigitsStop(w, whole - i + 1, e - i); }
  }
}
