/** How texts are quoted in cache keys, and what becomes of the parts of a key. */
module CacheMeaning {
  import opened Cache
  import opened Options
  import Lexer
  import Texts

  // ---- quoting --------------------------------------------------------------------------------

  function HexDigit(c: char): nat
  {
    if '0' <= c <= '9' then c as nat - '0' as nat else if 'a' <= c <= 'f' then c as nat - 'a' as nat + 10 else 0
  }

  /**
   * What follows a backslash in a JSON text, section 7 of RFC 8259: a letter for a character, or four digits of its
   * code.
   */
  function Escape(t: string): (r: (char, nat))
    requires t != ""
  {
    match t[0]
    case 'b' => (8 as char, 1)
    case 't' => (9 as char, 1)
    case 'n' => (10 as char, 1)
    case 'f' => (12 as char, 1)
    case 'r' => (13 as char, 1)
    case 'u' =>
      if |t| >= 5 && t[1] == '0' && t[2] == '0' then ((16 * HexDigit(t[3]) + HexDigit(t[4])) as char, 5) else (t[0], 1)
    case c => (c, 1)
  }

  /** The text that a JSON reader makes of what stands between quotes. */
  function Unescaped(t: string): string
    decreases |t|
  {
    if t == "" then ""
    else if t[0] == '\\' && |t| > 1 then
      var (c, n) := Escape(t[1..]);
      if n < |t| then [c] + Unescaped(t[n + 1..]) else [c]
    else [t[0]] + Unescaped(t[1..])
  }

  lemma OneUnescaped(c: char, rest: string)
    ensures Unescaped(Escaped(c) + rest) == [c] + Unescaped(rest)
  {
    var e := Escaped(c);
    if |e| == 1 {
      assert (e + rest)[0] == c && (e + rest)[1..] == rest;
    } else if |e| == 2 {
      assert (e + rest)[0] == '\\' && (e + rest)[1..] == [e[1]] + rest && (e + rest)[2..] == rest;
    } else {
      CodeUnescaped(c, rest);
    }
  }

  lemma CodeUnescaped(c: char, rest: string)
    requires |Escaped(c)| > 2
    ensures Unescaped(Escaped(c) + rest) == [c] + Unescaped(rest)
  {
    var e := Escaped(c);
    var n := c as nat;
    assert n < 32 && e == "\\u00" + [HEX[n / 16], HEX[n % 16]];
    HexRead(n / 16);
    HexRead(n % 16);
    var t := (e + rest)[1..];
    assert t == e[1..] + rest && t[0] == 'u' && t[1] == '0' && t[2] == '0' && t[3] == e[4] && t[4] == e[5];
    assert (e + rest)[6..] == rest;
  }

  lemma HexRead(n: nat)
    requires n < 16
    ensures HexDigit(HEX[n]) == n
  {
  }

  /** Quoting is undone by a JSON reader. */
  lemma {:induction false} QuotingUndone(s: string)
    ensures Unescaped(EscapedAll(s)) == s
    decreases |s|
  {
    if s != "" {
      QuotingUndone(s[1..]);
      hide Escaped, Unescaped;
      OneUnescaped(s[0], EscapedAll(s[1..]));
      assert s == [s[0]] + s[1..];
    }
  }

  /** Quoting changes no characters but quotes, backslashes and control characters. */
  lemma {:induction false} PlainQuoted(s: string)
    requires forall i :: 0 <= i < |s| ==> s[i] as nat >= 32 && s[i] != '\"' && s[i] != '\\'
    ensures EscapedAll(s) == s
    decreases |s|
  {
    if s != "" {
      PlainQuoted(s[1..]);
      assert s == [s[0]] + s[1..];
    }
  }

  // ---- parts of keys --------------------------------------------------------------------------

  /** Neither white space nor a colon in it. */
  predicate Plain(s: string) { forall i :: 0 <= i < |s| ==> !Lexer.IsSpace(s[i]) && s[i] != ':' }

  predicate Gap(s: string) { s != "" && forall i :: 0 <= i < |s| ==> Lexer.IsSpace(s[i]) || s[i] == ':' }

  /** Words with gaps between them; only the first and the last word may be empty. */
  predicate Spreads(words: seq<string>, gaps: seq<string>)
  {
    && |gaps| + 1 == |words| && (forall i :: 0 <= i < |words| ==> Plain(words[i]))
    && (forall i :: 0 <= i < |gaps| ==> Gap(gaps[i])) && forall i :: 0 < i < |gaps| ==> words[i] != ""
  }

  /** Words with a gap after each but the last. */
  function Spread(words: seq<string>, gaps: seq<string>): string
    requires |gaps| + 1 == |words|
  {
    if gaps == [] then words[0] else words[0] + gaps[0] + Spread(words[1..], gaps[1..])
  }

  lemma {:induction false} WordKept(s: string, rest: string)
    requires Plain(s)
    ensures Collapsed(s + rest) == s + Collapsed(rest)
    decreases |s|
  {
    if s == "" {
      assert s + rest == rest;
    } else {
      WordKept(s[1..], rest);
      assert (s + rest)[0] == s[0] && (s + rest)[1..] == s[1..] + rest && s == [s[0]] + s[1..];
    }
  }

  lemma {:induction false} GapCollapsed(s: string, rest: string)
    requires Gap(s) && (rest == "" || (!Lexer.IsSpace(rest[0]) && rest[0] != ':'))
    ensures Collapsed(s + rest) == "_" + Collapsed(rest)
    decreases |s|
  {
    assert (s + rest)[0] == s[0] && (s + rest)[1..] == s[1..] + rest;
    if |s| == 1 {
      assert s[1..] + rest == rest;
    } else {
      GapCollapsed(s[1..], rest);
      assert (s + rest)[1] == s[1];
    }
  }

  lemma {:induction false} SpreadCollapsed(words: seq<string>, gaps: seq<string>)
    requires Spreads(words, gaps)
    ensures Collapsed(Spread(words, gaps)) == Texts.Join(words, '_')
    ensures words[0] != "" ==> Spread(words, gaps) != "" && Spread(words, gaps)[0] == words[0][0]
    decreases |gaps|
  {
    hide Collapsed;
    if gaps == [] {
      WordKept(words[0], "");
      assert words[0] + "" == words[0] && Collapsed("") == "" by { NothingCollapsed(); }
    } else {
      var rest := Spread(words[1..], gaps[1..]);
      SpreadCollapsed(words[1..], gaps[1..]);
      assert Plain(words[1]) && words[1..][0] == words[1];
      GapCollapsed(gaps[0], rest);
      WordKept(words[0], gaps[0] + rest);
      assert words[0] + gaps[0] + rest == words[0] + (gaps[0] + rest);
      assert words[0] + ("_" + Texts.Join(words[1..], '_')) == words[0] + "_" + Texts.Join(words[1..], '_');
    }
  }

  lemma NothingCollapsed()
    ensures Collapsed("") == ""
  {
  }

  /** The text starts and ends with something else than white space, a colon of its first or last gap perhaps. */
  predicate Trimmed(words: seq<string>, gaps: seq<string>)
    requires Spreads(words, gaps)
  {
    if gaps == [] then words[0] != ""
    else
      var last := gaps[|gaps| - 1];
      (words[0] == "" ==> gaps[0][0] == ':') && (words[|gaps|] == "" ==> last[|last| - 1] == ':')
  }

  lemma {:induction false} SpreadEnds(words: seq<string>, gaps: seq<string>)
    requires Spreads(words, gaps)
    ensures var text, last := Spread(words, gaps), words[|gaps|];
      && (last != "" ==> text != "" && text[|text| - 1] == last[|last| - 1])
      && (last == "" && gaps != [] ==> text != "" && text[|text| - 1] == gaps[|gaps| - 1][|gaps[|gaps| - 1]| - 1])
    decreases |gaps|
  {
    if gaps != [] {
      SpreadEnds(words[1..], gaps[1..]);
      if |gaps| == 1 && words[1] == "" {
        assert Spread(words[1..], gaps[1..]) == "";
      }
    }
  }

  /**
   * The words of a part, whatever blanks and colons stand between them and whatever blanks around, are joined by
   * underscores; a colon at either end counts as one after an empty word.
   */
  lemma SanitizedExactly(before: string, words: seq<string>, gaps: seq<string>, after: string)
    requires Texts.IsBlankText(before) && Texts.IsBlankText(after) && Spreads(words, gaps) && Trimmed(words, gaps)
    ensures SanitizeKeyPart(Some(before + Spread(words, gaps) + after)) == Texts.Join(words, '_')
  {
    hide Collapsed, Texts.Trim;
    SpreadCollapsed(words, gaps);
    SpreadEnds(words, gaps);
    var text := Spread(words, gaps);
    assert text != "" && !Lexer.IsSpace(text[0]) && !Lexer.IsSpace(text[|text| - 1]);
    Texts.TrimExactly(before, text, after);
  }

  /** A part that is missing or blank stands as `na`. */
  lemma NothingSanitized(blank: string)
    requires Texts.IsBlankText(blank)
    ensures SanitizeKeyPart(None) == "na" && SanitizeKeyPart(Some(blank)) == "na"
  {
    NothingTrimmed(blank);
  }

  lemma {:induction false} NothingTrimmed(blank: string)
    requires Texts.IsBlankText(blank)
    ensures Texts.TrimStart(blank) == "" && Texts.Trim(blank) == ""
  {
    if blank != "" { NothingTrimmed(blank[1..]); }
  }
}
