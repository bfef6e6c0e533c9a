/** Which tokens a source is made of and where it cannot be read on, said of the characters of the source. */
module LexerMeaning {
  import opened Options
  import opened Syntax
  import opened Lexer
  import Texts

  // ---- what a stretch of the source says ------------------------------------------------------

  /** Digits, with a point and more digits perhaps. */
  predicate Numeral(w: string)
  {
    Texts.AllDigits(w) ||
        exists k :: 0 < k < |w| && Texts.AllDigits(w[..k]) && w[k] == '.' && Texts.AllDigits(w[k + 1..])
  }

  predicate Name(w: string)
  {
    w != "" && !IsDigit(w[0]) && forall k :: 0 <= k < |w| ==> IsWordStart(w[k]) || IsDigit(w[k])
  }

  predicate Operator(w: string)
  {
    w in ["!", "!=", "&&", "(", ")", "*", "+", ",", "-", ".", "/", "<", "<=", "==", ">", ">=", "[", "]", "||"]
  }

  predicate Fits(kind: Kind, w: string)
  {
    match kind case Num => Numeral(w) case Word => Name(w) case Op => Operator(w) case _ => false
  }

  /** One character between quotes: itself, or any character after a backslash. */
  predicate Piece(p: string, quote: char) {
    if |p| == 1 then p[0] != quote && p[0] != '\\' else |p| == 2 && p[0] == '\\'
  }

  ghost predicate Pieces(pieces: seq<string>, quote: char) { forall k :: 0 <= k < |pieces| ==> Piece(pieces[k], quote) }

  function Together(pieces: seq<string>): string { if pieces == [] then "" else pieces[0] + Together(pieces[1..]) }

  function Lasts(pieces: seq<string>): string
  {
    if pieces == [] then "" else (if pieces[0] == "" then "" else [pieces[0][|pieces[0]| - 1]]) + Lasts(pieces[1..])
  }

  ghost predicate QuotedText(w: string, text: string)
  {
    exists quote, pieces :: (quote == '\'' || quote == '"') && Pieces(pieces, quote) &&
        w == [quote] + Together(pieces) + [quote] && text == Lasts(pieces)
  }

  /** A lexeme stands there: a quoted text, or the longest stretch that makes a number, a word or an operator. */
  ghost predicate Stands(s: string, i: nat, e: nat, l: Lexeme)
  {
    i < e <= |s| &&
    if l.kind == Str then QuotedText(s[i..e], l.value)
    else l.value == s[i..e] && Fits(l.kind, s[i..e]) && forall more :: e < more <= |s| ==> !Fits(l.kind, s[i..more])
  }

  predicate Blank(s: string, i: nat, e: nat) { i <= e <= |s| && forall k :: i <= k < e ==> IsSpace(s[k]) }

  function Before(from: nat, ends: seq<nat>, k: nat): nat
    requires k <= |ends|
  {
    if k == 0 then from else ends[k - 1]
  }

  /** The tokens stand in the source one after the other up to there, with nothing but blanks between. */
  ghost predicate Laid(s: string, from: nat, ts: seq<Token>, ends: seq<nat>, to: nat)
  {
    && |ts| == |ends| && Blank(s, Before(from, ends, |ts|), to)
    && forall k :: 0 <= k < |ts| ==>
         Blank(s, Before(from, ends, k), ts[k].position) && Stands(s, ts[k].position, ends[k], ts[k].lexeme)
  }

  // ---- numbers and words ----------------------------------------------------------------------

  lemma NumberStands(s: string, i: nat)
    requires i < |s| && IsDigit(s[i])
    ensures Stands(s, i, NumberEnd(s, i), Lexeme(Num, s[i..NumberEnd(s, i)]))
  {
    var whole, e := DigitsEnd(s, i), NumberEnd(s, i);
    var w := s[i..e];
    if e == whole {
      assert Texts.AllDigits(w);
    } else {
      assert Texts.AllDigits(w[..whole - i]) && w[whole - i] == '.' && Texts.AllDigits(w[whole - i + 1..]);
    }
    forall more | e < more <= |s| ensures !Numeral(s[i..more]) { NoLongerNumeral(s, i, more); }
  }

  lemma NoLongerNumeral(s: string, i: nat, more: nat)
    requires i < |s| && IsDigit(s[i]) && NumberEnd(s, i) < more <= |s|
    ensures !Numeral(s[i..more])
  {
    var whole, e, w := DigitsEnd(s, i), NumberEnd(s, i), s[i..more];
    assert w[whole - i] == s[whole] && !IsDigit(s[whole]);
    if k :| 0 < k < |w| && Texts.AllDigits(w[..k]) && w[k] == '.' && Texts.AllDigits(w[k + 1..]) {
      PointAt(s, i, more, k);
      assert false;
    }
  }

  lemma PointAt(s: string, i: nat, more: nat, k: nat)
    requires i < more <= |s| && 0 < k < more - i && Texts.AllDigits(s[i..more][..k]) && s[i + k] == '.'
    requires Texts.AllDigits(s[i..more][k + 1..])
    ensures i + k == DigitsEnd(s, i) && i + k + 1 < more && forall j :: i + k < j < more ==> IsDigit(s[j])
  {
    var w := s[i..more];
    forall j | i <= j < i + k ensures IsDigit(s[j]) { assert w[..k][j - i] == s[j]; }
    forall j | i + k < j < more ensures IsDigit(s[j]) { assert w[k + 1..][j - i - k - 1] == s[j]; }
    DigitsStop(s, i, i + k);
  }

  lemma WordStands(s: string, i: nat)
    requires i < |s| && IsWordStart(s[i])
    ensures Stands(s, i, WordEnd(s, i), Lexeme(Word, s[i..WordEnd(s, i)]))
  {
    var e := WordEnd(s, i);
    forall more | e < more <= |s| ensures !Name(s[i..more]) { assert s[i..more][e - i] == s[e]; }
  }

  // ---- operators ------------------------------------------------------------------------------

  function InTable(k: nat): string
    requires k < |OPERATORS|
  {
    OPERATORS[k]
  }

  predicate Misses(s: string, i: nat, k: nat)
    requires k < |OPERATORS|
  {
    !Starts(s, i, InTable(k))
  }

  lemma NextOperator(s: string, i: nat, k: nat)
    requires k <= |OPERATORS|
    ensures FindOperator(s, i, k) ==
            if k == |OPERATORS| then None
            else if Misses(s, i, k) then FindOperator(s, i, k + 1) else Some(InTable(k))
  {
  }

  lemma {:induction false} FirstOperator(s: string, i: nat, k: nat) returns (j: nat)
    requires k <= |OPERATORS|
    ensures k <= j <= |OPERATORS| && forall before :: k <= before < j ==> Misses(s, i, before)
    ensures FindOperator(s, i, k) == if j < |OPERATORS| then Some(InTable(j)) else None
    decreases |OPERATORS| - k
  {
    hide Misses, FindOperator, InTable;
    NextOperator(s, i, k);
    if k < |OPERATORS| && Misses(s, i, k) { j := FirstOperator(s, i, k + 1); } else { j := k; }
  }

  lemma Listed(w: string)
    ensures Operator(w) <==> exists j :: 0 <= j < |OPERATORS| && OPERATORS[j] == w
  {
    assert Operator(w) <==> w in OPERATORS;
  }

  lemma TwoFirst(j: nat)
    requires j < |OPERATORS|
    ensures |OPERATORS[j]| == if j < 6 then 2 else 1
  {
  }

  lemma StartsSlice(s: string, i: nat, w: string)
    ensures Starts(s, i, w) <==> i + |w| <= |s| && s[i..i + |w|] == w
  {
    if i + |w| <= |s| && Starts(s, i, w) { assert s[i..i + |w|] == w; }
  }

  lemma NoneStarts(s: string, i: nat, e: nat, before: nat)
    requires i < e <= |s| && before <= |OPERATORS|
    requires forall j :: 0 <= j < before ==> Misses(s, i, j)
    requires if e - i == 1 then before == |OPERATORS| else e - i == 2 ==> before >= 6
    ensures !Operator(s[i..e])
  {
    hide Operator, Starts;
    Listed(s[i..e]);
    forall j | 0 <= j < |OPERATORS| ensures OPERATORS[j] != s[i..e] {
      TwoFirst(j);
      StartsSlice(s, i, OPERATORS[j]);
      if j < before { assert Misses(s, i, j); }
    }
  }

  lemma OperatorStands(s: string, i: nat)
    requires i < |s|
    ensures var op := FindOperator(s, i, 0);
      if op.Some? then Stands(s, i, i + |op.value|, Lexeme(Op, op.value))
      else forall e :: i < e <= |s| ==> !Operator(s[i..e])
  {
    hide Operator, FindOperator, Starts, Misses;
    var j := FirstOperator(s, i, 0);
    var op := FindOperator(s, i, 0);
    if op.Some? {
      Listed(op.value);
      TwoFirst(j);
      StartsSlice(s, i, op.value);
      forall more | i + |op.value| < more <= |s| ensures !Operator(s[i..more]) { NoneStarts(s, i, more, j); }
    } else {
      forall e | i < e <= |s| ensures !Operator(s[i..e]) { NoneStarts(s, i, e, |OPERATORS|); }
    }
  }

  // ---- quoted texts ---------------------------------------------------------------------------

  lemma {:induction false} InPieces(s: string, quote: char, i: nat) returns (pieces: seq<string>)
    requires i <= |s| && Quoted(s, quote, i).1 < |s|
    ensures Pieces(pieces, quote) && s[i..Quoted(s, quote, i).1] == Together(pieces)
    ensures Quoted(s, quote, i).0 == Lasts(pieces)
    decreases |s| - i
  {
    if s[i] == quote {
      pieces := [];
    } else {
      var at := if s[i] == '\\' && i + 1 < |s| then i + 1 else i;
      var rest := InPieces(s, quote, at + 1);
      pieces := [s[i..at + 1]] + rest;
      assert pieces[1..] == rest;
      assert s[i..Quoted(s, quote, i).1] == s[i..at + 1] + s[at + 1..Quoted(s, quote, at + 1).1];
    }
  }

  lemma {:induction false} PiecesQuoted(s: string, quote: char, i: nat, pieces: seq<string>)
    requires quote != '\\' && Pieces(pieces, quote) && i + |Together(pieces)| < |s|
    requires s[i..i + |Together(pieces)|] == Together(pieces) && s[i + |Together(pieces)|] == quote
    ensures Quoted(s, quote, i) == (Lasts(pieces), i + |Together(pieces)|)
    decreases |pieces|
  {
    if pieces != [] {
      var p, rest := pieces[0], Together(pieces[1..]);
      assert Piece(p, quote);
      var t := s[i..i + |Together(pieces)|];
      assert t[..|p|] == p && t[|p|..] == rest && t[0] == s[i] && t[|p| - 1] == s[i + |p| - 1];
      assert s[i + |p|..i + |p| + |rest|] == t[|p|..];
      PiecesQuoted(s, quote, i + |p|, pieces[1..]);
    }
  }

  lemma TextIsQuoted(s: string, i: nat)
    requires i < |s| && (s[i] == '\'' || s[i] == '"') && Quoted(s, s[i], i + 1).1 < |s|
    ensures QuotedText(s[i..Quoted(s, s[i], i + 1).1 + 1], Quoted(s, s[i], i + 1).0)
  {
    var (text, e) := Quoted(s, s[i], i + 1);
    var pieces := InPieces(s, s[i], i + 1);
    hide Quoted, Pieces, Together, Lasts, QuotedText;
    Around(s, i, e);
    QuotedSo(s[i..e + 1], text, s[i], pieces);
  }

  lemma QuotedSo(w: string, text: string, quote: char, pieces: seq<string>)
    requires (quote == '\'' || quote == '"') && Pieces(pieces, quote)
    requires w == [quote] + Together(pieces) + [quote] && text == Lasts(pieces)
    ensures QuotedText(w, text)
  {
  }

  lemma Around(s: string, i: nat, e: nat)
    requires i < e < |s|
    ensures s[i..e + 1] == [s[i]] + s[i + 1..e] + [s[e]]
  {
  }

  lemma TextStands(s: string, i: nat)
    requires i < |s| && (s[i] == '\'' || s[i] == '"')
    ensures var (text, e) := Quoted(s, s[i], i + 1); e < |s| ==> Stands(s, i, e + 1, Lexeme(Str, text))
  {
    if Quoted(s, s[i], i + 1).1 < |s| { TextIsQuoted(s, i); }
    hide Quoted, QuotedText, Fits;
  }

  lemma OnlyText(s: string, i: nat, e: nat, text: string)
    requires i < e <= |s| && QuotedText(s[i..e], text)
    ensures (s[i] == '\'' || s[i] == '"') && e - 1 > i && Quoted(s, s[i], i + 1) == (text, e - 1)
  {
    hide Quoted, Pieces;
    var w := s[i..e];
    var quote, pieces :| (quote == '\'' || quote == '"') && Pieces(pieces, quote) &&
      w == [quote] + Together(pieces) + [quote] && text == Lasts(pieces);
    assert w[0] == s[i] && w[|w| - 1] == s[e - 1];
    assert |w| == |Together(pieces)| + 2 && w[1..|w| - 1] == Together(pieces);
    Inner(s, i, e);
    PiecesQuoted(s, quote, i + 1, pieces);
  }

  lemma Inner(s: string, i: nat, e: nat)
    requires i + 2 <= e <= |s|
    ensures s[i..e][1..e - i - 1] == s[i + 1..e - 1]
  {
    var a, b := s[i..e][1..e - i - 1], s[i + 1..e - 1];
    assert |a| == |b| && forall k :: 0 <= k < |a| ==> a[k] == b[k];
  }

  // ---- one token ------------------------------------------------------------------------------

  /** What the scan finds is what stands there, and nothing else does. */
  lemma ScanExactly(s: string, i: nat, l: Lexeme, e: nat)
    requires i < |s|
    ensures Scan(s, i) == Ok((Token(l, i), e)) <==> Stands(s, i, e, l)
  {
    Found(s, i);
    if Stands(s, i, e, l) {
      assert s[i..e][0] == s[i];
      match l.kind
      case Num => OneEnd(s, i, e, l);
      case Word => OneEnd(s, i, e, l);
      case Op => OneEnd(s, i, e, l);
      case Str => OnlyText(s, i, e, l.value);
      case End =>
    }
  }

  lemma Found(s: string, i: nat)
    requires i < |s|
    ensures match Scan(s, i)
            case Ok((token, next)) => Stands(s, i, next, token.lexeme)
            case Err(e) => e == ExpressionError(if s[i] in "'\"" then MissingQuote else UnexpectedCharacter(s[i]), i)
  {
    hide Stands, FindOperator;
    if IsDigit(s[i]) {
      NumberStands(s, i);
    } else if s[i] == '\'' || s[i] == '"' {
      TextStands(s, i);
    } else if IsWordStart(s[i]) {
      WordStands(s, i);
    } else {
      OperatorStands(s, i);
    }
  }

  /** The first character tells which kind can stand there, and there is one longest stretch of a kind. */
  lemma OneEnd(s: string, i: nat, e: nat, l: Lexeme)
    requires Stands(s, i, e, l) && l.kind != Str
    ensures Scan(s, i) == Ok((Token(l, i), e))
  {
    hide FindOperator, Numeral, Name, Operator;
    Found(s, i);
    FirstCharacter(l.kind, s[i..e]);
    OperatorStands(s, i);
    match Scan(s, i)
    case Ok((token, next)) =>
      assert token.lexeme.kind == l.kind;
      assert Fits(l.kind, s[i..next]) && Fits(l.kind, s[i..e]);
    case Err(_) =>
  }

  lemma FirstCharacter(kind: Kind, w: string)
    requires Fits(kind, w)
    ensures w != ""
    ensures match kind
            case Num => IsDigit(w[0])
            case Word => IsWordStart(w[0])
            case _ => !IsDigit(w[0]) && !IsWordStart(w[0]) && w[0] != '\'' && w[0] != '"'
  {
  }

  // ---- the whole source -----------------------------------------------------------------------

  lemma {:induction false} BlanksSkipped(s: string, i: nat, e: nat)
    requires Blank(s, i, e)
    ensures LexFrom(s, i) == LexFrom(s, e)
    decreases e - i
  {
    hide LexFrom, IsSpace;
    if i < e {
      SkipBlank(s, i);
      BlanksSkipped(s, i + 1, e);
    }
  }

  /** No lexeme starts with a blank. */
  lemma NotBlank(s: string, i: nat, e: nat, l: Lexeme)
    requires Stands(s, i, e, l)
    ensures !IsSpace(s[i])
  {
    ScanExactly(s, i, l, e);
    hide Stands;
    if IsSpace(s[i]) { NoOperatorIsBlank(s, i); }
  }

  lemma NoOperatorIsBlank(s: string, i: nat)
    requires i < |s| && IsSpace(s[i])
    ensures Scan(s, i).Err?
  {
    forall op | op in OPERATORS ensures op != "" && !IsSpace(op[0]) { OperatorInk(op); }
    hide IsSpace, IsDigit, IsWordStart;
    BlankIsNothing(s[i]);
  }

  lemma OperatorInk(op: string)
    requires op in OPERATORS
    ensures op != "" && !IsSpace(op[0])
  {
  }

  lemma BlankIsNothing(c: char)
    requires IsSpace(c)
    ensures !IsDigit(c) && !IsWordStart(c) && c != '\'' && c != '"'
  {
  }

  lemma OneTaken(s: string, i: nat, e: nat, l: Lexeme)
    requires Stands(s, i, e, l)
    ensures LexFrom(s, i) == Prepend([Token(l, i)], LexFrom(s, e))
  {
    ScanExactly(s, i, l, e);
    NotBlank(s, i, e, l);
    hide Scan, Stands;
  }

  /** Tokens laid out from some place on are the first tokens found from there. */
  lemma {:induction false} LaidTaken(s: string, from: nat, ts: seq<Token>, ends: seq<nat>, to: nat)
    requires from <= |s| && Laid(s, from, ts, ends, to)
    ensures LexFrom(s, from) == Prepend(ts, LexFrom(s, to))
    decreases |ts|
  {
    hide Stands, LexFrom;
    if ts == [] {
      BlanksSkipped(s, from, to);
      PrependNothing(LexFrom(s, to));
    } else {
      var rest := ts[1..];
      assert Laid(s, ends[0], rest, ends[1..], to) by {
        assert Before(ends[0], ends[1..], |rest|) == Before(from, ends, |ts|);
        forall k | 0 <= k < |rest|
          ensures Blank(s, Before(ends[0], ends[1..], k), rest[k].position)
          ensures Stands(s, rest[k].position, ends[1..][k], rest[k].lexeme)
        {
          assert rest[k] == ts[k + 1] && ends[1..][k] == ends[k + 1];
          assert Before(ends[0], ends[1..], k) == Before(from, ends, k + 1);
        }
      }
      BlanksSkipped(s, from, ts[0].position);
      assert Stands(s, ts[0].position, ends[0], ts[0].lexeme);
      assert ends[0] <= |s| by {
        assert Blank(s, Before(ends[0], ends[1..], |rest|), to);
        EndInside(s, ts[0], ends[0]);
      }
      OneTaken(s, ts[0].position, ends[0], ts[0].lexeme);
      LaidTaken(s, ends[0], rest, ends[1..], to);
      assert [ts[0]] + rest == ts;
      PrependAll([ts[0]], rest, LexFrom(s, to));
    }
  }

  lemma EndInside(s: string, t: Token, e: nat)
    requires Stands(s, t.position, e, t.lexeme)
    ensures t.position < e <= |s|
  {
  }

  lemma PrependAll(a: seq<Token>, b: seq<Token>, r: Result<seq<Token>>)
    ensures Prepend(a, Prepend(b, r)) == Prepend(a + b, r)
  {
    if r.Ok? { assert a + (b + r.value) == a + b + r.value; }
  }

  /** From any place on there are tokens laid out up to the end or to a place where no lexeme stands. */
  lemma {:induction false} SomeLaid(s: string, from: nat) returns (ts: seq<Token>, ends: seq<nat>, to: nat)
    requires from <= |s|
    ensures Laid(s, from, ts, ends, to) && to <= |s| && (to < |s| ==> !IsSpace(s[to]) && Scan(s, to).Err?)
    decreases |s| - from
  {
    hide Scan, Stands;
    if from < |s| && IsSpace(s[from]) {
      ts, ends, to := SomeLaid(s, from + 1);
      if ts == [] { assert Before(from, ends, 0) == from; }
    } else if from == |s| || Scan(s, from).Err? {
      ts, ends, to := [], [], from;
    } else {
      var (token, next) := Scan(s, from).value;
      ScanExactly(s, from, token.lexeme, next);
      var rest, others, end := SomeLaid(s, next);
      ts, ends, to := [token] + rest, [next] + others, end;
      LaidOn(s, from, token, next, rest, others, to);
    }
  }

  lemma LaidOn(s: string, from: nat, t: Token, e: nat, rest: seq<Token>, others: seq<nat>, to: nat)
    requires Blank(s, from, t.position) && Stands(s, t.position, e, t.lexeme) && Laid(s, e, rest, others, to)
    ensures Laid(s, from, [t] + rest, [e] + others, to)
  {
    hide Stands;
    var ts, ends := [t] + rest, [e] + others;
    assert Before(from, ends, |ts|) == Before(e, others, |rest|);
    forall k | 0 <= k < |ts|
      ensures Blank(s, Before(from, ends, k), ts[k].position) && Stands(s, ts[k].position, ends[k], ts[k].lexeme)
    {
      if k > 0 { assert Before(from, ends, k) == Before(e, others, k - 1) && ts[k] == rest[k - 1]; }
    }
  }

  /** The source is tokenized as the tokens that lie in it from its start to its end. */
  lemma TokenizedExactly(s: string, ts: seq<Token>)
    ensures LexFrom(s, 0) == Ok(ts + [Token(Lexeme(End, ""), |s|)]) <==> exists ends :: Laid(s, 0, ts, ends, |s|)
  {
    hide Laid, LexFrom;
    var found, ends, to := SomeLaid(s, 0);
    LaidTaken(s, 0, found, ends, to);
    SourceEnds(s);
    var last := [Token(Lexeme(End, ""), |s|)];
    if LexFrom(s, 0) == Ok(ts + last) {
      if to < |s| { Refused(s, to); }
      assert LexFrom(s, 0) == Ok(found + last);
      assert ts == (ts + last)[..|ts + last| - 1] == (found + last)[..|found + last| - 1] == found;
    }
    if other :| Laid(s, 0, ts, other, |s|) { LaidTaken(s, 0, ts, other, |s|); }
  }

  lemma Refused(s: string, i: nat)
    requires i < |s| && !IsSpace(s[i]) && Scan(s, i).Err?
    ensures LexFrom(s, i) == Err(Scan(s, i).error)
  {
  }

  /** The source can be read up to there, where a character stands with which no lexeme starts. */
  ghost predicate Stuck(s: string, e: ExpressionError)
  {
    && e.position < |s| && !IsSpace(s[e.position])
    && e.problem == (if s[e.position] in "'\"" then MissingQuote else UnexpectedCharacter(s[e.position]))
    && (forall l, next: nat :: !Stands(s, e.position, next, l))
    && exists ts, ends :: Laid(s, 0, ts, ends, e.position)
  }

  /** The source is refused at the first character at which it cannot be read on. */
  lemma RefusedExactly(s: string, e: ExpressionError)
    ensures LexFrom(s, 0) == Err(e) <==> Stuck(s, e)
  {
    hide Laid, LexFrom, Stands, Scan;
    if Stuck(s, e) {
      var ts, ends :| Laid(s, 0, ts, ends, e.position);
      LaidTaken(s, 0, ts, ends, e.position);
      NothingFound(s, e.position);
      Refused(s, e.position);
    }
    if LexFrom(s, 0) == Err(e) {
      var found, ends, to := SomeLaid(s, 0);
      LaidTaken(s, 0, found, ends, to);
      SourceEnds(s);
      assert to < |s|;
      Refused(s, to);
      NothingFound(s, to);
      assert Laid(s, 0, found, ends, e.position);
    }
  }

  lemma NothingFound(s: string, i: nat)
    requires i < |s|
    ensures Scan(s, i).Err? <==> forall l, next: nat :: !Stands(s, i, next, l)
    ensures Scan(s, i).Err? ==>
      Scan(s, i).error == ExpressionError(if s[i] in "'\"" then MissingQuote else UnexpectedCharacter(s[i]), i)
  {
    Found(s, i);
    forall l, next: nat ensures Scan(s, i) == Ok((Token(l, i), next)) <==> next <= |s| && Stands(s, i, next, l) {
      ScanExactly(s, i, l, next);
    }
    if Scan(s, i).Ok? { assert Stands(s, i, Scan(s, i).value.1, Scan(s, i).value.0.lexeme); }
    hide Scan, Stands;
  }
}
