/** Short sources, followed character by character: two paths under one dotted name, and the constant false. */
module Sources {
  import opened Syntax
  import Compiler
  import Evaluator
  import Grammar
  import Lexer
  import NonInterference
  import Numerals
  import Parser
  import Texts
  import Values

  const JOINED := "a.0.1"
  const SPACED := "a.0 .1"

  function Word(text: string, at: nat): Token { Token(Lexeme(Kind.Word, text), at) }

  function Digits(text: string, at: nat): Token { Token(Lexeme(Num, text), at) }

  function Dot(at: nat): Token { Token(Lexeme(Op, "."), at) }

  function Stop(at: nat): Token { Token(Lexeme(End, ""), at) }

  function JoinedTokens(): seq<Token> { [Word("a", 0), Dot(1), Digits("0.1", 2), Stop(5)] }

  function SpacedTokens(): seq<Token> { [Word("a", 0), Dot(1), Digits("0", 2), Dot(4), Digits("1", 5), Stop(6)] }

  // ---- tokens -------------------------------------------------------------------------------------------

  lemma DotScanned(s: string, i: nat)
    requires i < |s| && s[i] == '.'
    ensures Lexer.Scan(s, i) == Ok((Dot(i), i + 1)) && !Lexer.IsSpace(s[i])
  {
    hide Lexer.FindOperator;
    forall h | 0 <= h < 18 ensures !Lexer.Starts(s, i, Lexer.OPERATORS[h]) {
      var op := Lexer.OPERATORS[h];
      assert |op| > 0 && op[0] != '.' && s[i + 0] == '.';
    }
    assert Lexer.OPERATORS[18] == ".";
    Lexer.FindOperatorAt(s, i, 0, 18);
  }

  lemma Scanned(s: string, i: nat, token: Token, next: nat)
    requires i < |s| && !Lexer.IsSpace(s[i]) && Lexer.Scan(s, i) == Ok((token, next)) && next <= |s| &&
             Lexer.LexFrom(s, next).Ok?
    ensures Lexer.LexFrom(s, i) == Ok([token] + Lexer.LexFrom(s, next).value)
  {
    hide Lexer.Scan;
  }

  lemma LetterScanned(s: string)
    requires |s| > 1 && s[0] == 'a' && s[1] == '.'
    ensures Lexer.Scan(s, 0) == Ok((Word("a", 0), 1)) && !Lexer.IsSpace(s[0])
  {
    assert Lexer.WordEnd(s, 1) == 1;
    assert s[0..1] == "a";
  }

  lemma StopScanned(s: string)
    ensures Lexer.LexFrom(s, |s|) == Ok([Stop(|s|)])
  {
  }

  lemma NumberScanned(s: string, i: nat, text: string)
    requires i < |s| && Lexer.IsDigit(s[i]) && Lexer.NumberEnd(s, i) == i + |text| <= |s| && s[i..i + |text|] == text
    ensures Lexer.Scan(s, i) == Ok((Digits(text, i), i + |text|)) && !Lexer.IsSpace(s[i])
  {
    hide Lexer.NumberEnd;
  }

  lemma JoinedLexed()
    ensures Lexer.LexFrom(JOINED, 0) == Ok(JoinedTokens())
  {
    hide Lexer.Scan, Lexer.LexFrom, Lexer.IsSpace, Lexer.NumberEnd;
    var s := "a.0.1";
    assert Lexer.NumberEnd(s, 2) == 5 by { JoinedNumber(); }
    NumberScanned(s, 2, "0.1");
    StopScanned(s);
    Scanned(s, 2, Digits("0.1", 2), 5);
    DotScanned(s, 1);
    Scanned(s, 1, Dot(1), 2);
    LetterScanned(s);
    Scanned(s, 0, Word("a", 0), 1);
    assert [Word("a", 0)] + ([Dot(1)] + ([Digits("0.1", 2)] + [Stop(5)])) == JoinedTokens();
  }

  lemma JoinedNumber()
    ensures Lexer.NumberEnd("a.0.1", 2) == 5
  {
    var s := "a.0.1";
    assert Lexer.DigitsEnd(s, 5) == 5 && Lexer.DigitsEnd(s, 4) == 5 && Lexer.DigitsEnd(s, 3) == 3 &&
        Lexer.DigitsEnd(s, 2) == 3;
  }

  lemma SpacedLexed()
    ensures Lexer.LexFrom(SPACED, 0) == Ok(SpacedTokens())
  {
    hide Lexer.Scan, Lexer.LexFrom, Lexer.IsSpace, Lexer.NumberEnd;
    var s := "a.0 .1";
    assert Lexer.NumberEnd(s, 2) == 3 && Lexer.NumberEnd(s, 5) == 6 by { SpacedNumbers(); }
    NumberScanned(s, 5, "1");
    StopScanned(s);
    Scanned(s, 5, Digits("1", 5), 6);
    DotScanned(s, 4);
    Scanned(s, 4, Dot(4), 5);
    BlankSkipped(s, 3);
    NumberScanned(s, 2, "0");
    Scanned(s, 2, Digits("0", 2), 3);
    DotScanned(s, 1);
    Scanned(s, 1, Dot(1), 2);
    LetterScanned(s);
    Scanned(s, 0, Word("a", 0), 1);
    assert [Word("a", 0)] + ([Dot(1)] + ([Digits("0", 2)] + ([Dot(4)] + ([Digits("1", 5)] + [Stop(6)])))) ==
        SpacedTokens();
  }

  lemma SpacedNumbers()
    ensures Lexer.NumberEnd("a.0 .1", 2) == 3 && Lexer.NumberEnd("a.0 .1", 5) == 6
  {
    var s := "a.0 .1";
    assert Lexer.DigitsEnd(s, 3) == 3 && Lexer.DigitsEnd(s, 2) == 3 && Lexer.DigitsEnd(s, 6) == 6 &&
        Lexer.DigitsEnd(s, 5) == 6;
  }

  lemma BlankSkipped(s: string, i: nat)
    requires i < |s| && s[i] == ' '
    ensures Lexer.LexFrom(s, i) == Lexer.LexFrom(s, i + 1)
  {
  }

  // ---- trees --------------------------------------------------------------------------------------------

  /** A source that is one primary and does not start with an operator is that primary. */
  lemma PrimaryAlone(ts: seq<Token>, value: Node)
    requires Lexer.Ended(ts) && |ts| > 1 && Parser.PPrimary(ts, 0, 1) == Parser.Done(value, |ts| - 1)
    requires !Parser.IsOp(ts[0], "!") && !Parser.IsOp(ts[0], "-")
    ensures Parser.ParseTokens(ts) == Ok(value)
  {
    hide Parser.PPrimary;
    var last := |ts| - 1;
    assert Parser.PUnary(ts, 0, 1) == Parser.Done(value, last);
    assert Parser.ProductLoop(ts, last, 1, value) == Parser.Done(value, last);
    assert Parser.PProduct(ts, 0, 1) == Parser.Done(value, last);
    assert Parser.SumLoop(ts, last, 1, value) == Parser.Done(value, last);
    assert Parser.PSum(ts, 0, 1) == Parser.Done(value, last);
    assert Parser.PComparison(ts, 0, 1) == Parser.Done(value, last);
    assert Parser.PNot(ts, 0, 1) == Parser.Done(value, last);
    assert Parser.AndLoop(ts, last, 1, value) == Parser.Done(value, last);
    assert Parser.PAnd(ts, 0, 1) == Parser.Done(value, last);
    assert Parser.OrLoop(ts, last, 1, value) == Parser.Done(value, last);
  }

  lemma PathAlone(ts: seq<Token>, path: seq<string>)
    requires Lexer.Ended(ts) && |ts| > 1 && ts[0] == Word("a", 0) && !Parser.IsOp(ts[1], "(")
    requires Parser.PathLoop(ts, 1, ["a"]) == Parser.Done(Name(path), |ts| - 1)
    ensures Parser.ParseTokens(ts) == Ok(Name(path))
  {
    assert Parser.PPrimary(ts, 0, 1) == Parser.Done(Name(path), |ts| - 1) by { hide Parser.PathLoop; }
    PrimaryAlone(ts, Name(path));
  }

  lemma JoinedParsed()
    ensures Parser.ParseSource(JOINED) == Ok(Name(["a", "0.1"]))
  {
    var ts := JoinedTokens();
    JoinedLexed();
    assert Parser.PathLoop(ts, 3, ["a", "0.1"]) == Parser.Done(Name(["a", "0.1"]), 3);
    assert ["a"] + ["0.1"] == ["a", "0.1"];
    PathAlone(ts, ["a", "0.1"]);
  }

  lemma SpacedParsed()
    ensures Parser.ParseSource(SPACED) == Ok(Name(["a", "0", "1"]))
  {
    var ts := SpacedTokens();
    SpacedLexed();
    assert Parser.PathLoop(ts, 5, ["a", "0", "1"]) == Parser.Done(Name(["a", "0", "1"]), 5);
    assert ["a", "0"] + ["1"] == ["a", "0", "1"];
    assert Parser.PathLoop(ts, 3, ["a", "0"]) == Parser.Done(Name(["a", "0", "1"]), 5);
    assert ["a"] + ["0"] == ["a", "0"];
    PathAlone(ts, ["a", "0", "1"]);
  }

  // ---- numbers ------------------------------------------------------------------------------------------

  lemma NumberAlone(w: string)
    requires Lexer.IsNumberText(w)
    ensures Parser.ParseSource(w) == Ok(Lit(LNum(Parser.NumberValue(w))))
  {
    hide Lexer.Scan, Lexer.LexFrom, Lexer.IsSpace, Lexer.NumberEnd, Parser.NumberValue;
    var ts := [Digits(w, 0), Stop(|w|)];
    assert w[0..|w|] == w;
    NumberScanned(w, 0, w);
    StopScanned(w);
    Scanned(w, 0, Digits(w, 0), |w|);
    assert [Digits(w, 0)] + [Stop(|w|)] == ts;
    PrimaryAlone(ts, Lit(LNum(Parser.NumberValue(w))));
  }

  /** A source of digits is the number they stand for. */
  lemma WholeLiteral(w: string)
    requires Texts.AllDigits(w)
    ensures Parser.ParseSource(w) == Ok(Lit(LNum(Lexer.WholeValue(w) as real)))
  {
    hide Parser.ParseSource, Parser.NumberValue;
    Numerals.WholeNumeral(w);
    NumberAlone(w);
  }

  /** A source of digits, a point and digits is the number r for which r times ten for each digit after it is whole. */
  lemma PointLiteral(w: string, f: string) returns (r: real)
    requires Texts.AllDigits(w) && Texts.AllDigits(f)
    ensures Parser.ParseSource(w + "." + f) == Ok(Lit(LNum(r)))
    ensures r * Grammar.TenTo(|f|) as real == Lexer.WholeValue(w + f) as real
  {
    hide Parser.ParseSource, Parser.NumberValue, Lexer.WholeValue;
    Numerals.PointNumeral(w, f);
    NumberAlone(w + "." + f);
    r := Parser.NumberValue(w + "." + f);
  }

  // ---- main result --------------------------------------------------------------------------------------

  lemma OneName()
    ensures Compiler.DottedName(["a", "0.1"]) == Compiler.DottedName(["a", "0", "1"])
  {
    assert Compiler.DottedName(["a", "0.1"]) == "a" + "." + Compiler.DottedName(["0.1"]);
    assert ["a", "0", "1"][1..] == ["0", "1"] && ["0", "1"][1..] == ["1"] && ["a", "0.1"][1..] == ["0.1"];
    assert Compiler.DottedName(["0", "1"]) == "0" + "." + "1" == "0.1";
  }

  lemma PathCompiles(source: string, path: seq<string>)
    requires Parser.ParseSource(source) == Ok(Name(path)) && !Texts.IsBlankText(source) && |source| <= MAX_LENGTH
    ensures Compiler.CompileSource(source) ==
            Compiler.Good(Compiler.Compiled(source, {Compiler.DottedName(path)}, Name(path)))
  {
    hide Parser.ParseSource;
    assert Compiler.Names(Name(path)) == {Compiler.DottedName(path)} by {
      assert path in NonInterference.Paths(Name(path));
    }
  }

  /**
   * `a.0.1` reads the parts `a` and `0.1`, and `a.0 .1` the parts `a`, `0` and `1`; both compile, to different trees
   * and to the same set of names.
   */
  lemma NamesLoseParts()
    ensures Compiler.CompileSource(JOINED).Good? && Compiler.CompileSource(SPACED).Good?
    ensures Compiler.CompileSource(JOINED).expression.root == Name(["a", "0.1"])
    ensures Compiler.CompileSource(SPACED).expression.root == Name(["a", "0", "1"])
    ensures Compiler.CompileSource(JOINED).expression.names == Compiler.CompileSource(SPACED).expression.names
  {
    JoinedParsed();
    SpacedParsed();
    OneName();
    hide Compiler.CompileSource;
    assert JOINED[0] == 'a' && SPACED[0] == 'a';
    PathCompiles(JOINED, ["a", "0.1"]);
    PathCompiles(SPACED, ["a", "0", "1"]);
  }

  lemma FalseParsed()
    ensures Parser.ParseSource("false") == Ok(Lit(LBool(false)))
  {
    var s := "false";
    var ts := [Word("false", 0), Stop(5)];
    assert Lexer.Scan(s, 0) == Ok((Word("false", 0), 5)) && !Lexer.IsSpace(s[0]) by { FalseScanned(); }
    StopScanned(s);
    Scanned(s, 0, Word("false", 0), 5);
    assert [Word("false", 0)] + [Stop(5)] == ts;
    PrimaryAlone(ts, Lit(LBool(false)));
  }

  lemma FalseScanned()
    ensures Lexer.Scan("false", 0) == Ok((Word("false", 0), 5)) && !Lexer.IsSpace("false"[0])
  {
    var s := "false";
    assert Lexer.WordEnd(s, 5) == 5 && Lexer.WordEnd(s, 4) == 5 && Lexer.WordEnd(s, 3) == 5 && Lexer.WordEnd(s, 2) == 5;
    assert Lexer.WordEnd(s, 1) == 5;
    assert s[0..5] == s;
  }

  /** `false` compiles, and is false in every context. */
  lemma FalseIsFalse(h: Values.Heap, context: Values.Value, host: Evaluator.Host)
    ensures !Texts.IsBlankText("false") && Compiler.CompileSource("false").Good?
    ensures !Evaluator.IsTruthy(h, Evaluator.Run(Compiler.CompileSource("false").expression.root, h, context, host))
  {
    FalseParsed();
    assert "false"[0] == 'f';
    hide Parser.ParseSource;
  }
}
