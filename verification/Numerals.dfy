/** Which number a numeral of the language stands for, as the parser reads it digit by digit. */
module Numerals {
  import opened Syntax
  import Grammar
  import Lexer
  import Parser
  import Texts

  lemma WholeStep(w: string, c: char)
    ensures Lexer.WholeValue(w + [c]) == 10 * Lexer.WholeValue(w) + Lexer.WholeValue([c])
  {
    assert (w + [c])[..|w|] == w && [c][..0] == "";
  }

  lemma {:induction false} WholeOfTwo(w: string, f: string)
    ensures Lexer.WholeValue(w + f) == Lexer.WholeValue(w) * Grammar.TenTo(|f|) + Lexer.WholeValue(f)
    decreases |f|
  {
    hide Lexer.WholeValue;
    if f == "" {
      assert w + f == w && Lexer.WholeValue("") == 0 by { NoDigits(); }
    } else {
      var init, c := f[..|f| - 1], f[|f| - 1];
      WholeOfTwo(w, init);
      WholeStep(w + init, c);
      WholeStep(init, c);
      assert w + f == w + init + [c] && f == init + [c];
      Regrouped(Lexer.WholeValue(w), Grammar.TenTo(|init|), Lexer.WholeValue(init), Lexer.WholeValue([c]));
    }
  }

  lemma NoDigits()
    ensures Lexer.WholeValue("") == 0
  {
  }

  lemma Regrouped(a: int, n: int, b: int, d: int)
    ensures 10 * (a * n + b) + d == a * (10 * n) + (10 * b + d)
  {
  }

  lemma FractionStep(f: string)
    requires f != ""
    ensures Parser.FractionValue(f) == (Lexer.WholeValue([f[0]]) as real + Parser.FractionValue(f[1..])) / 10.0
  {
    assert [f[0]][..0] == "";
  }

  /** A number is these digits over a ten for each of them. */
  predicate Spreads(v: real, f: string) { v * Grammar.TenTo(|f|) as real == Lexer.WholeValue(f) as real }

  /** Reading a fraction digit by digit gives its digits over a power of ten. */
  lemma {:induction false} FractionMeans(f: string)
    ensures Spreads(Parser.FractionValue(f), f)
    decreases |f|
  {
    if f != "" {
      hide Spreads, Parser.FractionValue;
      FractionMeans(f[1..]);
      FractionStep(f);
      OneMoreDigit(Parser.FractionValue(f), Parser.FractionValue(f[1..]), f);
    }
  }

  lemma OneMoreDigit(v: real, rest: real, f: string)
    requires f != "" && Spreads(rest, f[1..]) && v == (Lexer.WholeValue([f[0]]) as real + rest) / 10.0
    ensures Spreads(v, f)
  {
    hide Lexer.WholeValue;
    WholeOfTwo([f[0]], f[1..]);
    assert f == [f[0]] + f[1..];
    Scaled(Lexer.WholeValue([f[0]]), rest, Grammar.TenTo(|f[1..]|));
    Chained(v, rest, f);
  }

  lemma Chained(v: real, rest: real, f: string)
    requires f != "" && v * (10 * Grammar.TenTo(|f[1..]|)) as real
      == (Lexer.WholeValue([f[0]]) * Grammar.TenTo(|f[1..]|)) as real + rest * Grammar.TenTo(|f[1..]|) as real
    requires rest * Grammar.TenTo(|f[1..]|) as real == Lexer.WholeValue(f[1..]) as real
    requires Lexer.WholeValue(f) == Lexer.WholeValue([f[0]]) * Grammar.TenTo(|f[1..]|) + Lexer.WholeValue(f[1..])
    ensures v * Grammar.TenTo(|f|) as real == Lexer.WholeValue(f) as real
  {
    hide Lexer.WholeValue;
    assert Grammar.TenTo(|f|) == 10 * Grammar.TenTo(|f[1..]|);
  }

  lemma Scaled(digit: nat, rest: real, n: nat)
    ensures (digit as real + rest) / 10.0 * (10 * n) as real == (digit * n) as real + rest * n as real
  {
    var x := (digit as real + rest) / 10.0;
    assert x * 10.0 == digit as real + rest;
    assert (10 * n) as real == 10.0 * n as real;
    assert x * (10.0 * n as real) == (x * 10.0) * n as real;
    assert (digit as real + rest) * n as real == digit as real * n as real + rest * n as real;
    Product(digit, n);
  }

  lemma Product(a: int, b: int)
    ensures (a * b) as real == a as real * b as real
  {
  }

  /** The number the parser makes of a numeral is the number the grammar says it stands for. */
  lemma NumberMeans(w: string)
    ensures Parser.NumberValue(w) == Grammar.DecimalValue(w)
  {
    hide Lexer.WholeValue, Parser.FractionValue, Grammar.TenTo;
    var whole := Lexer.DigitsEnd(w, 0);
    if whole == |w| {
      assert w[..whole] == w;
    } else {
      var f := w[whole + 1..];
      WholeOfTwo(w[..whole], f);
      FractionMeans(f);
      assert |f| == |w| - whole - 1;
      Divided(Lexer.WholeValue(w[..whole]), Parser.FractionValue(f), Grammar.TenTo(|f|), Lexer.WholeValue(f));
    }
  }

  lemma Divided(a: nat, b: real, n: nat, c: nat)
    requires n > 0 && b * n as real == c as real
    ensures (a * n + c) as real / n as real == a as real + b
  {
    Product(a, n);
    var x := a as real + b;
    assert x * n as real == a as real * n as real + b * n as real;
    Quotient(x, n as real, (a * n + c) as real);
  }

  lemma Quotient(x: real, n: real, y: real)
    requires n != 0.0 && x * n == y
    ensures y / n == x
  {
  }

  lemma {:induction false} RunOfDigits(w: string, rest: string, i: nat)
    requires i <= |w| && (forall k :: 0 <= k < |w| ==> Lexer.IsDigit(w[k])) && (rest != "" ==> !Lexer.IsDigit(rest[0]))
    ensures Lexer.DigitsEnd(w + rest, i) == |w|
    decreases |w| - i
  {
    if i < |w| { RunOfDigits(w, rest, i + 1); }
  }

  /** A numeral without a point stands for its digits. */
  lemma WholeNumeral(w: string)
    requires Texts.AllDigits(w)
    ensures Lexer.IsNumberText(w) && Parser.NumberValue(w) == Lexer.WholeValue(w) as real
  {
    RunOfDigits(w, "", 0);
    assert w + "" == w;
    NumberMeans(w);
  }

  /** A numeral with a point stands for its digits over a ten for each one after the point. */
  lemma PointNumeral(w: string, f: string)
    requires Texts.AllDigits(w) && Texts.AllDigits(f)
    ensures Lexer.IsNumberText(w + "." + f)
    ensures Parser.NumberValue(w + "." + f) * Grammar.TenTo(|f|) as real == Lexer.WholeValue(w + f) as real
  {
    hide Parser.NumberValue, Lexer.WholeValue, Grammar.TenTo, Grammar.DecimalValue;
    PointRead(w, f);
    NumberMeans(w + "." + f);
    Undone(Lexer.WholeValue(w + f), Grammar.TenTo(|f|), Parser.NumberValue(w + "." + f));
  }

  lemma PointRead(w: string, f: string)
    requires Texts.AllDigits(w) && Texts.AllDigits(f)
    ensures Lexer.IsNumberText(w + "." + f)
    ensures Grammar.DecimalValue(w + "." + f) == Lexer.WholeValue(w + f) as real / Grammar.TenTo(|f|) as real
  {
    hide Lexer.WholeValue, Grammar.TenTo;
    var s := w + "." + f;
    assert s == w + ("." + f);
    RunOfDigits(w, "." + f, 0);
    EndOfDigits(s, |w| + 1);
    assert s[..|w|] == w && s[|w| + 1..] == f;
  }

  lemma {:induction false} DigitsStopAt(s: string, i: nat, e: nat, digits: string)
    requires i <= e < |s| && digits == s[i..e] && !Lexer.IsDigit(s[e])
    requires forall k :: 0 <= k < |digits| ==> Lexer.IsDigit(digits[k])
    ensures Lexer.DigitsEnd(s, i) == e
    decreases e - i
  {
    if i < e {
      assert s[i] == digits[0] && digits[1..] == s[i + 1..e];
      DigitsStopAt(s, i + 1, e, digits[1..]);
    }
  }

  lemma {:induction false} EndOfDigits(s: string, i: nat)
    requires i <= |s| && forall k :: i <= k < |s| ==> Lexer.IsDigit(s[k])
    ensures Lexer.DigitsEnd(s, i) == |s|
    decreases |s| - i
  {
    if i < |s| { EndOfDigits(s, i + 1); }
  }

  lemma Undone(a: nat, n: nat, x: real)
    requires n != 0 && x == a as real / n as real
    ensures x * n as real == a as real
  {
  }
}
