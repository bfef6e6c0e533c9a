/** Text operations the modules share. */
module Texts {
  import Lexer

  function Lower(c: char): char { if 'A' <= c <= 'Z' then c - 'A' + 'a' else c }

  function LowerAll(s: string): string { seq(|s|, i requires 0 <= i < |s| => Lower(s[i])) }

  function Upper(c: char): char { if 'a' <= c <= 'z' then c - 'a' + 'A' else c }

  function UpperAll(s: string): string { seq(|s|, i requires 0 <= i < |s| => Upper(s[i])) }

  /** The letters of the alphabet in both cases, place by place; nothing else changes. */
  lemma CasesExactly(c: char)
    ensures 'A' <= c <= 'Z' ==>
      'a' <= Lower(c) <= 'z' && Lower(c) as nat - 'a' as nat == c as nat - 'A' as nat &&
          Upper(Lower(c)) == c == Upper(c)
    ensures 'a' <= c <= 'z' ==>
      'A' <= Upper(c) <= 'Z' && Upper(c) as nat - 'A' as nat == c as nat - 'a' as nat &&
          Lower(Upper(c)) == c == Lower(c)
    ensures !('A' <= c <= 'Z') && !('a' <= c <= 'z') ==> Lower(c) == c == Upper(c)
  {
  }

  function TrimStart(s: string): string { if s != "" && Lexer.IsSpace(s[0]) then TrimStart(s[1..]) else s }

  function TrimEnd(s: string): string { if s != "" && Lexer.IsSpace(s[|s| - 1]) then TrimEnd(s[..|s| - 1]) else s }

  function Trim(s: string): string { TrimEnd(TrimStart(s)) }

  predicate IsBlankText(s: string) { forall k :: 0 <= k < |s| ==> Lexer.IsSpace(s[k]) }

  predicate AllDigits(s: string) { s != "" && forall i :: 0 <= i < |s| ==> Lexer.IsDigit(s[i]) }

  /** Trimming takes away exactly the blanks around a text. */
  lemma TrimExactly(before: string, s: string, after: string)
    requires IsBlankText(before) && IsBlankText(after) && s != "" && !Lexer.IsSpace(s[0]) && !Lexer.IsSpace(s[|s| - 1])
    ensures Trim(before + s + after) == s
  {
    TrimStartExactly(before, s + after);
    assert before + s + after == before + (s + after);
    TrimEndExactly(s, after);
  }

  lemma {:induction false} TrimStartExactly(before: string, s: string)
    requires IsBlankText(before) && s != "" && !Lexer.IsSpace(s[0])
    ensures TrimStart(before + s) == s
  {
    if before == "" {
      assert before + s == s;
    } else {
      assert (before + s)[1..] == before[1..] + s;
      TrimStartExactly(before[1..], s);
    }
  }

  lemma {:induction false} TrimEndExactly(s: string, after: string)
    requires IsBlankText(after) && s != "" && !Lexer.IsSpace(s[|s| - 1])
    ensures TrimEnd(s + after) == s
  {
    if after == "" {
      assert s + after == s;
    } else {
      assert (s + after)[..|s + after| - 1] == s + after[..|after| - 1];
      TrimEndExactly(s, after[..|after| - 1]);
    }
  }

  /** The parts with the separator between each two. */
  function Join(parts: seq<string>, separator: char): string
  {
    if parts == [] then "" else if |parts| == 1 then parts[0] else parts[0] + [separator] + Join(parts[1..], separator)
  }

  /** Splitting a text at every separator. */
  function Split(s: string, separator: char): (r: seq<string>)
    ensures r != []
  {
    if s == "" then [""]
    else if s[0] == separator then [""] + Split(s[1..], separator)
    else var r := Split(s[1..], separator); [[s[0]] + r[0]] + r[1..]
  }

  predicate Lacks(s: string, c: char) { forall k :: 0 <= k < |s| ==> s[k] != c }

  lemma {:induction false} SplitPrefix(s: string, t: string, c: char)
    requires Lacks(s, c)
    ensures Split(s + [c] + t, c) == [s] + Split(t, c) && Split(s, c) == [s]
    decreases |s|
  {
    if s == "" {
      assert "" + [c] + t == [c] + t;
      assert ([c] + t)[1..] == t;
    } else {
      SplitPrefix(s[1..], t, c);
      assert (s + [c] + t)[1..] == s[1..] + [c] + t;
      assert [s[0]] + s[1..] == s;
    }
  }

  lemma {:induction false} SplitLacks(s: string, c: char)
    ensures forall i :: 0 <= i < |Split(s, c)| ==> Lacks(Split(s, c)[i], c)
    decreases |s|
  {
    if s != "" { SplitLacks(s[1..], c); }
  }

  lemma {:induction false} SplitOfJoin(p: seq<string>, c: char)
    requires p != [] && forall i :: 0 <= i < |p| ==> Lacks(p[i], c)
    ensures Split(Join(p, c), c) == p
    decreases |p|
  {
    if |p| == 1 {
      SplitPrefix(p[0], "", c);
    } else {
      SplitOfJoin(p[1..], c);
      SplitPrefix(p[0], Join(p[1..], c), c);
      assert p == [p[0]] + p[1..];
    }
  }

  /** Splitting undoes joining exactly when no part holds the separator. */
  lemma SplitUndoesJoinExactly(p: seq<string>, c: char)
    requires p != []
    ensures Split(Join(p, c), c) == p <==> forall i :: 0 <= i < |p| ==> Lacks(p[i], c)
  {
    if forall i :: 0 <= i < |p| ==> Lacks(p[i], c) { SplitOfJoin(p, c); }
    SplitLacks(Join(p, c), c);
  }

  /** Joining always undoes splitting. */
  lemma {:induction false} JoinUndoesSplit(s: string, c: char)
    ensures Join(Split(s, c), c) == s
    decreases |s|
  {
    if s != "" {
      JoinUndoesSplit(s[1..], c);
      var r := Split(s[1..], c);
      if s[0] == c {
        assert ([""] + r)[1..] == r;
      } else {
        assert ([[s[0]] + r[0]] + r[1..])[1..] == r[1..];
      }
    }
  }

  /** The order of texts by their characters. */
  predicate Before(s: string, t: string)
  {
    t != "" && (s == "" || s[0] < t[0] || (s[0] == t[0] && Before(s[1..], t[1..])))
  }

  /** The texts agree up to k; there the first one ends, or has the smaller character. */
  predicate PartsAt(s: string, t: string, k: nat)
  {
    k <= |s| && k < |t| && s[..k] == t[..k] && (k == |s| || s[k] < t[k])
  }

  /** One text is before another if it is a beginning of it, or has the smaller character where they part. */
  lemma {:induction false} BeforeExactly(s: string, t: string)
    ensures Before(s, t) <==> exists k: nat :: PartsAt(s, t, k)
    decreases |s|
  {
    if t != "" && (s == "" || s[0] < t[0]) {
      assert PartsAt(s, t, 0);
    } else if s != "" && t != "" {
      BeforeExactly(s[1..], t[1..]);
      if Before(s, t) {
        var k: nat :| PartsAt(s[1..], t[1..], k);
        assert s == [s[0]] + s[1..] && t == [t[0]] + t[1..];
        assert PartsAt(s, t, k + 1);
      }
      if exists k: nat :: PartsAt(s, t, k) {
        var k: nat :| PartsAt(s, t, k);
        if k > 0 {
          assert s[0] == s[..k][0] == t[..k][0] == t[0];
          assert s[1..][..k - 1] == s[..k][1..] && t[1..][..k - 1] == t[..k][1..];
          assert PartsAt(s[1..], t[1..], k - 1);
        }
      }
    }
  }

  lemma {:induction false} BeforeOrders(s: string, t: string)
    ensures s == t || Before(s, t) || Before(t, s)
    ensures !(Before(s, t) && Before(t, s)) && !Before(s, s)
    decreases |s|
  {
    if s != "" && t != "" {
      assert s == [s[0]] + s[1..] && t == [t[0]] + t[1..];
      BeforeOrders(s[1..], t[1..]);
    }
    if s != "" { BeforeOrders(s[1..], s[1..]); }
  }

  lemma {:induction false} BeforeChains(s: string, t: string, u: string)
    requires Before(s, t) && Before(t, u)
    ensures Before(s, u)
    decreases |s|
  {
    if s != "" && s[0] == t[0] == u[0] { BeforeChains(s[1..], t[1..], u[1..]); }
  }
}
