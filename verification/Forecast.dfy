/** The least-squares forecast of monthly counts, over the reals. */
module Forecast {
  import opened Options

  // ---- sums -------------------------------------------------------------------------------------------

  function Sum(f: int -> real, n: nat): real { if n == 0 then 0.0 else Sum(f, n - 1) + f(n - 1) }

  lemma {:induction false} SumCombine(h: int -> real, f: int -> real, g: int -> real, c: real, d: real, n: nat)
    requires forall i :: 0 <= i < n ==> h(i) == c * f(i) + d * g(i)
    ensures Sum(h, n) == c * Sum(f, n) + d * Sum(g, n)
  {
    if n > 0 { SumCombine(h, f, g, c, d, n - 1); }
  }

  lemma {:induction false} SumConstant(f: int -> real, c: real, n: nat)
    requires forall i :: 0 <= i < n ==> f(i) == c
    ensures Sum(f, n) == c * n as real
  {
    if n > 0 {
      SumConstant(f, c, n - 1);
      assert c * n as real == c * (n - 1) as real + c by { OneMore(c, (n - 1) as real, n as real); }
    }
  }

  lemma OneMore(c: real, m: real, n: real)
    requires n == m + 1.0
    ensures c * n == c * m + c
  {
  }

  lemma {:induction false} SumIndex(f: int -> real, n: nat)
    requires forall i :: 0 <= i < n ==> f(i) == i as real
    ensures 2.0 * Sum(f, n) == n as real * (n as real - 1.0)
  {
    if n > 0 { SumIndex(f, n - 1); }
  }

  lemma {:induction false} SumNonNegative(f: int -> real, n: nat)
    requires forall i :: 0 <= i < n ==> f(i) >= 0.0
    ensures Sum(f, n) >= 0.0 && forall i :: 0 <= i < n ==> Sum(f, n) >= f(i)
  {
    if n > 0 { SumNonNegative(f, n - 1); }
  }

  // ---- the fitted line ----------------------------------------------------------------------------------

  function Y(ys: seq<real>): int -> real { i => if 0 <= i < |ys| then ys[i] else 0.0 }

  const X: int -> real := i => i as real

  function MeanX(n: nat): real { (n as real - 1.0) / 2.0 }

  function MeanY(ys: seq<real>): real
    requires ys != []
  {
    Sum(Y(ys), |ys|) / |ys| as real
  }

  function Product(ys: seq<real>): int -> real
    requires ys != []
  {
    var mx, my := MeanX(|ys|), MeanY(ys);
    i => (i as real - mx) * (Y(ys)(i) - my)
  }

  function Square(n: nat): int -> real { var mx := MeanX(n); i => Squared(i as real - mx) }

  function Slope(ys: seq<real>): real
    requires ys != []
  {
    var den := Sum(Square(|ys|), |ys|);
    if den == 0.0 then 0.0 else Sum(Product(ys), |ys|) / den
  }

  function Intercept(ys: seq<real>): real
    requires ys != []
  {
    MeanY(ys) - Slope(ys) * MeanX(|ys|)
  }

  // ---- the forecast as it runs --------------------------------------------------------------------------

  /** To the nearest hundredth, halves up. */
  function Round2(x: real): real { (x * 100.0 + 0.5).Floor as real / 100.0 }

  function AtLeastZero(x: real): real { if x < 0.0 then 0.0 else x }

  /** Items that are no number count as zero, and so do negative ones. */
  function Clean(values: seq<Option<real>>): seq<real>
  {
    seq(|values|, i requires 0 <= i < |values| => AtLeastZero(if values[i].Some? then values[i].value else 0.0))
  }

  function LineAt(a: real, b: real, x: nat): real { a + b * x as real }

  /** The forecast of the x-th month. */
  function Predicted(ys: seq<real>, x: nat): real
    requires ys != []
  {
    if |ys| == 1 then Round2(ys[0]) else Round2(AtLeastZero(LineAt(Intercept(ys), Slope(ys), x)))
  }

  lemma ProductAt(ys: seq<real>, i: nat, dx: real, my: real)
    requires i < |ys| && dx == i as real - MeanX(|ys|) && my == MeanY(ys)
    ensures Product(ys)(i) == dx * (ys[i] - my) && Square(|ys|)(i) == dx * dx
  {
    assert Y(ys)(i) == ys[i];
  }

  method LinearForecast(values: seq<Option<real>>, horizon: int) returns (out: seq<real>)
    ensures |out| == if horizon < 1 then 1 else horizon
    ensures forall i :: 0 <= i < |out| ==>
            out[i] == if values == [] then 0.0 else Predicted(Clean(values), |values| + i)
  {
    hide Product, Square, Round2;
    var target := if horizon < 1 then 1 else horizon;
    var clean := Clean(values);
    if |clean| == 0 { return seq(target, i => 0.0); }
    if |clean| == 1 { return seq(target, i => Round2(clean[0])); }
    var n := |clean|;
    var total := 0.0;
    var i := 0;
    while i < n
      invariant 0 <= i <= n && total == Sum(Y(clean), i)
    {
      total := total + clean[i];
      i := i + 1;
    }
    var meanX := (n as real - 1.0) / 2.0;
    var meanY := total / n as real;
    assert meanX == MeanX(n) && meanY == MeanY(clean);
    var slope, intercept := Fitted(clean, meanX, meanY);
    hide Slope, Intercept;
    out := [];
    while |out| < target
      invariant |out| <= target && forall j :: 0 <= j < |out| ==> out[j] == Predicted(clean, n + j)
    {
      var x := n + |out|;
      var predicted := intercept + slope * x as real;
      assert predicted == LineAt(intercept, slope, x);
      out := out + [Round2(AtLeastZero(predicted))];
    }
  }

  method Fitted(clean: seq<real>, meanX: real, meanY: real) returns (slope: real, intercept: real)
    requires clean != [] && meanX == MeanX(|clean|) && meanY == MeanY(clean)
    ensures slope == Slope(clean) && intercept == Intercept(clean)
  {
    hide Product, Square, MeanX, MeanY;
    var num, den := 0.0, 0.0;
    var i := 0;
    while i < |clean|
      invariant 0 <= i <= |clean| && num == Sum(Product(clean), i) && den == Sum(Square(|clean|), i)
    {
      var dx := i as real - meanX;
      ProductAt(clean, i, dx, meanY);
      num := num + dx * (clean[i] - meanY);
      den := den + dx * dx;
      i := i + 1;
    }
    slope := if den == 0.0 then 0.0 else num / den;
    intercept := meanY - slope * meanX;
  }

  /** What is forecast from: the items that are numbers and not negative, and zero for the others. */
  lemma CleanExactly(values: seq<Option<real>>, i: nat)
    requires i < |values|
    ensures |Clean(values)| == |values|
    ensures Clean(values)[i] == match values[i] case Some(a) => (if a > 0.0 then a else 0.0) case None => 0.0
  {
  }

  predicate HundredthsOf(x: real, k: int, r: real) {
    r * 100.0 == k as real && k as real - 0.5 <= x * 100.0 < k as real + 0.5
  }

  /** r is the whole number of hundredths nearest to x, the greater of two. */
  ghost predicate NearestHundredth(x: real, r: real) { exists k :: HundredthsOf(x, k, r) }

  /**
   * What is forecast for a month: the line's value, but not below zero, to the nearest hundredth; a lone value stays.
   */
  lemma PredictedExactly(ys: seq<real>, x: nat)
    requires ys != []
    ensures |ys| == 1 ==> NearestHundredth(ys[0], Predicted(ys, x))
    ensures var line := Intercept(ys) + Slope(ys) * x as real;
      |ys| != 1 ==> NearestHundredth(if line > 0.0 then line else 0.0, Predicted(ys, x))
  {
    hide Intercept, Slope, Round2;
    var line := Intercept(ys) + Slope(ys) * x as real;
    RoundedHundredth(ys[0]);
    RoundedHundredth(if line > 0.0 then line else 0.0);
    assert line == LineAt(Intercept(ys), Slope(ys), x);
  }

  lemma RoundedHundredth(x: real)
    ensures NearestHundredth(x, Round2(x))
  {
    var k := (x * 100.0 + 0.5).Floor;
    assert HundredthsOf(x, k, Round2(x));
  }

  // ---- main results -----------------------------------------------------------------------------------------

  function Residual(ys: seq<real>, a: real, b: real): int -> real { i => Y(ys)(i) - (a + b * i as real) }

  function Moment(ys: seq<real>, a: real, b: real): int -> real { i => i as real * Residual(ys, a, b)(i) }

  function Error(ys: seq<real>, a: real, b: real): int -> real { i => Squared(Residual(ys, a, b)(i)) }

  /** The squared distance of the points from the line a + b x. */
  function SquaredError(ys: seq<real>, a: real, b: real): real { Sum(Error(ys, a, b), |ys|) }

  function Squared(x: real): real { x * x }

  lemma SquareNonNegative(x: real)
    ensures Squared(x) >= 0.0
  {
    if x < 0.0 { assert (-x) * (-x) >= 0.0; }
  }

  lemma SignsAgree(x: real, y: real, product: real)
    requires product == x * y && ((x > 0.0 && y > 0.0) || (x < 0.0 && y < 0.0))
    ensures product > 0.0
  {
  }

  lemma SquarePositive(x: real)
    requires x != 0.0
    ensures Squared(x) > 0.0
  {
    SignsAgree(x, x, Squared(x));
  }

  lemma SpreadPositive(n: nat)
    requires n >= 2
    ensures Sum(Square(n), n) > 0.0
  {
    var f := Square(n);
    forall i | 0 <= i < n ensures f(i) >= 0.0 { SquareNonNegative(i as real - MeanX(n)); }
    SumNonNegative(f, n);
    SquarePositive(0 as real - MeanX(n));
    assert Sum(f, n) >= f(0);
  }

  lemma CentredX(f: int -> real, n: nat)
    requires forall i :: 0 <= i < n ==> f(i) == i as real - MeanX(n)
    ensures Sum(f, n) == 0.0
  {
    var one: int -> real := i => 1.0;
    SumIndex(X, n);
    SumConstant(one, 1.0, n);
    SumCombine(f, X, one, 1.0, -MeanX(n), n);
  }

  lemma CentredY(f: int -> real, ys: seq<real>)
    requires ys != [] && forall i :: 0 <= i < |ys| ==> f(i) == Y(ys)(i) - MeanY(ys)
    ensures Sum(f, |ys|) == 0.0
  {
    var one: int -> real := i => 1.0;
    SumConstant(one, 1.0, |ys|);
    SumCombine(f, Y(ys), one, 1.0, -MeanY(ys), |ys|);
  }

  /** A residual of the fitted line in centred terms. */
  lemma CentredResidual(ys: seq<real>, i: int)
    requires ys != []
    ensures Residual(ys, Intercept(ys), Slope(ys))(i) == (Y(ys)(i) - MeanY(ys)) - Slope(ys) * (i as real - MeanX(|ys|))
  {
    hide Slope, MeanY, MeanX;
    var b, x, mx := Slope(ys), i as real, MeanX(|ys|);
    assert b * (x - mx) == b * x - b * mx;
  }

  lemma ResidualsSumToZero(ys: seq<real>)
    requires |ys| >= 2
    ensures Sum(Residual(ys, Intercept(ys), Slope(ys)), |ys|) == 0.0
  {
    hide Slope, MeanY, MeanX, Residual, Intercept;
    var n, b, mx, my := |ys|, Slope(ys), MeanX(|ys|), MeanY(ys);
    var dx: int -> real := i => i as real - mx;
    var dy: int -> real := i => Y(ys)(i) - my;
    CentredX(dx, n);
    CentredY(dy, ys);
    var r := Residual(ys, Intercept(ys), b);
    forall i | 0 <= i < n ensures r(i) == dy(i) - b * dx(i) { CentredResidual(ys, i); }
    DifferenceSum(r, dy, dx, b, n);
  }

  lemma DifferenceSum(r: int -> real, dy: int -> real, dx: int -> real, b: real, n: nat)
    requires forall i :: 0 <= i < n ==> r(i) == dy(i) - b * dx(i)
    requires Sum(dy, n) == 0.0 && Sum(dx, n) == 0.0
    ensures Sum(r, n) == 0.0
  {
    forall i | 0 <= i < n ensures r(i) == 1.0 * dy(i) + (-b) * dx(i) { Negated(b, dx(i)); }
    SumCombine(r, dy, dx, 1.0, -b, n);
  }

  lemma Negated(b: real, x: real)
    ensures (-b) * x == -(b * x)
  {
  }

  lemma Expand(x: real, y: real, b: real)
    ensures x * (y - b * x) == 1.0 * (x * y) + (-b) * (x * x)
  {
  }

  lemma SlopeBalances(ys: seq<real>)
    requires |ys| >= 2
    ensures Sum(Product(ys), |ys|) + (-Slope(ys)) * Sum(Square(|ys|), |ys|) == 0.0
  {
    hide Product, Square, Sum;
    SpreadPositive(|ys|);
    var num, den := Sum(Product(ys), |ys|), Sum(Square(|ys|), |ys|);
    assert num / den * den == num;
    Negated(num / den, den);
  }

  lemma ResidualsOrthogonal(ys: seq<real>)
    requires |ys| >= 2
    ensures Sum(Moment(ys, Intercept(ys), Slope(ys)), |ys|) == 0.0
  {
    hide Slope, Intercept, MeanX, Residual, Product, Square;
    var n, a, b, mx := |ys|, Intercept(ys), Slope(ys), MeanX(|ys|);
    var r, product, square := Residual(ys, a, b), Product(ys), Square(n);
    var moved: int -> real := i => (i as real - mx) * r(i);
    ResidualsSumToZero(ys);
    SlopeBalances(ys);
    forall i | 0 <= i < n ensures moved(i) == 1.0 * product(i) + (-b) * square(i) { MovedSplits(ys, i); }
    MovedSum(moved, product, square, b, n);
    MomentSplits(Moment(ys, a, b), moved, r, mx, n);
  }

  lemma MovedSum(moved: int -> real, product: int -> real, square: int -> real, b: real, n: nat)
    requires forall i :: 0 <= i < n ==> moved(i) == 1.0 * product(i) + (-b) * square(i)
    requires Sum(product, n) + (-b) * Sum(square, n) == 0.0
    ensures Sum(moved, n) == 0.0
  {
    SumCombine(moved, product, square, 1.0, -b, n);
  }

  lemma MomentSplits(moment: int -> real, moved: int -> real, r: int -> real, mx: real, n: nat)
    requires forall i :: 0 <= i < n ==> moment(i) == i as real * r(i) && moved(i) == (i as real - mx) * r(i)
    requires Sum(moved, n) == 0.0 && Sum(r, n) == 0.0
    ensures Sum(moment, n) == 0.0
  {
    forall i | 0 <= i < n ensures moment(i) == 1.0 * moved(i) + mx * r(i) { Shift(i as real, mx, r(i)); }
    SumCombine(moment, moved, r, 1.0, mx, n);
  }

  lemma Shift(x: real, mx: real, r: real)
    ensures x * r == 1.0 * ((x - mx) * r) + mx * r
  {
  }

  lemma MovedSplits(ys: seq<real>, i: int)
    requires ys != []
    ensures (i as real - MeanX(|ys|)) * Residual(ys, Intercept(ys), Slope(ys))(i) ==
            1.0 * Product(ys)(i) + (-Slope(ys)) * Square(|ys|)(i)
  {
    CentredResidual(ys, i);
    Expand(i as real - MeanX(|ys|), Y(ys)(i) - MeanY(ys), Slope(ys));
  }

  /** The residuals of the fitted line sum to zero and are orthogonal to x. */
  lemma ResidualsBalance(ys: seq<real>)
    requires |ys| >= 2
    ensures Sum(Residual(ys, Intercept(ys), Slope(ys)), |ys|) == 0.0
    ensures Sum(Moment(ys, Intercept(ys), Slope(ys)), |ys|) == 0.0
  {
    ResidualsSumToZero(ys);
    ResidualsOrthogonal(ys);
  }

  function Between(p: real, q: real, i: int): real { Squared(p + q * i as real) }

  /** The error of any line is that of the fitted one and the squared distances between the two lines. */
  lemma ErrorSplits(ys: seq<real>, a: real, b: real, gap: int -> real)
    requires |ys| >= 2
    requires forall i :: 0 <= i < |ys| ==> gap(i) == Between(Intercept(ys) - a, Slope(ys) - b, i)
    ensures SquaredError(ys, a, b) == SquaredError(ys, Intercept(ys), Slope(ys)) + Sum(gap, |ys|)
  {
    hide Slope, Intercept, Residual, Between;
    var n, p, q := |ys|, Intercept(ys) - a, Slope(ys) - b;
    var r, m := Residual(ys, Intercept(ys), Slope(ys)), Moment(ys, Intercept(ys), Slope(ys));
    var best := Error(ys, Intercept(ys), Slope(ys));
    ResidualsBalance(ys);
    var cross: int -> real := i => p * r(i) + q * m(i);
    SumCombine(cross, r, m, p, q, n);
    var both: int -> real := i => best(i) + gap(i);
    SumCombine(both, best, gap, 1.0, 1.0, n);
    forall i | 0 <= i < n ensures Error(ys, a, b)(i) == 1.0 * both(i) + 2.0 * cross(i) { PointSplits(ys, a, b, i); }
    SumCombine(Error(ys, a, b), both, cross, 1.0, 2.0, n);
  }

  lemma PointSplits(ys: seq<real>, a: real, b: real, i: int)
    requires ys != []
    ensures var p, q, r := Intercept(ys) - a, Slope(ys) - b, Residual(ys, Intercept(ys), Slope(ys))(i);
      Residual(ys, a, b)(i) * Residual(ys, a, b)(i) == r * r + Between(p, q, i) + 2.0 * (p * r + q * (i as real * r))
  {
    hide Slope, Intercept;
    var p, q, x := Intercept(ys) - a, Slope(ys) - b, i as real;
    var r := Residual(ys, Intercept(ys), Slope(ys))(i);
    assert q * x == Slope(ys) * x - b * x;
    assert Residual(ys, a, b)(i) == r + (p + q * x);
    Binomial(r, p, q, x);
  }

  lemma Binomial(r: real, p: real, q: real, x: real)
    ensures (r + (p + q * x)) * (r + (p + q * x)) == r * r + (p + q * x) * (p + q * x) + 2.0 * (p * r + q * (x * r))
  {
    var d := p + q * x;
    assert (r + d) * (r + d) == r * r + d * d + 2.0 * (d * r);
    assert d * r == p * r + (q * x) * r;
    assert (q * x) * r == q * (x * r);
  }

  lemma Apart(p: real, q: real, i: int)
    ensures Between(p, q, i) >= 0.0 && (p + q * i as real == 0.0 || Between(p, q, i) > 0.0)
  {
    hide Squared;
    var x := p + q * i as real;
    assert Between(p, q, i) == Squared(x);
    SquareNonNegative(x);
    if x != 0.0 {
      SquarePositive(x);
      assert Squared(x) > 0.0;
    }
  }

  /** Two different lines differ at 0 or at 1. */
  lemma LinesDiffer(p: real, q: real)
    ensures Between(p, q, 0) >= 0.0 && Between(p, q, 1) >= 0.0
    ensures p != 0.0 || q != 0.0 ==> Between(p, q, 0) > 0.0 || Between(p, q, 1) > 0.0
  {
    hide Between;
    Apart(p, q, 0);
    Apart(p, q, 1);
    assert p + q * 0 as real == p && p + q * 1 as real == p + q;
  }

  /** No line is nearer to the points than the fitted one, and no other is as near. */
  lemma FittedIsNearest(ys: seq<real>, a: real, b: real)
    requires |ys| >= 2
    ensures SquaredError(ys, a, b) >= SquaredError(ys, Intercept(ys), Slope(ys))
    ensures SquaredError(ys, a, b) == SquaredError(ys, Intercept(ys), Slope(ys)) <==>
            a == Intercept(ys) && b == Slope(ys)
  {
    hide Slope, Intercept, SquaredError, Between, Sum;
    var n, p, q := |ys|, Intercept(ys) - a, Slope(ys) - b;
    var gap: int -> real := i => Between(p, q, i);
    ErrorSplits(ys, a, b, gap);
    GapExactly(p, q, n, gap);
  }

  lemma GapExactly(p: real, q: real, n: nat, gap: int -> real)
    requires n >= 2 && forall i :: 0 <= i < n ==> gap(i) == Between(p, q, i)
    ensures Sum(gap, n) >= 0.0 && (Sum(gap, n) == 0.0 <==> p == 0.0 && q == 0.0)
  {
    hide Between, Sum;
    forall i | 0 <= i < n ensures gap(i) >= 0.0 { Apart(p, q, i); }
    SumNonNegative(gap, n);
    LinesDiffer(p, q);
    assert Sum(gap, n) >= gap(0) && Sum(gap, n) >= gap(1);
    if p == 0.0 && q == 0.0 {
      forall i | 0 <= i < n ensures gap(i) == 0.0 { NoGap(i); }
      SumConstant(gap, 0.0, n);
    }
  }

  lemma NoGap(i: int)
    ensures Between(0.0, 0.0, i) == 0.0
  {
    assert 0.0 + 0.0 * i as real == 0.0;
  }

  lemma OnTheLine(ys: seq<real>, a: real, b: real)
    requires forall i :: 0 <= i < |ys| ==> ys[i] == a + b * i as real
    ensures SquaredError(ys, a, b) == 0.0
  {
    forall i | 0 <= i < |ys| ensures Error(ys, a, b)(i) == 0.0 {
      assert Y(ys)(i) == ys[i];
      assert Residual(ys, a, b)(i) == 0.0;
    }
    SumConstant(Error(ys, a, b), 0.0, |ys|);
  }

  lemma ErrorNonNegative(ys: seq<real>, a: real, b: real)
    ensures SquaredError(ys, a, b) >= 0.0
  {
    forall i | 0 <= i < |ys| ensures Error(ys, a, b)(i) >= 0.0 { SquareNonNegative(Residual(ys, a, b)(i)); }
    SumNonNegative(Error(ys, a, b), |ys|);
  }

  /** A history on a line is fitted by that line, and so continued on it exactly but for rounding. */
  lemma AffineContinues(values: seq<Option<real>>, a: real, b: real, x: nat)
    requires |values| >= 2
    requires forall i :: 0 <= i < |values| ==> values[i] == Some(a + b * i as real) && a + b * i as real >= 0.0
    ensures Predicted(Clean(values), x) == Round2(AtLeastZero(LineAt(a, b, x)))
  {
    hide Slope, Intercept, SquaredError, Round2, LineAt;
    var ys := Clean(values);
    OnTheLine(ys, a, b);
    ErrorNonNegative(ys, Intercept(ys), Slope(ys));
    FittedIsNearest(ys, a, b);
    assert Intercept(ys) == a && Slope(ys) == b;
  }

  /** Rounding moves a value by at most half a hundredth, keeps hundredths and keeps the order. */
  lemma RoundingIsNear(x: real, y: real, k: int)
    ensures -0.005 <= Round2(x) - x <= 0.005
    ensures Round2(k as real / 100.0) == k as real / 100.0
    ensures x <= y ==> Round2(x) <= Round2(y)
  {
    assert k as real / 100.0 * 100.0 == k as real;
    assert (k as real + 0.5).Floor == k;
    if x <= y { InOrder(x * 100.0 + 0.5, y * 100.0 + 0.5); }
  }

  lemma InOrder(x: real, y: real)
    requires x <= y
    ensures x.Floor <= y.Floor && x.Floor as real / 100.0 <= y.Floor as real / 100.0
  {
    assert x.Floor as real <= x < x.Floor as real + 1.0;
    assert y.Floor as real <= y < y.Floor as real + 1.0;
  }
}
