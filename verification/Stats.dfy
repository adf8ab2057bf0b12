/** The slope and the percentile of analytics/stats.go, over the reals, with NaN as a value of its own. */
module Stats {

  datatype Float = NaN | Num(v: real)

  /** The values without the NaNs, in order. */
  function Clean(values: seq<Float>): seq<real> {
    if values == [] then []
    else
      var last := values[|values| - 1];
      Clean(values[..|values| - 1]) + if last.Num? then [last.v] else []
  }

  // ---------------------------------------------------------------- slope

  /** The index sums of the least-squares formula: of x, y, x*y, x*x and y*y over the points (i, s[i]). */
  function SumX(n: nat): real {
    if n == 0 then 0.0 else SumX(n - 1) + (n - 1) as real
  }

  function SumXX(n: nat): real {
    if n == 0 then 0.0 else SumXX(n - 1) + (n - 1) as real * (n - 1) as real
  }

  function SumY(s: seq<real>): real {
    if s == [] then 0.0 else SumY(s[..|s| - 1]) + s[|s| - 1]
  }

  function SumXY(s: seq<real>): real {
    if s == [] then 0.0 else SumXY(s[..|s| - 1]) + (|s| - 1) as real * s[|s| - 1]
  }

  function SumYY(s: seq<real>): real {
    if s == [] then 0.0 else SumYY(s[..|s| - 1]) + s[|s| - 1] * s[|s| - 1]
  }

  function Numerator(s: seq<real>): real {
    |s| as real * SumXY(s) - SumX(|s|) * SumY(s)
  }

  function Denominator(n: nat): real {
    n as real * SumXX(n) - SumX(n) * SumX(n)
  }

  /** The formula of the source on its five sums, with its guard. */
  function Ratio(n: real, x: real, xx: real, y: real, xy: real): real {
    var denominator := n * xx - x * x;
    if denominator == 0.0 then 0.0 else (n * xy - x * y) / denominator
  }

  /** The slope of a series without NaNs; a series too short has none. */
  function Gradient(s: seq<real>): real {
    if |s| < 2 then 0.0 else Ratio(|s| as real, SumX(|s|), SumXX(|s|), SumY(s), SumXY(s))
  }

  /** The loop that Slope and Percentile both begin with. */
  method DropNaNs(values: seq<Float>) returns (clean: seq<real>)
    ensures clean == Clean(values)
  {
    clean := [];
    for k := 0 to |values|
      invariant clean == Clean(values[..k])
    {
      assert values[..k + 1][..k] == values[..k];
      if values[k].Num? {
        clean := clean + [values[k].v];
      }
    }
    assert values[..|values|] == values;
  }

  method Accumulate(clean: seq<real>) returns (sumX: real, sumY: real, sumXY: real, sumXX: real)
    ensures sumX == SumX(|clean|) && sumXX == SumXX(|clean|) && sumY == SumY(clean) && sumXY == SumXY(clean)
  {
    sumX, sumY, sumXY, sumXX := 0.0, 0.0, 0.0, 0.0;
    for i := 0 to |clean|
      invariant sumX == SumX(i) && sumXX == SumXX(i)
      invariant sumY == SumY(clean[..i]) && sumXY == SumXY(clean[..i])
    {
      assert clean[..i + 1][..i] == clean[..i];
      var x := i as real;
      sumX := sumX + x;
      sumY := sumY + clean[i];
      sumXY := sumXY + x * clean[i];
      sumXX := sumXX + x * x;
    }
    assert clean[..|clean|] == clean;
  }

  method Slope(values: seq<Float>) returns (g: real)
    ensures g == Gradient(Clean(values))
    ensures NeverFalls(values) ==> forall i, j :: Differ(values, i, j) ==> g > 0.0
    ensures NeverRises(values) ==> forall i, j :: Differ(values, i, j) ==> g < 0.0
  {
    g := CleanSlope(values);
    forall i, j | NeverFalls(values) && Differ(values, i, j) ensures g > 0.0 {
      RisingSeriesIsPositive(values, i, j);
    }
    forall i, j | NeverRises(values) && Differ(values, i, j) ensures g < 0.0 {
      FallingSeriesIsNegative(values, i, j);
    }
  }

  method CleanSlope(values: seq<Float>) returns (g: real)
    ensures g == Gradient(Clean(values))
  {
    var clean := DropNaNs(values);
    var n := |clean| as real;
    if n < 2.0 {
      return 0.0;
    }
    var sumX, sumY, sumXY, sumXX := Accumulate(clean);
    g := LeastSquares(n, sumX, sumXX, sumY, sumXY);
  }

  method LeastSquares(n: real, sumX: real, sumXX: real, sumY: real, sumXY: real) returns (g: real)
    ensures g == Ratio(n, sumX, sumXX, sumY, sumXY)
  {
    var denominator := n * sumXX - sumX * sumX;
    if denominator == 0.0 {
      return 0.0;
    }
    return (n * sumXY - sumX * sumY) / denominator;
  }

  lemma {:induction false} IndexSums(n: nat)
    ensures SumX(n) == n as real * (n as real - 1.0) / 2.0
    ensures SumXX(n) == n as real * (n as real - 1.0) * (2.0 * n as real - 1.0) / 6.0
  {
    if n == 0 {
    } else {
      IndexSums(n - 1);
      var x := n as real;
      assert (n - 1) as real == x - 1.0;
      IndexSumStep(x);
    }
  }

  lemma IndexSumStep(x: real)
    ensures (x - 1.0) * (x - 2.0) / 2.0 + (x - 1.0) == x * (x - 1.0) / 2.0
    ensures (x - 1.0) * (x - 2.0) * (2.0 * (x - 1.0) - 1.0) / 6.0 + (x - 1.0) * (x - 1.0) ==
              x * (x - 1.0) * (2.0 * x - 1.0) / 6.0
  {
  }

  /** The denominator is n^2 (n^2 - 1) / 12. */
  lemma DenominatorIs(n: nat)
    ensures var x := n as real; Denominator(n) == x * x * (x * x - 1.0) / 12.0
  {
    IndexSums(n);
    var x := n as real;
    DenominatorAlgebra(x);
  }

  lemma DenominatorAlgebra(x: real)
    ensures x * (x * (x - 1.0) * (2.0 * x - 1.0) / 6.0) - (x * (x - 1.0) / 2.0) * (x * (x - 1.0) / 2.0)
            == x * x * (x * x - 1.0) / 12.0
  {
  }

  /** The guard against a zero denominator in the source never fires. */
  lemma DenominatorPositive(n: nat)
    requires n >= 2
    ensures Denominator(n) > 0.0
  {
    DenominatorIs(n);
    var x := n as real;
    assert x * x >= 4.0 by { assert (x - 2.0) * (x + 2.0) >= 0.0; }
    assert (x * x) * (x * x - 1.0) > 0.0;
  }

  /** So the slope is the plain quotient. */
  lemma GradientIsQuotient(s: seq<real>)
    requires |s| >= 2
    ensures Denominator(|s|) > 0.0 && Gradient(s) == Numerator(s) / Denominator(|s|)
  {
    DenominatorPositive(|s|);
  }

  // ---------------------------------------------------------------- what the sign of the slope means

  /** The sum of (n - i) (w - s[i]) over the points before a new last one w at index n = |t|, for the
      first |s| of them. */
  function Row(s: seq<real>, n: int, w: real): real {
    if s == [] then 0.0
    else Row(s[..|s| - 1], n, w) + (n - (|s| - 1)) as real * (w - s[|s| - 1])
  }

  /** The sum of (j - i) (s[j] - s[i]) over all i < j. */
  function Pairs(s: seq<real>): real {
    if s == [] then 0.0
    else
      var n := |s| - 1;
      Pairs(s[..n]) + Row(s[..n], n, s[n])
  }

  lemma {:induction false} RowSum(s: seq<real>, n: int, w: real)
    ensures Row(s, n, w) == n as real * (|s| as real * w - SumY(s)) - SumX(|s|) * w + SumXY(s)
  {
    if s == [] {
    } else {
      var k := |s| - 1;
      RowSum(s[..k], n, w);
      RowStep(k as real, n as real, w, s[k], SumY(s[..k]), SumX(k), SumXY(s[..k]));
      assert (n - k) as real == n as real - k as real;
      assert |s| as real == k as real + 1.0;
    }
  }

  lemma RowStep(k: real, n: real, w: real, v: real, y: real, x: real, xy: real)
    ensures n * (k * w - y) - x * w + xy + (n - k) * (w - v) ==
            n * ((k + 1.0) * w - (y + v)) - (x + k) * w + (xy + k * v)
  {
  }

  /** The numerator of the slope is the sum over all pairs of the rise between them times their distance. */
  lemma {:induction false} NumeratorIsPairs(s: seq<real>)
    ensures Numerator(s) == Pairs(s)
  {
    if s == [] {
    } else {
      var n := |s| - 1;
      NumeratorIsPairs(s[..n]);
      RowSum(s[..n], n, s[n]);
      assert |s| as real == n as real + 1.0;
      NumeratorStep(n as real, s[n], SumY(s[..n]), SumX(n), SumXY(s[..n]));
    }
  }

  lemma NumeratorStep(n: real, w: real, y: real, x: real, xy: real)
    ensures (n * xy - x * y) + (n * (n * w - y) - x * w + xy) == (n + 1.0) * (xy + n * w) - (x + n) * (y + w)
  {
  }

  ghost predicate Rising(s: seq<real>) {
    forall i, j :: 0 <= i < j < |s| ==> s[i] <= s[j]
  }

  ghost predicate Falling(s: seq<real>) {
    forall i, j :: 0 <= i < j < |s| ==> s[i] >= s[j]
  }

  lemma {:induction false} RowNonNegative(s: seq<real>, n: int, w: real)
    requires |s| <= n && forall i :: 0 <= i < |s| ==> s[i] <= w
    ensures Row(s, n, w) >= 0.0
    ensures s != [] && s[0] < w ==> Row(s, n, w) > 0.0
  {
    if s == [] {
    } else {
      var k := |s| - 1;
      RowNonNegative(s[..k], n, w);
      AddTerm(Row(s[..k], n, w), Row(s, n, w), (n - k) as real, w - s[k]);
      assert k > 0 ==> s[..k] != [] && s[..k][0] == s[0];
    }
  }

  lemma AddTerm(r: real, r': real, d: real, x: real)
    requires r >= 0.0 && d > 0.0 && x >= 0.0 && r' == r + d * x
    ensures r' >= 0.0 && (r > 0.0 || x > 0.0 ==> r' > 0.0)
  {
    assert d * x >= 0.0;
    assert x > 0.0 ==> d * x > 0.0;
  }

  lemma {:induction false} PairsNonNegative(s: seq<real>)
    requires Rising(s)
    ensures Pairs(s) >= 0.0
    ensures |s| >= 2 && s[0] < s[|s| - 1] ==> Pairs(s) > 0.0
  {
    if s == [] {
    } else {
      var n := |s| - 1;
      PairsNonNegative(s[..n]);
      RowNonNegative(s[..n], n, s[n]);
    }
  }

  /** The slope of a series that never falls and is not constant is positive. */
  lemma RisingIsPositive(s: seq<real>)
    requires Rising(s) && |s| >= 2 && s[0] != s[|s| - 1]
    ensures Gradient(s) > 0.0
  {
    PairsNonNegative(s);
    NumeratorIsPairs(s);
    GradientIsQuotient(s);
    QuotientSign(Numerator(s), Denominator(|s|));
  }

  lemma QuotientSign(a: real, b: real)
    requires b > 0.0
    ensures a > 0.0 ==> a / b > 0.0
    ensures a < 0.0 ==> a / b < 0.0
  {
  }

  function Negated(s: seq<real>): seq<real> {
    seq(|s|, i requires 0 <= i < |s| => -s[i])
  }

  lemma {:induction false} NegatedSums(s: seq<real>)
    ensures SumY(Negated(s)) == -SumY(s) && SumXY(Negated(s)) == -SumXY(s)
  {
    if s == [] {
    } else {
      NegatedSums(s[..|s| - 1]);
      assert Negated(s)[..|s| - 1] == Negated(s[..|s| - 1]);
    }
  }

  lemma NegatedNumerator(s: seq<real>)
    ensures Numerator(Negated(s)) == -Numerator(s)
  {
    NegatedSums(s);
    NegatedProducts(|s| as real, SumX(|s|), SumY(s), SumXY(s));
  }

  lemma NegatedProducts(n: real, x: real, y: real, xy: real)
    ensures n * (-xy) - x * (-y) == -(n * xy - x * y)
  {
  }

  /** ... and of one that never rises and is not constant, negative. */
  lemma FallingIsNegative(s: seq<real>)
    requires Falling(s) && |s| >= 2 && s[0] != s[|s| - 1]
    ensures Gradient(s) < 0.0
  {
    PairsNonNegative(Negated(s));
    NumeratorIsPairs(Negated(s));
    NegatedNumerator(s);
    GradientIsQuotient(s);
    QuotientSign(Numerator(s), Denominator(|s|));
  }

  // ---------------------------------------------------------------- straight lines

  /** The points of the line a + b i over the first |l| indexes. */
  ghost predicate IsLine(l: seq<real>, a: real, b: real) {
    forall i :: 0 <= i < |l| ==> l[i] == a + b * i as real
  }

  /** A sum is the mix of two others, weighted by p and q. */
  ghost predicate Mixes(d: real, p: real, q: real, y: real, xy: real) {
    d == p * y + q * xy
  }

  lemma MixesNothing(p: real, q: real)
    ensures Mixes(0.0, p, q, 0.0, 0.0)
  {
  }

  lemma {:induction false} LineSumY(l: seq<real>, a: real, b: real)
    requires IsLine(l, a, b)
    ensures Mixes(SumY(l), a, b, |l| as real, SumX(|l|))
  {
    if l == [] {
      MixesNothing(a, b);
    } else {
      var k := |l| - 1;
      LineSumY(l[..k], a, b);
      assert |l| as real == k as real + 1.0;
      LineStepY(k as real, a, b, l[k], SumY(l[..k]), SumX(k));
    }
  }

  lemma LineStepY(k: real, a: real, b: real, v: real, y: real, x: real)
    requires v == a + b * k && Mixes(y, a, b, k, x)
    ensures Mixes(y + v, a, b, k + 1.0, x + k)
  {
  }

  lemma {:induction false} LineSumXY(l: seq<real>, a: real, b: real)
    requires IsLine(l, a, b)
    ensures Mixes(SumXY(l), a, b, SumX(|l|), SumXX(|l|))
  {
    if l == [] {
      MixesNothing(a, b);
    } else {
      var k := |l| - 1;
      LineSumXY(l[..k], a, b);
      LineStepXY(k as real, a, b, l[k], SumXY(l[..k]), SumX(k), SumXX(k));
    }
  }

  lemma LineStepXY(k: real, a: real, b: real, v: real, xy: real, x: real, xx: real)
    requires v == a + b * k && Mixes(xy, a, b, x, xx)
    ensures Mixes(xy + k * v, a, b, x + k, xx + k * k)
  {
    assert k * v == a * k + b * (k * k);
  }

  /** A straight line has exactly its own gradient. */
  lemma LineHasItsGradient(s: seq<real>, a: real, b: real)
    requires |s| >= 2 && IsLine(s, a, b)
    ensures Gradient(s) == b
  {
    LineSumY(s, a, b);
    LineSumXY(s, a, b);
    DenominatorPositive(|s|);
    RatioOfLine(|s| as real, SumX(|s|), SumXX(|s|), SumY(s), SumXY(s), a, b);
  }

  lemma RatioOfLine(n: real, x: real, xx: real, y: real, xy: real, a: real, b: real)
    requires n * xx - x * x > 0.0 && Mixes(y, a, b, n, x) && Mixes(xy, a, b, x, xx)
    ensures Ratio(n, x, xx, y, xy) == b
  {
    assert n * xy - x * y == b * (n * xx - x * x);
    CancelQuotient(n * xy - x * y, b, n * xx - x * x);
  }

  lemma CancelQuotient(a: real, b: real, d: real)
    requires d > 0.0 && a == b * d
    ensures a / d == b
  {
  }

  // ---------------------------------------------------------------- the slope is the least-squares one

  /** `e` is the series `s` less the series `l`, point by point. */
  ghost predicate IsLess(e: seq<real>, s: seq<real>, l: seq<real>) {
    |e| == |s| == |l| && forall i :: 0 <= i < |s| ==> e[i] == s[i] - l[i]
  }

  lemma {:induction false} LessSums(e: seq<real>, s: seq<real>, l: seq<real>)
    requires IsLess(e, s, l)
    ensures SumY(e) == SumY(s) - SumY(l) && SumXY(e) == SumXY(s) - SumXY(l)
  {
    if e == [] {
    } else {
      var k := |e| - 1;
      LessSums(e[..k], s[..k], l[..k]);
      LessProduct(k as real, e[k], s[k], l[k]);
    }
  }

  lemma LessProduct(k: real, e: real, s: real, l: real)
    requires e == s - l
    ensures k * e == k * s - k * l
  {
  }

  /** The sum of the products of two series. */
  function Dot(e: seq<real>, l: seq<real>): real
    requires |e| == |l|
  {
    if e == [] then 0.0 else Dot(e[..|e| - 1], l[..|l| - 1]) + e[|e| - 1] * l[|l| - 1]
  }

  lemma {:induction false} LessSquares(d: seq<real>, e: seq<real>, l: seq<real>)
    requires IsLess(d, e, l)
    ensures SumYY(d) == SumYY(e) - 2.0 * Dot(e, l) + SumYY(l)
  {
    if e == [] {
    } else {
      var k := |e| - 1;
      LessSquares(d[..k], e[..k], l[..k]);
      LessSquare(d[k], e[k], l[k]);
    }
  }

  lemma LessSquare(d: real, e: real, l: real)
    requires d == e - l
    ensures d * d == e * e - 2.0 * (e * l) + l * l
  {
  }

  lemma {:induction false} DotWithLine(e: seq<real>, l: seq<real>, p: real, q: real)
    requires |e| == |l| && IsLine(l, p, q)
    ensures Mixes(Dot(e, l), p, q, SumY(e), SumXY(e))
  {
    if e == [] {
      MixesNothing(p, q);
    } else {
      var k := |e| - 1;
      DotWithLine(e[..k], l[..k], p, q);
      MixesMore(k as real, p, q, e[k], l[k], Dot(e[..k], l[..k]), SumY(e[..k]), SumXY(e[..k]));
    }
  }

  lemma MixesMore(k: real, p: real, q: real, v: real, l: real, d: real, y: real, xy: real)
    requires l == p + q * k && Mixes(d, p, q, y, xy)
    ensures Mixes(d + v * l, p, q, y + v, xy + k * v)
  {
    assert v * l == p * v + q * (k * v);
  }

  lemma {:induction false} SquaresNonNegative(s: seq<real>)
    ensures SumYY(s) >= 0.0
  {
    if s == [] {
    } else {
      SquaresNonNegative(s[..|s| - 1]);
      assert s[|s| - 1] * s[|s| - 1] >= 0.0;
    }
  }

  /** The line a + b i over n indexes, and the errors a series has from it. */
  function Line(n: nat, a: real, b: real): (l: seq<real>)
    ensures IsLine(l, a, b)
  {
    seq(n, i => a + b * i as real)
  }

  function Errors(s: seq<real>, a: real, b: real): (e: seq<real>)
    ensures IsLess(e, s, Line(|s|, a, b))
  {
    seq(|s|, i requires 0 <= i < |s| => s[i] - (a + b * i as real))
  }

  function SquaredError(s: seq<real>, a: real, b: real): real {
    SumYY(Errors(s, a, b))
  }

  /** The height at index 0 of the line with gradient g through the mean point. */
  function Intercept(s: seq<real>, g: real): real
    requires |s| >= 1
  {
    (SumY(s) - g * SumX(|s|)) / |s| as real
  }

  /** The errors of the fitted line sum to zero, plainly and weighted by the index. */
  lemma NormalEquations(s: seq<real>, e: seq<real>)
    requires |s| >= 2 && e == Errors(s, Intercept(s, Gradient(s)), Gradient(s))
    ensures SumY(e) == 0.0 && SumXY(e) == 0.0
  {
    var l := Line(|s|, Intercept(s, Gradient(s)), Gradient(s));
    LessSums(e, s, l);
    FittedLine(s, l, Intercept(s, Gradient(s)), Gradient(s));
  }

  lemma FittedLine(s: seq<real>, l: seq<real>, c: real, g: real)
    requires |s| == |l| >= 2 && IsLine(l, c, g) && g == Gradient(s) && c == Intercept(s, g)
    ensures SumY(l) == SumY(s) && SumXY(l) == SumXY(s)
  {
    FittedY(s, l, c, g);
    LineHasItsGradient(l, c, g);
    SameGradient(s, l);
  }

  lemma FittedY(s: seq<real>, l: seq<real>, c: real, g: real)
    requires |s| == |l| >= 1 && IsLine(l, c, g) && c == Intercept(s, g)
    ensures SumY(l) == SumY(s)
  {
    LineSumY(l, c, g);
    InterceptMeets(s, c, g, SumY(l));
  }

  lemma InterceptMeets(s: seq<real>, c: real, g: real, ly: real)
    requires |s| >= 1 && c == Intercept(s, g) && ly == c * |s| as real + g * SumX(|s|)
    ensures ly == SumY(s)
  {
    InterceptTimes(SumY(s), SumX(|s|), g, |s| as real, c, ly);
  }

  lemma InterceptTimes(y: real, x: real, g: real, n: real, c: real, ly: real)
    requires n > 0.0 && c == (y - g * x) / n && ly == c * n + g * x
    ensures ly == y
  {
    QuotientTimes(y - g * x, n, c);
  }

  lemma SameGradient(s: seq<real>, l: seq<real>)
    requires |s| == |l| >= 2 && Gradient(l) == Gradient(s) && SumY(l) == SumY(s)
    ensures SumXY(l) == SumXY(s)
  {
    GradientIsQuotient(s);
    GradientIsQuotient(l);
    SameQuotient(Numerator(s), Numerator(l), Denominator(|s|));
    SameNumerator(s, l);
  }

  lemma SameQuotient(a: real, b: real, d: real)
    requires d > 0.0 && a / d == b / d
    ensures a == b
  {
    QuotientTimes(a, d, a / d);
    QuotientTimes(b, d, b / d);
  }

  lemma SameNumerator(s: seq<real>, l: seq<real>)
    requires |s| == |l| >= 1 && Numerator(l) == Numerator(s) && SumY(l) == SumY(s)
    ensures SumXY(l) == SumXY(s)
  {
    SameProduct(|s| as real, SumX(|s|), SumY(s), SumXY(s), |l| as real, SumX(|l|), SumY(l), SumXY(l));
  }

  lemma SameProduct(n: real, x: real, y: real, xy: real, n': real, x': real, y': real, xy': real)
    requires n == n' > 0.0 && x == x' && y == y' && n * xy - x * y == n' * xy' - x' * y'
    ensures xy == xy'
  {
    ZeroProduct(n, xy - xy');
  }

  lemma QuotientTimes(a: real, d: real, q: real)
    requires d > 0.0 && q == a / d
    ensures q * d == a
  {
  }

  lemma ZeroProduct(n: real, z: real)
    requires n > 0.0 && n * z == 0.0
    ensures z == 0.0
  {
  }

  /** No line fits a series better than the one with its slope, put through the mean point. */
  lemma SlopeIsLeastSquares(s: seq<real>, a: real, b: real)
    requires |s| >= 2
    ensures SquaredError(s, Intercept(s, Gradient(s)), Gradient(s)) <= SquaredError(s, a, b)
  {
    var g := Gradient(s);
    var c := Intercept(s, g);
    var e := Errors(s, c, g);
    NormalEquations(s, e);
    ErrorsDiffer(s, c, g, a, b);
    TiltIsNoBetter(e, Errors(s, a, b), Line(|s|, a - c, b - g), a - c, b - g);
  }

  /** The errors from two lines differ by a line. */
  lemma ErrorsDiffer(s: seq<real>, c: real, g: real, a: real, b: real)
    ensures forall i :: 0 <= i < |s| ==> Errors(s, a, b)[i] == Errors(s, c, g)[i] - Line(|s|, a - c, b - g)[i]
  {
    forall i | 0 <= i < |s| ensures Errors(s, a, b)[i] == Errors(s, c, g)[i] - Line(|s|, a - c, b - g)[i] {
      Difference(b, g, i as real);
    }
  }

  lemma Difference(b: real, g: real, i: real)
    ensures (b - g) * i == b * i - g * i
  {
  }

  lemma TiltIsNoBetter(e: seq<real>, d: seq<real>, l: seq<real>, p: real, q: real)
    requires |e| == |l| == |d| && IsLine(l, p, q) && SumY(e) == 0.0 && SumXY(e) == 0.0
    requires forall i :: 0 <= i < |e| ==> d[i] == e[i] - l[i]
    ensures SumYY(e) <= SumYY(d)
  {
    LessSquares(d, e, l);
    DotWithLine(e, l, p, q);
    SquaresNonNegative(l);
  }

  // ---------------------------------------------------------------- a series with NaNs in it

  /** The numbers of a series never fall, or never rise, in order of index. */
  ghost predicate NeverFalls(values: seq<Float>) {
    forall i, j :: 0 <= i < j < |values| && values[i].Num? && values[j].Num? ==> values[i].v <= values[j].v
  }

  ghost predicate NeverRises(values: seq<Float>) {
    forall i, j :: 0 <= i < j < |values| && values[i].Num? && values[j].Num? ==> values[i].v >= values[j].v
  }

  ghost predicate Differ(values: seq<Float>, i: nat, j: nat) {
    i < |values| && j < |values| && values[i].Num? && values[j].Num? && values[i].v != values[j].v
  }

  /** Dropping the NaNs keeps the numbers in their order: any two that are left stood in that order. */
  lemma {:induction false} CleanKeepsOrder(values: seq<Float>, a: nat, b: nat) returns (i: nat, j: nat)
    requires a < b < |Clean(values)|
    ensures i < j < |values| && values[i] == Num(Clean(values)[a]) && values[j] == Num(Clean(values)[b])
  {
    var k := |values| - 1;
    if b < |Clean(values[..k])| {
      i, j := CleanKeepsOrder(values[..k], a, b);
    } else {
      i := CleanHas(values[..k], a);
      j := k;
    }
  }

  lemma {:induction false} CleanHas(values: seq<Float>, a: nat) returns (i: nat)
    requires a < |Clean(values)|
    ensures i < |values| && values[i] == Num(Clean(values)[a])
  {
    var k := |values| - 1;
    if a < |Clean(values[..k])| {
      i := CleanHas(values[..k], a);
    } else {
      i := k;
    }
  }

  lemma {:induction false} CleanKeeps(values: seq<Float>, i: nat) returns (a: nat)
    requires i < |values| && values[i].Num?
    ensures a < |Clean(values)| && Clean(values)[a] == values[i].v
  {
    var k := |values| - 1;
    if i < k {
      a := CleanKeeps(values[..k], i);
    } else {
      a := |Clean(values[..k])|;
    }
  }

  /** Two different numbers leave the cleaned series with different ends, if it rises or falls. */
  lemma EndsDiffer(values: seq<Float>, i: nat, j: nat)
    requires Differ(values, i, j)
    ensures |Clean(values)| >= 2
    ensures Rising(Clean(values)) || Falling(Clean(values)) ==> Clean(values)[0] != Clean(values)[|Clean(values)| - 1]
  {
    var s := Clean(values);
    var a := CleanKeeps(values, i);
    var b := CleanKeeps(values, j);
    var n := |s| - 1;
    if Rising(s) {
      assert s[0] <= s[a] <= s[n] && s[0] <= s[b] <= s[n];
    } else if Falling(s) {
      assert s[0] >= s[a] >= s[n] && s[0] >= s[b] >= s[n];
    }
  }

  /** The documented meaning, on the input itself: the slope of a series whose numbers never fall, and are
      not all equal, is positive, wherever there are NaNs between them. */
  lemma RisingSeriesIsPositive(values: seq<Float>, i: nat, j: nat)
    requires NeverFalls(values) && Differ(values, i, j)
    ensures Gradient(Clean(values)) > 0.0
  {
    var s := Clean(values);
    forall a, b | 0 <= a < b < |s| ensures s[a] <= s[b] {
      var x, y := CleanKeepsOrder(values, a, b);
    }
    EndsDiffer(values, i, j);
    RisingIsPositive(s);
  }

  lemma FallingSeriesIsNegative(values: seq<Float>, i: nat, j: nat)
    requires NeverRises(values) && Differ(values, i, j)
    ensures Gradient(Clean(values)) < 0.0
  {
    var s := Clean(values);
    forall a, b | 0 <= a < b < |s| ensures s[a] >= s[b] {
      var x, y := CleanKeepsOrder(values, a, b);
    }
    EndsDiffer(values, i, j);
    FallingIsNegative(s);
  }

  /** A series without NaNs is cleaned to itself. */
  lemma {:induction false} CleanOfNumbers(values: seq<Float>)
    requires forall i :: 0 <= i < |values| ==> values[i].Num?
    ensures |Clean(values)| == |values| && forall i :: 0 <= i < |values| ==> Clean(values)[i] == values[i].v
  {
    if values == [] {
    } else {
      CleanOfNumbers(values[..|values| - 1]);
    }
  }

  lemma LinearSeriesHasItsGradient(values: seq<Float>, a: real, b: real)
    requires |values| >= 2 && forall i :: 0 <= i < |values| ==> values[i] == Num(a + b * i as real)
    ensures Gradient(Clean(values)) == b
  {
    CleanOfLine(values, a, b);
    LineHasItsGradient(Clean(values), a, b);
  }

  lemma CleanOfLine(values: seq<Float>, a: real, b: real)
    requires forall i :: 0 <= i < |values| ==> values[i] == Num(a + b * i as real)
    ensures |Clean(values)| == |values| && IsLine(Clean(values), a, b)
  {
    CleanOfNumbers(values);
  }

  /** Fewer than two numbers have no slope. */
  lemma TooFewHaveNone(values: seq<Float>, only: nat)
    requires forall i :: 0 <= i < |values| && values[i].Num? ==> i == only
    ensures Gradient(Clean(values)) == 0.0
  {
    if |Clean(values)| >= 2 {
      var i, j := CleanKeepsOrder(values, 0, 1);
    }
  }

  // ---------------------------------------------------------------- percentile

  function Insert(sorted: seq<real>, v: real): (t: seq<real>)
    ensures |t| == |sorted| + 1
  {
    if sorted == [] then [v]
    else if sorted[|sorted| - 1] <= v then sorted + [v]
    else Insert(sorted[..|sorted| - 1], v) + [sorted[|sorted| - 1]]
  }

  /** The library sort. */
  function Sort(s: seq<real>): (t: seq<real>)
    ensures |t| == |s|
  {
    if s == [] then [] else Insert(Sort(s[..|s| - 1]), s[|s| - 1])
  }

  lemma {:induction false} InsertRises(sorted: seq<real>, v: real, top: real)
    requires Rising(sorted) && (forall i :: 0 <= i < |sorted| ==> sorted[i] <= top) && v <= top
    ensures Rising(Insert(sorted, v)) && forall i :: 0 <= i <= |sorted| ==> Insert(sorted, v)[i] <= top
  {
    if sorted != [] && sorted[|sorted| - 1] > v {
      InsertRises(sorted[..|sorted| - 1], v, sorted[|sorted| - 1]);
    }
  }

  lemma {:induction false} InsertKeeps(sorted: seq<real>, v: real)
    ensures multiset(Insert(sorted, v)) == multiset(sorted) + multiset{v}
  {
    if sorted != [] && sorted[|sorted| - 1] > v {
      InsertKeeps(sorted[..|sorted| - 1], v);
      assert sorted == sorted[..|sorted| - 1] + [sorted[|sorted| - 1]];
    }
  }

  lemma {:induction false} SortSorts(s: seq<real>)
    ensures Rising(Sort(s)) && multiset(Sort(s)) == multiset(s)
  {
    if s == [] {
    } else {
      var k := |s| - 1;
      SortSorts(s[..k]);
      InsertSorts(Sort(s[..k]), s[k]);
      assert s == s[..k] + [s[k]];
    }
  }

  lemma InsertSorts(t: seq<real>, v: real)
    requires Rising(t)
    ensures Rising(Insert(t, v)) && multiset(Insert(t, v)) == multiset(t) + multiset{v}
  {
    InsertRises(t, v, if t == [] || t[|t| - 1] <= v then v else t[|t| - 1]);
    InsertKeeps(t, v);
  }

  function Mix(x: real, y: real, t: real): real {
    x + (y - x) * t
  }

  /** Linear interpolation at a position between the first and the last element. */
  function At(c: seq<real>, pos: real): real
    requires |c| > 0 && 0.0 <= pos <= (|c| - 1) as real
  {
    var lower := pos.Floor;
    if lower as real == pos then c[lower] else Mix(c[lower], c[lower + 1], pos - lower as real)
  }

  function Position(p: real, n: int): real {
    p * n as real
  }

  function PercentileOf(c: seq<real>, p: real): real {
    if |c| == 0 then 0.0
    else if p <= 0.0 then c[0]
    else if p >= 1.0 then c[|c| - 1]
    else
      PositionMonotone(p, p, |c| - 1);
      At(c, Position(p, |c| - 1))
  }

  lemma PositionMonotone(p: real, q: real, n: int)
    requires 0.0 <= p <= q <= 1.0 && n >= 0
    ensures 0.0 <= Position(p, n) <= Position(q, n) <= n as real
  {
    ProductsOrdered(p, q, n as real);
  }

  lemma ProductsOrdered(p: real, q: real, n: real)
    requires 0.0 <= p <= q <= 1.0 && n >= 0.0
    ensures 0.0 <= p * n <= q * n <= n
  {
    assert p * n >= 0.0;
    assert (q - p) * n >= 0.0;
    assert (1.0 - q) * n >= 0.0;
  }

  /** The input is an array the method may not modify. */
  method Percentile(values: array<Float>, p: real) returns (r: real)
    ensures r == PercentileOf(Sort(Clean(values[..])), p)
  {
    var clean := DropNaNs(values[..]);
    r := PercentileOfClean(clean, p);
  }

  method PercentileOfClean(values: seq<real>, p: real) returns (r: real)
    ensures r == PercentileOf(Sort(values), p)
  {
    if |values| == 0 {
      return 0.0;
    }
    var clean := Sort(values);
    if p <= 0.0 {
      return clean[0];
    } else if p >= 1.0 {
      return clean[|clean| - 1];
    }
    PositionMonotone(p, p, |clean| - 1);
    r := Interpolate(clean, Position(p, |clean| - 1));
  }

  method Interpolate(clean: seq<real>, pos: real) returns (r: real)
    requires |clean| > 0 && 0.0 <= pos <= (|clean| - 1) as real
    ensures r == At(clean, pos)
  {
    var lower := pos.Floor;
    var upper := -((-pos).Floor);
    if lower == upper {
      return clean[lower];
    }
    assert upper == lower + 1;
    return clean[lower] + (clean[upper] - clean[lower]) * (pos - lower as real);
  }

  lemma Mixed(x: real, y: real, t: real, u: real)
    requires x <= y && 0.0 <= t <= u <= 1.0
    ensures x <= Mix(x, y, t) <= Mix(x, y, u) <= y
  {
    MixedBy(y - x, t, u);
  }

  lemma MixedBy(d: real, t: real, u: real)
    requires 0.0 <= d && 0.0 <= t <= u <= 1.0
    ensures 0.0 <= d * t <= d * u <= d
  {
    assert d * (u - t) >= 0.0;
    assert d * (1.0 - u) >= 0.0;
  }

  /** Interpolation lies between its neighbours. */
  lemma AtBetween(c: seq<real>, pos: real)
    requires Rising(c) && |c| > 0 && 0.0 <= pos <= (|c| - 1) as real
    ensures c[pos.Floor] <= At(c, pos)
    ensures pos.Floor + 1 < |c| ==> At(c, pos) <= c[pos.Floor + 1]
    ensures c[0] <= At(c, pos) <= c[|c| - 1]
  {
    var lower := pos.Floor;
    if lower as real != pos {
      assert c[lower] <= c[lower + 1];
      Mixed(c[lower], c[lower + 1], pos - lower as real, pos - lower as real);
    }
  }

  lemma AtMonotone(c: seq<real>, pos: real, pos': real)
    requires Rising(c) && |c| > 0 && 0.0 <= pos <= pos' <= (|c| - 1) as real
    ensures At(c, pos) <= At(c, pos')
  {
    var lower := pos.Floor;
    AtBetween(c, pos);
    AtBetween(c, pos');
    if lower == pos'.Floor {
      if lower as real != pos {
        Mixed(c[lower], c[lower + 1], pos - lower as real, pos' - lower as real);
      }
    } else {
      assert c[lower + 1] <= c[pos'.Floor];
    }
  }

  lemma SortedInRange(c: seq<real>, p: real)
    requires Rising(c) && |c| > 0
    ensures c[0] <= PercentileOf(c, p) <= c[|c| - 1]
  {
    if 0.0 < p < 1.0 {
      PositionMonotone(p, p, |c| - 1);
      AtBetween(c, Position(p, |c| - 1));
    }
  }

  lemma SortedMonotone(c: seq<real>, p: real, q: real)
    requires Rising(c) && p <= q
    ensures PercentileOf(c, p) <= PercentileOf(c, q)
  {
    if |c| > 0 {
      if p <= 0.0 {
        SortedInRange(c, q);
      } else if q >= 1.0 {
        SortedInRange(c, p);
      } else {
        PositionMonotone(p, q, |c| - 1);
        AtMonotone(c, Position(p, |c| - 1), Position(q, |c| - 1));
      }
    }
  }

  ghost predicate Smallest(lo: real, s: seq<real>) {
    lo in s && forall v :: v in s ==> lo <= v
  }

  ghost predicate Largest(hi: real, s: seq<real>) {
    hi in s && forall v :: v in s ==> v <= hi
  }

  /** Sorting brings the smallest value to the front and the largest to the end. */
  lemma SortedEnds(s: seq<real>, lo: real, hi: real)
    requires Smallest(lo, s) && Largest(hi, s)
    ensures Sort(s) != [] && Rising(Sort(s)) && Sort(s)[0] == lo && Sort(s)[|s| - 1] == hi
  {
    SortSorts(s);
    var t := Sort(s);
    SameElements(s, t);
    var i :| 0 <= i < |t| && t[i] == lo;
    var j :| 0 <= j < |t| && t[j] == hi;
    assert t[0] in t && t[|t| - 1] in t;
  }

  /** The percentile lies between the smallest and the largest value that is not NaN, and meets them at
      and beyond the ends. */
  lemma PercentileInRange(values: seq<Float>, p: real, lo: real, hi: real)
    requires Smallest(lo, Clean(values)) && Largest(hi, Clean(values))
    ensures lo <= PercentileOf(Sort(Clean(values)), p) <= hi
    ensures p <= 0.0 ==> PercentileOf(Sort(Clean(values)), p) == lo
    ensures p >= 1.0 ==> PercentileOf(Sort(Clean(values)), p) == hi
  {
    SortedEnds(Clean(values), lo, hi);
    SortedInRange(Sort(Clean(values)), p);
  }

  /** A larger p never gives a smaller percentile. */
  lemma PercentileMonotone(values: seq<Float>, p: real, q: real)
    requires p <= q
    ensures PercentileOf(Sort(Clean(values)), p) <= PercentileOf(Sort(Clean(values)), q)
  {
    SortSorts(Clean(values));
    SortedMonotone(Sort(Clean(values)), p, q);
  }

  /** How many values are below x, and how many are not above it. */
  function Below(s: seq<real>, x: real): nat {
    if s == [] then 0 else Below(s[..|s| - 1], x) + if s[|s| - 1] < x then 1 else 0
  }

  function UpTo(s: seq<real>, x: real): nat {
    if s == [] then 0 else UpTo(s[..|s| - 1], x) + if s[|s| - 1] <= x then 1 else 0
  }

  lemma {:induction false} InsertCounts(sorted: seq<real>, v: real, x: real)
    ensures Below(Insert(sorted, v), x) == Below(sorted, x) + if v < x then 1 else 0
    ensures UpTo(Insert(sorted, v), x) == UpTo(sorted, x) + if v <= x then 1 else 0
  {
    if sorted == [] {
      assert [v][..0] == [];
    } else if sorted[|sorted| - 1] <= v {
      assert (sorted + [v])[..|sorted|] == sorted;
    } else {
      var k := |sorted| - 1;
      InsertCounts(sorted[..k], v, x);
      var t := Insert(sorted[..k], v);
      assert (t + [sorted[k]])[..|t|] == t;
    }
  }

  lemma {:induction false} SortCounts(s: seq<real>, x: real)
    ensures Below(Sort(s), x) == Below(s, x) && UpTo(Sort(s), x) == UpTo(s, x)
  {
    if s == [] {
    } else {
      SortCounts(s[..|s| - 1], x);
      InsertCounts(Sort(s[..|s| - 1]), s[|s| - 1], x);
    }
  }

  lemma {:induction false} SortedCounts(c: seq<real>, k: nat)
    requires Rising(c) && k < |c|
    ensures Below(c, c[k]) <= k < UpTo(c, c[k])
  {
    var n := |c| - 1;
    if k < n {
      SortedCounts(c[..n], k);
      assert c[k] <= c[n];
    } else {
      BelowAtMost(c[..n], c[k]);
      AllUpTo(c[..n], c[k]);
    }
  }

  lemma {:induction false} BelowAtMost(s: seq<real>, x: real)
    ensures Below(s, x) <= |s|
  {
    if s == [] {
    } else {
      BelowAtMost(s[..|s| - 1], x);
    }
  }

  lemma {:induction false} AllUpTo(s: seq<real>, x: real)
    requires forall i :: 0 <= i < |s| ==> s[i] <= x
    ensures UpTo(s, x) == |s|
  {
    if s == [] {
    } else {
      AllUpTo(s[..|s| - 1], x);
    }
  }

  /** At the k-th of n - 1 equal steps the percentile is the k-th order statistic: one of the values, at
      most k of them below it and more than k not above it. */
  lemma PercentileIsOrderStatistic(values: seq<Float>, k: nat)
    requires |Clean(values)| >= 2 && k < |Clean(values)|
    ensures var s := Clean(values); var r := PercentileOf(Sort(s), k as real / (|s| - 1) as real);
            r in s && Below(s, r) <= k < UpTo(s, r)
  {
    OrderStatistic(Clean(values), k);
    SortedOrderStatistic(Sort(Clean(values)), k, |Clean(values)|);
  }

  lemma OrderStatistic(s: seq<real>, k: nat)
    requires k < |s|
    ensures Sort(s)[k] in s && Below(s, Sort(s)[k]) <= k < UpTo(s, Sort(s)[k])
  {
    SortSorts(s);
    SameElements(s, Sort(s));
    SortedCounts(Sort(s), k);
    SortCounts(s, Sort(s)[k]);
  }

  lemma SortedOrderStatistic(c: seq<real>, k: nat, n: nat)
    requires |c| == n >= 2 && k < n
    ensures PercentileOf(c, k as real / (n - 1) as real) == c[k]
  {
    StepPosition(k as real, (n - 1) as real);
    assert Position(k as real / (n - 1) as real, n - 1) == k as real;
  }

  /** Between two neighbouring order statistics the percentile goes in a straight line: at the position
      k + t, counted from 0 to n - 1, it is the mean of the k-th and the next, weighted by 1 - t and t. */
  lemma PercentileInterpolates(values: seq<Float>, s: seq<real>, p: real, k: nat, t: real)
    requires s == Sort(Clean(values)) && k + 1 < |s| && 0.0 <= t <= 1.0 && p * (|s| - 1) as real == k as real + t
    ensures PercentileOf(s, p) == (1.0 - t) * s[k] + t * s[k + 1]
  {
    PercentileIsAt(s, p, k as real + t);
    AtMixes(s, k as real + t, k, t);
  }

  lemma PercentileIsAt(c: seq<real>, p: real, pos: real)
    requires |c| >= 2 && 0.0 <= pos <= (|c| - 1) as real && p * (|c| - 1) as real == pos
    ensures PercentileOf(c, p) == At(c, pos)
  {
    WithinUnit(p, (|c| - 1) as real, pos);
    if 0.0 < p < 1.0 {
      assert Position(p, |c| - 1) == pos;
    }
  }

  lemma WithinUnit(p: real, n: real, pos: real)
    requires n > 0.0 && p * n == pos && 0.0 <= pos <= n
    ensures p <= 0.0 ==> pos == 0.0
    ensures p >= 1.0 ==> pos == n
  {
    if p <= 0.0 {
      assert p * n <= 0.0;
    } else if p >= 1.0 {
      assert (p - 1.0) * n >= 0.0;
    }
  }

  lemma AtMixes(c: seq<real>, pos: real, k: nat, t: real)
    requires k + 1 < |c| && 0.0 <= t <= 1.0 && pos == k as real + t
    ensures At(c, pos) == (1.0 - t) * c[k] + t * c[k + 1]
    ensures pos == 0.0 ==> At(c, pos) == c[0]
    ensures pos == (|c| - 1) as real ==> At(c, pos) == c[|c| - 1]
  {
    MixIs(c[k], c[k + 1], t);
    if t == 1.0 {
      assert pos.Floor == k + 1;
    } else {
      assert pos.Floor == k;
    }
  }

  lemma MixIs(x: real, y: real, t: real)
    ensures Mix(x, y, t) == (1.0 - t) * x + t * y
  {
  }

  lemma StepPosition(k: real, n: real)
    requires 0.0 <= k <= n && n > 0.0
    ensures (k / n) * n == k
    ensures k / n <= 0.0 <==> k == 0.0
    ensures k / n >= 1.0 <==> k == n
  {
  }

  lemma SameLast(s: seq<real>, t: seq<real>)
    requires Rising(s) && Rising(t) && |s| > 0 && |t| > 0 && forall v :: v in s <==> v in t
    ensures s[|s| - 1] == t[|t| - 1]
  {
    assert s[|s| - 1] in s && t[|t| - 1] in t;
    assert s[|s| - 1] in t && t[|t| - 1] in s;
  }

  lemma DropLast(s: seq<real>, t: seq<real>)
    requires s != [] && t != [] && multiset(s) == multiset(t) && s[|s| - 1] == t[|t| - 1]
    ensures multiset(s[..|s| - 1]) == multiset(t[..|t| - 1])
  {
    assert s == s[..|s| - 1] + [s[|s| - 1]];
    assert t == t[..|t| - 1] + [t[|t| - 1]];
    assert multiset(s[..|s| - 1]) == multiset(s) - multiset{s[|s| - 1]};
    assert multiset(t[..|t| - 1]) == multiset(t) - multiset{t[|t| - 1]};
  }

  lemma SameElements(s: seq<real>, t: seq<real>)
    requires multiset(s) == multiset(t)
    ensures |s| == |t| && forall v :: v in s <==> v in t
  {
    assert |multiset(s)| == |s| && |multiset(t)| == |t|;
    forall v ensures v in s <==> v in t {
      assert v in s <==> v in multiset(s);
      assert v in t <==> v in multiset(t);
    }
  }

  lemma {:induction false} RisingUnique(s: seq<real>, t: seq<real>)
    requires Rising(s) && Rising(t) && multiset(s) == multiset(t)
    ensures s == t
  {
    SameElements(s, t);
    if s != [] {
      var k := |s| - 1;
      SameLast(s, t);
      DropLast(s, t);
      RisingUnique(s[..k], t[..k]);
      assert s == s[..k] + [s[k]] && t == t[..k] + [t[k]];
    }
  }

  /** The percentile depends only on which numbers there are: not on their order, nor on any NaNs. */
  lemma PercentileIgnoresOrderAndNaNs(values: seq<Float>, values': seq<Float>, p: real)
    requires forall v: real :: multiset(values)[Num(v)] == multiset(values')[Num(v)]
    ensures PercentileOf(Sort(Clean(values)), p) == PercentileOf(Sort(Clean(values')), p)
  {
    SortSorts(Clean(values));
    SortSorts(Clean(values'));
    forall v: real ensures multiset(Clean(values))[v] == multiset(Clean(values'))[v] {
      CleanCounts(values, v);
      CleanCounts(values', v);
    }
    assert multiset(Clean(values)) == multiset(Clean(values'));
    RisingUnique(Sort(Clean(values)), Sort(Clean(values')));
  }

  lemma {:induction false} CleanCounts(values: seq<Float>, v: real)
    ensures multiset(Clean(values))[v] == multiset(values)[Num(v)]
  {
    if values == [] {
    } else {
      var k := |values| - 1;
      CleanCounts(values[..k], v);
      assert values == values[..k] + [values[k]];
    }
  }
}
