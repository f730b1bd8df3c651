/**
 The traffic trend: the slope of the line fitted to the window of request
 rates. The code computes it from running sums; it is characterised here by
 the pairs of samples, and shown to be the slope that fits best. Samples are
 reals: the rounding of the code's floats is not part of this model.
 */
module Trend {
  import opened Limits
  import opened RollingWindow
  import opened Sorting

  // ---------------------------------------------------------------------------
  // The running sums
  // ---------------------------------------------------------------------------

  function SumX(n: nat): real {
    if n == 0 then 0.0 else SumX(n - 1) + (n - 1) as real
  }

  function SumX2(n: nat): real {
    if n == 0 then 0.0 else SumX2(n - 1) + Times((n - 1) as real, (n - 1) as real)
  }

  function SumY(s: seq<real>): real {
    if s == [] then 0.0 else SumY(s[..|s| - 1]) + s[|s| - 1]
  }

  function SumXY(s: seq<real>): real {
    if s == [] then 0.0 else SumXY(s[..|s| - 1]) + Times(|s[..|s| - 1]| as real, s[|s| - 1])
  }

  /** The numerator of the slope, from the number of samples and their sums. */
  function SlopeOf(n: real, sx: real, sy: real, sxy: real): real {
    n * sxy - sx * sy
  }

  function Numerator(s: seq<real>): real {
    SlopeOf(|s| as real, SumX(|s|), SumY(s), SumXY(s))
  }

  function SpreadOf(n: real, sx: real, sx2: real): real {
    n * sx2 - sx * sx
  }

  function Denominator(n: nat): real {
    SpreadOf(n as real, SumX(n), SumX2(n))
  }

  function Ratio(a: real, b: real): real {
    if b == 0.0 then 0.0 else a / b
  }

  function Slope(s: seq<real>): real {
    if |s| < 3 then 0.0 else Ratio(Numerator(s), Denominator(|s|))
  }

  method Sums(vals: seq<real>) returns (sumX: real, sumY: real, sumXY: real, sumX2: real)
    ensures sumX == SumX(|vals|) && sumX2 == SumX2(|vals|) && sumY == SumY(vals) && sumXY == SumXY(vals)
  {
    sumX, sumY, sumXY, sumX2 := 0.0, 0.0, 0.0, 0.0;
    for i := 0 to |vals|
      invariant sumX == SumX(i) && sumX2 == SumX2(i)
      invariant sumY == SumY(vals[..i]) && sumXY == SumXY(vals[..i])
    {
      var x, y := i as real, vals[i];
      assert vals[..i + 1][..i] == vals[..i];
      sumX := sumX + x;
      sumY := sumY + y;
      sumXY := sumXY + Times(x, y);
      sumX2 := sumX2 + Times(x, x);
    }
    assert vals[..|vals|] == vals;
  }

  lemma SlopeIs(s: seq<real>)
    requires |s| >= 3
    ensures Slope(s) == Ratio(SlopeOf(|s| as real, SumX(|s|), SumY(s), SumXY(s)),
                              SpreadOf(|s| as real, SumX(|s|), SumX2(|s|)))
  {
  }

  method SlopeFromSums(vals: seq<real>) returns (r: real)
    requires |vals| >= 3
    ensures r == Slope(vals)
  {
    SlopeIs(vals);
    hide *;
    var sumX, sumY, sumXY, sumX2 := Sums(vals);
    var nf := |vals| as real;
    var denom := SpreadOf(nf, sumX, sumX2);
    r := Ratio(SlopeOf(nf, sumX, sumY, sumXY), denom);
  }

  /** The slope over a window, from one pass over its samples. */
  method ComputeRPSTrend(window: RollingWindow) returns (r: real)
    requires window.Valid()
    ensures r == Slope(Last(window.history, window.size))
  {
    var vals := window.Values();
    if vals.Length < 3 {
      return 0.0;
    }
    r := SlopeFromSums(vals[..]);
  }

  // ---------------------------------------------------------------------------
  // Closed forms
  // ---------------------------------------------------------------------------

  lemma {:induction false} SumXIs(n: nat)
    ensures 2.0 * SumX(n) == n as real * (n as real - 1.0)
  {
    if n == 0 {
    } else {
      SumXIs(n - 1);
    }
  }

  lemma {:induction false} SumX2Is(n: nat)
    ensures 6.0 * SumX2(n) == n as real * (n as real - 1.0) * (2.0 * n as real - 1.0)
  {
    if n == 0 {
    } else {
      SumX2Is(n - 1);
      var m := n as real - 1.0;
      assert m * (m - 1.0) * (2.0 * m - 1.0) + 6.0 * m * m == (m + 1.0) * m * (2.0 * m + 1.0);
    }
  }

  /** The denominator is n²(n²-1)/12, so the code's guard against zero never fires. */
  lemma DenominatorIs(n: nat)
    ensures 12.0 * Denominator(n) == n as real * n as real * (n as real * n as real - 1.0)
    ensures n >= 2 ==> Denominator(n) > 0.0
  {
    var x := n as real;
    SumXIs(n);
    SumX2Is(n);
    assert 12.0 * (x * SumX2(n)) == 2.0 * x * (x * (x - 1.0) * (2.0 * x - 1.0));
    assert 4.0 * (SumX(n) * SumX(n)) == (x * (x - 1.0)) * (x * (x - 1.0));
    assert 2.0 * x * (x * (x - 1.0) * (2.0 * x - 1.0)) - 3.0 * ((x * (x - 1.0)) * (x * (x - 1.0)))
        == x * x * (x * x - 1.0);
    if n >= 2 {
      assert x * x >= 4.0;
      assert x * x * (x * x - 1.0) > 0.0;
    }
  }

  // ---------------------------------------------------------------------------
  // Pairs of samples
  // ---------------------------------------------------------------------------

  /** The sum over `i` of `(x - i) * (y - s[i])`. */
  function Against(s: seq<real>, x: real, y: real): real {
    if s == [] then 0.0
    else Against(s[..|s| - 1], x, y) + Times(x - |s[..|s| - 1]| as real, y - s[|s| - 1])
  }

  /** The sum over all pairs `i < j` of `(j - i) * (s[j] - s[i])`. */
  function Pairs(s: seq<real>): real {
    if s == [] then 0.0 else Pairs(s[..|s| - 1]) + Against(s[..|s| - 1], |s[..|s| - 1]| as real, s[|s| - 1])
  }

  lemma SumsSnoc(s: seq<real>)
    requires s != []
    ensures var rest, z := s[..|s| - 1], s[|s| - 1];
      && |s| as real == |rest| as real + 1.0
      && SumX(|s|) == SumX(|rest|) + |rest| as real
      && SumX2(|s|) == SumX2(|rest|) + Times(|rest| as real, |rest| as real)
      && SumY(s) == SumY(rest) + z
      && SumXY(s) == SumXY(rest) + Times(|rest| as real, z)
  {
  }

  function AgainstOf(n: real, x: real, y: real, sx: real, sy: real, sxy: real): real {
    n * x * y - x * sy - y * sx + sxy
  }

  lemma AgainstStep(m: real, x: real, y: real, z: real, sx: real, sy: real, sxy: real)
    ensures AgainstOf(m, x, y, sx, sy, sxy) + Times(x - m, y - z)
         == AgainstOf(m + 1.0, x, y, sx + m, sy + z, sxy + Times(m, z))
  {
    assert (m + 1.0) * x * y == m * x * y + x * y;
  }

  lemma {:induction false} AgainstIs(s: seq<real>, x: real, y: real)
    ensures Against(s, x, y) == AgainstOf(|s| as real, x, y, SumX(|s|), SumY(s), SumXY(s))
  {
    if s == [] {
    } else {
      var rest := s[..|s| - 1];
      AgainstIs(rest, x, y);
      SumsSnoc(s);
      assert Against(s, x, y) == Against(rest, x, y) + Times(x - |rest| as real, y - s[|s| - 1]);
      hide *;
      AgainstStep(|rest| as real, x, y, s[|s| - 1], SumX(|rest|), SumY(rest), SumXY(rest));
    }
  }

  lemma PairsStep(m: real, y: real, sx: real, sy: real, sxy: real)
    ensures SlopeOf(m, sx, sy, sxy) + AgainstOf(m, m, y, sx, sy, sxy)
         == SlopeOf(m + 1.0, sx + m, sy + y, sxy + Times(m, y))
  {
    assert (m + 1.0) * (sxy + m * y) == m * sxy + m * m * y + sxy + m * y;
    assert (sx + m) * (sy + y) == sx * sy + sx * y + m * sy + m * y;
  }

  /** Chebyshev's identity: the numerator is the sum over the pairs. */
  lemma {:induction false} NumeratorIsPairs(s: seq<real>)
    ensures Numerator(s) == Pairs(s)
  {
    if s == [] {
    } else {
      var rest, y := s[..|s| - 1], s[|s| - 1];
      assert Pairs(s) == Pairs(rest) + Against(rest, |rest| as real, y);
      hide *;
      NumeratorIsPairs(rest);
      SumsSnoc(s);
      AgainstIs(rest, |rest| as real, y);
      NumeratorIs(rest);
      NumeratorIs(s);
      PairsStep(|rest| as real, y, SumX(|rest|), SumY(rest), SumXY(rest));
    }
  }

  lemma SignOfProduct(d: real, e: real)
    requires d >= 0.0
    ensures (e >= 0.0 ==> Times(d, e) >= 0.0) && (e <= 0.0 ==> Times(d, e) <= 0.0)
  {
  }

  lemma {:induction false} AgainstSign(s: seq<real>, x: real, y: real)
    requires |s| as real <= x + 1.0
    ensures (forall i :: 0 <= i < |s| ==> s[i] <= y) ==> Against(s, x, y) >= 0.0
    ensures (forall i :: 0 <= i < |s| ==> s[i] >= y) ==> Against(s, x, y) <= 0.0
  {
    if s == [] {
    } else {
      var rest := s[..|s| - 1];
      assert Against(s, x, y) == Against(rest, x, y) + Times(x - |rest| as real, y - s[|s| - 1]);
      hide *;
      AgainstSign(rest, x, y);
      SignOfProduct(x - |rest| as real, y - s[|s| - 1]);
      assert forall i :: 0 <= i < |rest| ==> rest[i] == s[i];
    }
  }

  ghost predicate NonIncreasing(s: seq<real>) {
    forall i, j :: 0 <= i < j < |s| ==> s[i] >= s[j]
  }

  lemma {:induction false} PairsSign(s: seq<real>)
    ensures NonDecreasing(s) ==> Pairs(s) >= 0.0
    ensures NonIncreasing(s) ==> Pairs(s) <= 0.0
  {
    if s == [] {
    } else {
      PairsSign(s[..|s| - 1]);
      AgainstSign(s[..|s| - 1], |s[..|s| - 1]| as real, s[|s| - 1]);
    }
  }

  lemma DivideSign(a: real, b: real)
    requires b > 0.0
    ensures (a >= 0.0 <==> a / b >= 0.0) && (a <= 0.0 <==> a / b <= 0.0)
  {
  }

  /** The trend has the sign of the traffic. */
  lemma SlopeSign(s: seq<real>)
    ensures NonDecreasing(s) ==> Slope(s) >= 0.0
    ensures NonIncreasing(s) ==> Slope(s) <= 0.0
  {
    DenominatorIs(|s|);
    NumeratorIsPairs(s);
    PairsSign(s);
    if |s| >= 3 {
      DivideSign(Numerator(s), Denominator(|s|));
    }
  }

  // ---------------------------------------------------------------------------
  // Reversal
  // ---------------------------------------------------------------------------

  function Reversed(s: seq<real>): seq<real> {
    if s == [] then [] else [s[|s| - 1]] + Reversed(s[..|s| - 1])
  }

  lemma {:induction false} SumsPrepend(y: real, s: seq<real>)
    ensures SumY([y] + s) == y + SumY(s) && SumXY([y] + s) == SumXY(s) + SumY(s)
  {
    if s == [] {
      assert [y] + s == [y] && [y][..0] == [];
    } else {
      var rest, z := s[..|s| - 1], s[|s| - 1];
      SumsPrepend(y, rest);
      SumsSnoc(s);
      SumsSnoc([y] + s);
      assert ([y] + s)[..|s|] == [y] + rest;
      hide *;
      Distribute(|rest| as real, 1.0, z);
    }
  }

  lemma Distribute(a: real, b: real, c: real)
    ensures Times(a + b, c) == Times(a, c) + Times(b, c)
  {
  }

  lemma {:induction false} SumsReversed(s: seq<real>)
    ensures |Reversed(s)| == |s| && SumY(Reversed(s)) == SumY(s)
    ensures SumXY(Reversed(s)) == Times(|s| as real - 1.0, SumY(s)) - SumXY(s)
  {
    if s == [] {
    } else {
      var rest, y := s[..|s| - 1], s[|s| - 1];
      assert Reversed(s) == [y] + Reversed(rest);
      hide *;
      SumsReversed(rest);
      SumsPrepend(y, Reversed(rest));
      SumsSnoc(s);
      Distribute(|rest| as real - 1.0, 1.0, SumY(rest));
      Distribute(SumY(rest), y, |rest| as real);
    }
  }

  lemma ReversedStep(n: real, sx: real, sy: real, sxy: real, rxy: real)
    requires 2.0 * sx == n * (n - 1.0) && rxy == Times(n - 1.0, sy) - sxy
    ensures SlopeOf(n, sx, sy, rxy) == -SlopeOf(n, sx, sy, sxy)
  {
    assert n * ((n - 1.0) * sy) == (n * (n - 1.0)) * sy;
    assert n * rxy == n * ((n - 1.0) * sy) - n * sxy;
  }

  lemma NumeratorIs(s: seq<real>)
    ensures Numerator(s) == SlopeOf(|s| as real, SumX(|s|), SumY(s), SumXY(s))
  {
  }

  lemma NumeratorReversed(s: seq<real>)
    ensures Numerator(Reversed(s)) == -Numerator(s)
  {
    hide *;
    SumsReversed(s);
    SumXIs(|s|);
    NumeratorIs(s);
    NumeratorIs(Reversed(s));
    ReversedStep(|s| as real, SumX(|s|), SumY(s), SumXY(s), SumXY(Reversed(s)));
  }

  lemma NegatedQuotient(a: real, b: real)
    requires b != 0.0
    ensures -a / b == -(a / b)
  {
  }

  /** Traffic run backwards has the opposite trend. */
  lemma SlopeReversed(s: seq<real>)
    ensures Slope(Reversed(s)) == -Slope(s)
  {
    SumsReversed(s);
    NumeratorReversed(s);
    if |s| >= 3 && Denominator(|s|) != 0.0 {
      NegatedQuotient(Numerator(s), Denominator(|s|));
    }
  }

  // ---------------------------------------------------------------------------
  // Least squares
  // ---------------------------------------------------------------------------

  /** How far the line `a + b * x` is below `y`. */
  function Miss(y: real, x: real, a: real, b: real): real {
    y - a - b * x
  }

  /** The squared error of the line `a + b * i`. */
  function Error(s: seq<real>, a: real, b: real): real {
    if s == [] then 0.0
    else
      var e := Miss(s[|s| - 1], |s[..|s| - 1]| as real, a, b);
      Error(s[..|s| - 1], a, b) + Times(e, e)
  }

  /** The squared size of the line `a + b * i` over `n` points. */
  function Size(n: nat, a: real, b: real): real {
    if n == 0 then 0.0
    else
      var e := Miss(0.0, (n - 1) as real, a, b);
      Size(n - 1, a, b) + Times(e, e)
  }

  lemma NoZeroFactor(n: real, z: real)
    requires n > 0.0
    ensures n * z == 0.0 ==> z == 0.0
  {
    if z > 0.0 {
      assert n * z > 0.0;
    } else if z < 0.0 {
      assert n * -z > 0.0;
      assert n * z == -(n * -z);
    }
  }

  lemma Square(x: real)
    ensures x * x >= 0.0 && (x * x == 0.0 ==> x == 0.0)
  {
    if x > 0.0 {
      NoZeroFactor(x, x);
    } else if x < 0.0 {
      NoZeroFactor(-x, x);
      assert -x * x == -(x * x);
    }
  }

  lemma {:induction false} SizePositive(n: nat, a: real, b: real)
    ensures Size(n, a, b) >= 0.0
  {
    if n == 0 {
    } else {
      SizePositive(n - 1, a, b);
      Square(Miss(0.0, (n - 1) as real, a, b));
    }
  }

  lemma {:induction false} ErrorPositive(s: seq<real>, a: real, b: real)
    ensures Error(s, a, b) >= 0.0
  {
    if s == [] {
    } else {
      ErrorPositive(s[..|s| - 1], a, b);
      Square(Miss(s[|s| - 1], |s[..|s| - 1]| as real, a, b));
    }
  }

  function Intercept(s: seq<real>): real
    requires s != []
  {
    InterceptOf(SumY(s), Slope(s), SumX(|s|), |s| as real)
  }

  function InterceptOf(sy: real, b: real, sx: real, n: real): real
    requires n != 0.0
  {
    (sy - b * sx) / n
  }

  /** How far the line is from solving the two normal equations. */
  function ResidualOf(u: real, v: real, w: real, a: real, b: real): real {
    u - v * a - w * b
  }

  function Residual0(s: seq<real>, a: real, b: real): real {
    ResidualOf(SumY(s), |s| as real, SumX(|s|), a, b)
  }

  function Residual1(s: seq<real>, a: real, b: real): real {
    ResidualOf(SumXY(s), SumX(|s|), SumX2(|s|), a, b)
  }

  lemma TimesOne(x: real)
    ensures Times(1.0, x) == x
  {
  }

  lemma ResidualStep(u: real, v: real, w: real, a: real, b: real, x: real, y: real, f: real)
    ensures ResidualOf(u + Times(f, y), v + f, w + Times(f, x), a, b)
         == ResidualOf(u, v, w, a, b) + Times(f, Miss(y, x, a, b))
  {
    assert (v + f) * a == v * a + f * a;
    assert (w + f * x) * b == w * b + f * (b * x);
    assert f * (y - a - b * x) == f * y - f * a - f * (b * x);
  }

  lemma ResidualsSnoc(s: seq<real>, a: real, b: real)
    requires s != []
    ensures var rest := s[..|s| - 1];
      var i := |rest| as real;
      var e := Miss(s[|s| - 1], i, a, b);
      Residual0(s, a, b) == Residual0(rest, a, b) + e && Residual1(s, a, b) == Residual1(rest, a, b) + Times(i, e)
  {
    var rest, y := s[..|s| - 1], s[|s| - 1];
    var i := |rest| as real;
    hide *;
    SumsSnoc(s);
    ResidualsAre(s, a, b);
    ResidualsAre(rest, a, b);
    ResidualStep(SumY(rest), i, SumX(|rest|), a, b, i, y, 1.0);
    ResidualStep(SumXY(rest), SumX(|rest|), SumX2(|rest|), a, b, i, y, i);
    TimesOne(y);
    TimesOne(i);
    TimesOne(Miss(y, i, a, b));
  }

  function MovedOf(error: real, size: real, p: real, q: real, r0: real, r1: real): real {
    error + size - 2.0 * p * r0 - 2.0 * q * r1
  }

  lemma MovedStep(error: real, size: real, p: real, q: real, r0: real, r1: real, e: real, i: real)
    ensures var d := Miss(0.0, i, p, q);
      MovedOf(error + Times(e, e), size + Times(d, d), p, q, r0 + e, r1 + Times(i, e))
      == MovedOf(error, size, p, q, r0, r1) + Times(e + d, e + d)
  {
    var d := Miss(0.0, i, p, q);
    assert (e + d) * (e + d) == e * e + 2.0 * (e * d) + d * d;
    assert e * d == -(p * e) - q * (i * e);
    assert 2.0 * p * (r0 + e) == 2.0 * p * r0 + 2.0 * (p * e);
    assert 2.0 * q * (r1 + i * e) == 2.0 * q * r1 + 2.0 * (q * (i * e));
  }

  lemma MissMoved(y: real, x: real, a: real, b: real, p: real, q: real)
    ensures Miss(y, x, a + p, b + q) == Miss(y, x, a, b) + Miss(0.0, x, p, q)
  {
    Distribute(b, q, x);
  }

  lemma ErrorSnoc(s: seq<real>, a: real, b: real)
    requires s != []
    ensures var e := Miss(s[|s| - 1], |s[..|s| - 1]| as real, a, b);
      Error(s, a, b) == Error(s[..|s| - 1], a, b) + Times(e, e)
  {
    hide Miss, Times;
  }

  lemma SizeSnoc(n: nat, a: real, b: real)
    ensures var e := Miss(0.0, n as real, a, b);
      Size(n + 1, a, b) == Size(n, a, b) + Times(e, e)
  {
    hide Miss, Times;
  }

  /** Moving a line by `(p, q)` changes its error by a linear part and a square. */
  lemma {:induction false} ErrorMoved(s: seq<real>, a: real, b: real, p: real, q: real)
    ensures Error(s, a + p, b + q)
         == MovedOf(Error(s, a, b), Size(|s|, p, q), p, q, Residual0(s, a, b), Residual1(s, a, b))
  {
    if s == [] {
    } else {
      hide *;
      var rest, y := s[..|s| - 1], s[|s| - 1];
      var i := |rest| as real;
      ErrorMoved(rest, a, b, p, q);
      ResidualsSnoc(s, a, b);
      MissMoved(y, i, a, b, p, q);
      ErrorSnoc(s, a, b);
      ErrorSnoc(s, a + p, b + q);
      SizeSnoc(|rest|, p, q);
      MovedStep(Error(rest, a, b), Size(|rest|, p, q), p, q, Residual0(rest, a, b), Residual1(rest, a, b),
                Miss(y, i, a, b), i);
    }
  }

  lemma Undivide(a: real, b: real)
    requires b != 0.0
    ensures b * (a / b) == a
  {
  }

  lemma InterceptIs(s: seq<real>)
    requires s != []
    ensures ResidualOf(SumY(s), |s| as real, SumX(|s|), Intercept(s), Slope(s)) == 0.0
  {
    assert Intercept(s) == InterceptOf(SumY(s), Slope(s), SumX(|s|), |s| as real);
    hide *;
    InterceptSolves(SumY(s), Slope(s), SumX(|s|), |s| as real);
  }

  lemma InterceptSolves(sy: real, b: real, sx: real, n: real)
    requires n != 0.0
    ensures ResidualOf(sy, n, sx, InterceptOf(sy, b, sx, n), b) == 0.0
  {
    Undivide(sy - b * sx, n);
  }

  lemma RatioIs(a: real, b: real)
    requires b != 0.0
    ensures Times(b, Ratio(a, b)) == a
  {
    Undivide(a, b);
  }

  lemma SolveNormal(n: real, x: real, x2: real, y: real, xy: real, a: real, b: real)
    requires n > 0.0 && ResidualOf(y, n, x, a, b) == 0.0 && Times(SpreadOf(n, x, x2), b) == SlopeOf(n, x, y, xy)
    ensures ResidualOf(xy, x, x2, a, b) == 0.0
  {
    assert n * a == y - b * x;
    assert x * (n * a) == x * y - b * (x * x);
    assert n * (xy - x * a - x2 * b) == n * xy - x * (n * a) - b * (n * x2);
    assert b * (n * x2 - x * x) == b * (n * x2) - b * (x * x);
    NoZeroFactor(n, xy - x * a - x2 * b);
  }

  lemma ResidualsAre(s: seq<real>, a: real, b: real)
    ensures Residual0(s, a, b) == ResidualOf(SumY(s), |s| as real, SumX(|s|), a, b)
    ensures Residual1(s, a, b) == ResidualOf(SumXY(s), SumX(|s|), SumX2(|s|), a, b)
    ensures Denominator(|s|) == SpreadOf(|s| as real, SumX(|s|), SumX2(|s|))
  {
  }

  /** The line through the code's slope solves both normal equations. */
  lemma NormalEquations(s: seq<real>)
    requires |s| >= 3
    ensures Residual0(s, Intercept(s), Slope(s)) == 0.0 && Residual1(s, Intercept(s), Slope(s)) == 0.0
  {
    hide *;
    DenominatorIs(|s|);
    SlopeIs(s);
    InterceptIs(s);
    ResidualsAre(s, Intercept(s), Slope(s));
    RatioIs(SlopeOf(|s| as real, SumX(|s|), SumY(s), SumXY(s)), Denominator(|s|));
    SolveNormal(|s| as real, SumX(|s|), SumX2(|s|), SumY(s), SumXY(s), Intercept(s), Slope(s));
  }

  /** What every other line adds to the error of the code's line. */
  lemma ErrorFromBest(s: seq<real>, a: real, b: real)
    requires |s| >= 3
    ensures Error(s, a, b) == Error(s, Intercept(s), Slope(s)) + Size(|s|, a - Intercept(s), b - Slope(s))
  {
    var p, q := a - Intercept(s), b - Slope(s);
    NormalEquations(s);
    ErrorMoved(s, Intercept(s), Slope(s), p, q);
    assert Intercept(s) + p == a && Slope(s) + q == b;
  }

  /** No line fits the window better than the one with the code's slope. */
  lemma SlopeFitsBest(s: seq<real>, a: real, b: real)
    requires |s| >= 3
    ensures Error(s, Intercept(s), Slope(s)) <= Error(s, a, b)
  {
    ErrorFromBest(s, a, b);
    SizePositive(|s|, a - Intercept(s), b - Slope(s));
  }

  lemma {:induction false} LineHasNoError(s: seq<real>, a: real, b: real)
    requires forall i :: 0 <= i < |s| ==> s[i] == a + b * i as real
    ensures Error(s, a, b) == 0.0
  {
    if s == [] {
    } else {
      LineHasNoError(s[..|s| - 1], a, b);
    }
  }

  lemma NoSizeNoLine(n: nat, a: real, b: real)
    requires n >= 2 && Size(n, a, b) == 0.0
    ensures a == 0.0 && b == 0.0
  {
    var e, f := Miss(0.0, (n - 1) as real, a, b), Miss(0.0, (n - 2) as real, a, b);
    SizePositive(n - 1, a, b);
    SizePositive(n - 2, a, b);
    Square(e);
    Square(f);
    Distribute((n - 2) as real, 1.0, b);
  }

  /** Traffic that grows by exactly `b` per sample has trend `b`. */
  lemma SlopeOfLine(s: seq<real>, a: real, b: real)
    requires |s| >= 3 && forall i :: 0 <= i < |s| ==> s[i] == a + b * i as real
    ensures Slope(s) == b && Intercept(s) == a
  {
    ErrorFromBest(s, a, b);
    LineHasNoError(s, a, b);
    ErrorPositive(s, Intercept(s), Slope(s));
    SizePositive(|s|, a - Intercept(s), b - Slope(s));
    NoSizeNoLine(|s|, a - Intercept(s), b - Slope(s));
  }

  /** Some line of this slope is not beaten by any line. */
  ghost predicate FitsBest(s: seq<real>, b: real) {
    exists a :: NotBeaten(s, a, b)
  }

  ghost predicate NotBeaten(s: seq<real>, a: real, b: real) {
    forall a', b' :: Error(s, a, b) <= Error(s, a', b')
  }

  lemma ExactIsBest(s: seq<real>, a: real, b: real)
    requires forall i :: 0 <= i < |s| ==> s[i] == a + b * i as real
    ensures FitsBest(s, b)
  {
    LineHasNoError(s, a, b);
    forall a', b' ensures Error(s, a, b) <= Error(s, a', b') {
      ErrorPositive(s, a', b');
    }
    assert NotBeaten(s, a, b);
  }

  lemma FlatThroughTwo(s: seq<real>, a: real)
    requires |s| == 2 && Error(s, a, 0.0) <= 0.0
    ensures s[0] == s[1]
  {
    var rest := s[..1];
    ErrorPositive(rest[..0], a, 0.0);
    assert Error(s, a, 0.0) == Error(rest, a, 0.0) + Times(s[1] - a, s[1] - a);
    assert Error(rest, a, 0.0) == Times(s[0] - a, s[0] - a);
    Square(s[0] - a);
    Square(s[1] - a);
  }

  /**
   Windows of one or two samples have trend zero; so the trend is the slope that
   fits best exactly unless the window is two different samples.
   */
  lemma SlopeFitsExactly(s: seq<real>)
    requires s != []
    ensures |s| < 3 ==> Slope(s) == 0.0
    ensures FitsBest(s, Slope(s)) <==> |s| != 2 || s[0] == s[1]
  {
    hide Error;
    if |s| >= 3 {
      forall a, b ensures Error(s, Intercept(s), Slope(s)) <= Error(s, a, b) {
        SlopeFitsBest(s, a, b);
      }
      assert NotBeaten(s, Intercept(s), Slope(s));
    } else if |s| == 1 || s[0] == s[1] {
      ExactIsBest(s, s[0], 0.0);
    } else if a :| NotBeaten(s, a, 0.0) {
      LineHasNoError(s, s[0], s[1] - s[0]);
      assert Error(s, a, 0.0) <= Error(s, s[0], s[1] - s[0]);
      FlatThroughTwo(s, a);
    }
  }
}
