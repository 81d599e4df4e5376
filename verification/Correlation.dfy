/** Two ways of computing a correlation coefficient, over exact real numbers: one pass over raw
    sums, and two passes over deviations from the mean. The square root is a parameter. */
module Correlation {
  import opened Orders
  import opened Squares

  function Sum(s: seq<real>): real {
    if s == [] then 0.0 else s[0] + Sum(s[1..])
  }

  /** Products of the deviations from `a` and from `b`. */
  function Products(x: seq<real>, y: seq<real>, a: real, b: real): seq<real>
    requires |x| == |y|
  {
    seq(|x|, i requires 0 <= i < |x| => (x[i] - a) * (y[i] - b))
  }

  ghost predicate IsSqrt(sqrt: real -> real) {
    forall v :: v >= 0.0 ==> sqrt(v) >= 0.0 && sqrt(v) * sqrt(v) == v
  }

  function Raw(n: real, sxy: real, sx: real, sy: real): real {
    n * sxy - sx * sy
  }

  /** n Sxy - Sx Sy: the one-pass numerator, and with x = y its variance terms. */
  function Spread(x: seq<real>, y: seq<real>): real
    requires |x| == |y|
  {
    Raw(|x| as real, Sum(Products(x, y, 0.0, 0.0)), Sum(x), Sum(y))
  }

  /** A numerator over the root of the product of two variances; 0 where that is 0. */
  function Coefficient(a: real, b: real, c: real, sqrt: real -> real): real {
    var denom := sqrt(Times(a, b));
    if denom == 0.0 then 0.0 else Over(c, denom)
  }

  /** The one-pass coefficient: 0 for fewer than two points or a zero denominator. */
  function OnePass(x: seq<real>, y: seq<real>, sqrt: real -> real): real
    requires |x| == |y|
  {
    if |x| < 2 then 0.0 else Coefficient(Spread(x, x), Spread(y, y), Spread(x, y), sqrt)
  }

  function Mean(x: seq<real>): real
    requires x != []
  {
    Over(Sum(x), |x| as real)
  }

  /** Sum of products of deviations from the means. */
  function Centred(x: seq<real>, y: seq<real>): real
    requires |x| == |y| && x != []
  {
    Sum(Products(x, y, Mean(x), Mean(y)))
  }

  /** Mean product of deviations from the means: the two-pass covariance and variances. */
  function Covariance(x: seq<real>, y: seq<real>): real
    requires |x| == |y| && x != []
  {
    Over(Centred(x, y), |x| as real)
  }

  /** A covariance over the product of two deviations; `None` where that is 0. */
  function Quotient(a: real, b: real, c: real, sqrt: real -> real): Option<real> {
    var denom := Times(sqrt(a), sqrt(b));
    if denom == 0.0 then None else Some(Over(c, denom))
  }

  /** The two-pass coefficient; `None` where the original divides by zero. */
  function TwoPass(x: seq<real>, y: seq<real>, sqrt: real -> real): Option<real>
    requires |x| == |y|
  {
    if x == [] then None else Quotient(Covariance(x, x), Covariance(y, y), Covariance(x, y), sqrt)
  }

  // ----- Sums -----

  lemma {:induction false} SumNext(s: seq<real>, i: nat)
    requires i < |s|
    ensures Sum(s[..i + 1]) == Sum(s[..i]) + s[i]
  {
    if i == 0 {
      assert s[..1] == [s[0]] && [s[0]][1..] == [] && s[..0] == [];
    } else {
      assert s[..i + 1][1..] == s[1..][..i] && s[..i][1..] == s[1..][..i - 1];
      SumNext(s[1..], i - 1);
    }
  }

  lemma {:induction false} SumConstant(s: seq<real>, a: real)
    requires forall i :: 0 <= i < |s| ==> s[i] == a
    ensures Sum(s) == |s| as real * a
  {
    if s != [] {
      SumConstant(s[1..], a);
      Distribute(a, 1.0, |s[1..]| as real, |s| as real);
    }
  }

  /** Terms that are not negative add up to nothing only if each is nothing. */
  lemma {:induction false} SumVanishes(s: seq<real>)
    requires forall i :: 0 <= i < |s| ==> s[i] >= 0.0
    ensures Sum(s) >= 0.0
    ensures Sum(s) == 0.0 <==> forall i :: 0 <= i < |s| ==> s[i] == 0.0
  {
    if s != [] {
      SumVanishes(s[1..]);
      assert forall i :: 0 < i < |s| ==> s[i] == s[1..][i - 1];
      assert forall i :: 0 <= i < |s[1..]| ==> s[1..][i] == s[i + 1];
    }
  }

  /** Terms for which the Cauchy-Schwarz inequality holds one by one have sums for which it does. */
  lemma {:induction false} SumSchwarz(a: seq<real>, b: seq<real>, c: seq<real>)
    requires |a| == |b| == |c|
    requires forall i :: 0 <= i < |a| ==> Schwarz(a[i], b[i], c[i])
    ensures Schwarz(Sum(a), Sum(b), Sum(c))
  {
    if a != [] {
      assert forall i :: 0 <= i < |a[1..]| ==> a[1..][i] == a[i + 1] && b[1..][i] == b[i + 1] && c[1..][i] == c[i + 1];
      SumSchwarz(a[1..], b[1..], c[1..]);
      SchwarzAdds(a[0], b[0], c[0], Sum(a[1..]), Sum(b[1..]), Sum(c[1..]));
    }
  }

  predicate Expanded(w: real, d: real, x: real, y: real, a: real, b: real, ab: real) {
    w == d - a * y - b * x + ab
  }

  lemma {:induction false} ExpandedAdds(w: real, d: real, x: real, y: real, w': real, d': real, x': real, y': real,
                                        a: real, b: real, p: real, p': real)
    requires Expanded(w, d, x, y, a, b, p) && Expanded(w', d', x', y', a, b, p')
    ensures Expanded(w + w', d + d', x + x', y + y', a, b, p + p')
  {
    Distribute(a, y, y', y + y');
    Distribute(b, x, x', x + x');
  }

  /** A sum of terms `d - a y - b x + ab` is taken apart. */
  lemma {:induction false} SumExpands(w: seq<real>, d: seq<real>, x: seq<real>, y: seq<real>, a: real, b: real,
                                      ab: real, n: real)
    requires |w| == |d| == |x| == |y|
    requires forall i :: 0 <= i < |w| ==> Expanded(w[i], d[i], x[i], y[i], a, b, ab)
    requires n == |w| as real
    ensures Expanded(Sum(w), Sum(d), Sum(x), Sum(y), a, b, Times(n, ab))
  {
    if w != [] {
      forall i | 0 <= i < |w[1..]| ensures Expanded(w[1..][i], d[1..][i], x[1..][i], y[1..][i], a, b, ab) {
        assert Expanded(w[i + 1], d[i + 1], x[i + 1], y[i + 1], a, b, ab);
      }
      SumExpands(w[1..], d[1..], x[1..], y[1..], a, b, ab, n - 1.0);
      ExpandedAdds(w[0], d[0], x[0], y[0], Sum(w[1..]), Sum(d[1..]), Sum(x[1..]), Sum(y[1..]), a, b, ab,
          Times(n - 1.0, ab));
      Distribute(ab, 1.0, n - 1.0, n);
    }
  }

  // ----- The two forms are one -----

  lemma {:induction false} CentredAlgebra(n: real, d: real, sx: real, sy: real, a: real, b: real, w: real)
    requires Times(a, n) == sx && Times(b, n) == sy
    requires Expanded(w, d, sx, sy, a, b, Times(n, Times(a, b)))
    ensures Raw(n, d, sx, sy) == Times(n, w)
  {
    Scale(sy, a * n, sx);
    Scale(sx, b * n, sy);
    Scale(a * n, b * n, sy);
    Scale(n, w, d - a * sy - b * sx + n * (a * b));
    assert n * (d - a * sy - b * sx + n * (a * b)) == n * d - sy * (a * n) - sx * (b * n) + (a * n) * (b * n);
  }

  lemma {:induction false} ExpandProduct(p: real, q: real, a: real, b: real, w: real, d: real)
    requires w == (p - a) * (q - b) && d == (p - 0.0) * (q - 0.0)
    ensures Expanded(w, d, p, q, a, b, Times(a, b))
  {
    assert (p - a) * (q - b) == (p - 0.0) * (q - 0.0) - a * q - b * p + a * b;
  }

  lemma {:induction false} ProductsExpand(x: seq<real>, y: seq<real>, a: real, b: real)
    requires |x| == |y|
    ensures Expanded(Sum(Products(x, y, a, b)), Sum(Products(x, y, 0.0, 0.0)), Sum(x), Sum(y), a, b,
                     Times(|x| as real, Times(a, b)))
  {
    var w, d := Products(x, y, a, b), Products(x, y, 0.0, 0.0);
    forall i | 0 <= i < |w| ensures Expanded(w[i], d[i], x[i], y[i], a, b, Times(a, b)) {
      ExpandProduct(x[i], y[i], a, b, w[i], d[i]);
    }
    SumExpands(w, d, x, y, a, b, Times(a, b), |x| as real);
  }

  /** The raw-sum term is n times the sum of centred products. */
  lemma {:induction false} SpreadIsCentred(x: seq<real>, y: seq<real>)
    requires |x| == |y| && x != []
    ensures Spread(x, y) == Times(|x| as real, Centred(x, y))
  {
    var a, b := Mean(x), Mean(y);
    ProductsExpand(x, y, a, b);
    OverTimes(Sum(x), |x| as real);
    OverTimes(Sum(y), |y| as real);
    CentredAlgebra(|x| as real, Sum(Products(x, y, 0.0, 0.0)), Sum(x), Sum(y), a, b, Centred(x, y));
  }

  /** The raw-sum term is n squared times the two-pass covariance, and the variance terms are n
      squared times the two-pass variances. */
  lemma {:induction false} SpreadIsCovariance(x: seq<real>, y: seq<real>)
    requires |x| == |y| && x != []
    ensures Spread(x, y) == Times(Times(|x| as real, |x| as real), Covariance(x, y))
  {
    SpreadIsCentred(x, y);
    Regroup(|x| as real, Centred(x, y), Covariance(x, y), Spread(x, y));
  }

  // ----- Bounds -----

  lemma {:induction false} ProductSchwarz(p: real, q: real, pp: real, qq: real, pq: real)
    requires pp == p * p && qq == q * q && pq == p * q
    ensures Schwarz(pp, qq, pq)
  {
    Square(p, pp);
    Square(q, qq);
    Scale2(pq, p * q, pq, p * q);
    Scale2(pp, p * p, qq, q * q);
    assert (p * q) * (p * q) == (p * p) * (q * q);
  }

  lemma {:induction false} DeviationSchwarz(x: seq<real>, y: seq<real>, a: real, b: real, i: nat)
    requires |x| == |y| && i < |x|
    ensures Schwarz(Products(x, x, a, a)[i], Products(y, y, b, b)[i], Products(x, y, a, b)[i])
  {
    var p, q := x[i] - a, y[i] - b;
    ProductSchwarz(p, q, p * p, q * q, p * q);
  }

  lemma {:induction false} CauchySchwarz(x: seq<real>, y: seq<real>, a: real, b: real)
    requires |x| == |y|
    ensures Schwarz(Sum(Products(x, x, a, a)), Sum(Products(y, y, b, b)), Sum(Products(x, y, a, b)))
  {
    var xx, yy, xy := Products(x, x, a, a), Products(y, y, b, b), Products(x, y, a, b);
    forall i | 0 <= i < |x| ensures Schwarz(xx[i], yy[i], xy[i]) {
      DeviationSchwarz(x, y, a, b, i);
    }
    SumSchwarz(xx, yy, xy);
  }

  /** The squared numerator is at most the product of the variance terms, neither of which is
      negative: the square root has an argument. */
  lemma {:induction false} SpreadBound(x: seq<real>, y: seq<real>)
    requires |x| == |y|
    ensures Schwarz(Spread(x, x), Spread(y, y), Spread(x, y))
  {
    if x != [] {
      SpreadIsCentred(x, y);
      SpreadIsCentred(x, x);
      SpreadIsCentred(y, y);
      CauchySchwarz(x, y, Mean(x), Mean(y));
      SchwarzScales(|x| as real, Centred(x, x), Centred(y, y), Centred(x, y), Spread(x, x), Spread(y, y), Spread(x, y));
    }
  }

  lemma {:induction false} CoefficientBound(a: real, b: real, c: real, sqrt: real -> real)
    requires Schwarz(a, b, c) && IsSqrt(sqrt)
    ensures -1.0 <= Coefficient(a, b, c, sqrt) <= 1.0
  {
    SameSign(a, b, Times(a, b));
    var denom := sqrt(Times(a, b));
    if denom != 0.0 {
      SquareBounds(c, denom);
      RatioBound(c, denom);
    }
  }

  /** For every pair of series the one-pass coefficient lies between -1 and 1. */
  lemma {:induction false} CoefficientIsBounded(x: seq<real>, y: seq<real>, sqrt: real -> real)
    requires |x| == |y| && IsSqrt(sqrt)
    ensures -1.0 <= OnePass(x, y, sqrt) <= 1.0
  {
    if |x| >= 2 {
      SpreadBound(x, y);
      CoefficientBound(Spread(x, x), Spread(y, y), Spread(x, y), sqrt);
    }
  }

  // ----- When the two programs agree -----

  /** A series that does not stay at one value. */
  ghost predicate Moves(x: seq<real>) {
    exists i, j :: 0 <= i < |x| && 0 <= j < |x| && x[i] != x[j]
  }

  lemma {:induction false} StillMean(x: seq<real>)
    requires x != [] && !Moves(x)
    ensures Mean(x) == x[0]
  {
    SumConstant(x, x[0]);
    OverIs(Sum(x), |x| as real, x[0]);
  }

  lemma {:induction false} CentredVanishes(x: seq<real>)
    requires x != []
    ensures Centred(x, x) >= 0.0 && (Centred(x, x) == 0.0 <==> forall i :: 0 <= i < |x| ==> x[i] == Mean(x))
  {
    var m := Mean(x);
    var w := Products(x, x, m, m);
    forall i | 0 <= i < |x| ensures w[i] >= 0.0 && (w[i] == 0.0 <==> x[i] == m) {
      Square(x[i] - m, w[i]);
    }
    SumVanishes(w);
  }

  /** The variance is positive for exactly the series that move. */
  lemma {:induction false} VarianceSeesMovement(x: seq<real>)
    requires x != []
    ensures Covariance(x, x) >= 0.0 && (Covariance(x, x) == 0.0 <==> !Moves(x))
  {
    CentredVanishes(x);
    OverSign(Centred(x, x), |x| as real);
    if !Moves(x) {
      StillMean(x);
    }
  }

  lemma {:induction false} RootVanishes(v: real, sqrt: real -> real)
    requires v >= 0.0 && IsSqrt(sqrt)
    ensures sqrt(v) == 0.0 <==> v == 0.0
  {
    Square(sqrt(v), sqrt(v) * sqrt(v));
  }

  lemma {:induction false} RootOfScaled(k: real, a: real, b: real, ka: real, kb: real, sqrt: real -> real)
    requires k > 0.0 && a >= 0.0 && b >= 0.0 && IsSqrt(sqrt)
    requires ka == Times(k, a) && kb == Times(k, b)
    ensures sqrt(Times(ka, kb)) == Times(k, Times(sqrt(a), sqrt(b)))
  {
    var ra, rb := sqrt(a), sqrt(b);
    SameSign(k, a, ka);
    SameSign(k, b, kb);
    SameSign(ka, kb, ka * kb);
    SameSign(ra, rb, ra * rb);
    SameSign(k, ra * rb, k * (ra * rb));
    RootsMultiply(ra, rb, a, b);
    RootsScale(k, ra * rb, a, b);
    Scale2(ka, k * a, kb, k * b);
    assert sqrt(Times(ka, kb)) * sqrt(Times(ka, kb)) == ka * kb;
    SameSquare(sqrt(Times(ka, kb)), Times(k, Times(ra, rb)));
  }

  /** Scaling both variances and the numerator alike changes no coefficient. */
  lemma {:induction false} CoefficientScales(k: real, a: real, b: real, c: real, ka: real, kb: real, kc: real,
                                             sqrt: real -> real)
    requires k > 0.0 && a >= 0.0 && b >= 0.0 && IsSqrt(sqrt)
    requires ka == Times(k, a) && kb == Times(k, b) && kc == Times(k, c)
    ensures a > 0.0 && b > 0.0 ==> Quotient(a, b, c, sqrt) == Some(Coefficient(ka, kb, kc, sqrt))
    ensures a == 0.0 || b == 0.0 ==> Quotient(a, b, c, sqrt) == None && Coefficient(ka, kb, kc, sqrt) == 0.0
  {
    var ra, rb := sqrt(a), sqrt(b);
    var d := Times(ra, rb);
    RootOfScaled(k, a, b, ka, kb, sqrt);
    RootVanishes(a, sqrt);
    RootVanishes(b, sqrt);
    if a == 0.0 {
      Zero(ra, rb, d);
      Zero(d, k, Times(k, d));
    } else if b == 0.0 {
      Zero(rb, ra, d);
      Zero(d, k, Times(k, d));
    } else {
      Positive(ra, rb, d);
      Cancel(k, c, d, kc, Times(k, d));
    }
  }

  /** The two programs give one coefficient for series that both move. For all others the two-pass
      program divides by zero and the one-pass program answers 0. */
  lemma {:induction false} TwoPassIsOnePass(x: seq<real>, y: seq<real>, sqrt: real -> real)
    requires |x| == |y| && IsSqrt(sqrt)
    ensures TwoPass(x, y, sqrt) == if Moves(x) && Moves(y) then Some(OnePass(x, y, sqrt)) else None
    ensures !(Moves(x) && Moves(y)) ==> OnePass(x, y, sqrt) == 0.0
  {
    if x != [] {
      var n := |x| as real;
      Positive(n, n, Times(n, n));
      SpreadIsCovariance(x, y);
      SpreadIsCovariance(x, x);
      SpreadIsCovariance(y, y);
      VarianceSeesMovement(x);
      VarianceSeesMovement(y);
      CoefficientScales(Times(n, n), Covariance(x, x), Covariance(y, y), Covariance(x, y),
                        Spread(x, x), Spread(y, y), Spread(x, y), sqrt);
    }
  }

  /** For series that both move the coefficient is what multiplies the two standard deviations to the
      covariance. */
  lemma {:induction false} CoefficientExactly(x: seq<real>, y: seq<real>, sqrt: real -> real)
    requires |x| == |y| && Moves(x) && Moves(y) && IsSqrt(sqrt)
    ensures var deviations := Times(sqrt(Covariance(x, x)), sqrt(Covariance(y, y)));
      deviations > 0.0 && Times(OnePass(x, y, sqrt), deviations) == Covariance(x, y)
  {
    var a, b := Covariance(x, x), Covariance(y, y);
    TwoPassIsOnePass(x, y, sqrt);
    VarianceSeesMovement(x);
    VarianceSeesMovement(y);
    RootVanishes(a, sqrt);
    RootVanishes(b, sqrt);
    Positive(sqrt(a), sqrt(b), Times(sqrt(a), sqrt(b)));
    OverTimes(Covariance(x, y), Times(sqrt(a), sqrt(b)));
  }

  lemma {:induction false} RootSquares(v: real, sqrt: real -> real)
    requires v >= 0.0 && IsSqrt(sqrt)
    ensures Times(sqrt(v), sqrt(v)) == v
  {
  }

  lemma {:induction false} IsOne(r: real, v: real)
    requires v != 0.0 && Times(r, v) == v
    ensures r == 1.0
  {
    OverIs(v, v, r);
    OverIs(v, v, 1.0);
  }

  /** A series that moves correlates with itself in full. */
  lemma {:induction false} SelfCorrelation(x: seq<real>, sqrt: real -> real)
    requires Moves(x) && IsSqrt(sqrt)
    ensures OnePass(x, x, sqrt) == 1.0
  {
    CoefficientExactly(x, x, sqrt);
    VarianceSeesMovement(x);
    RootSquares(Covariance(x, x), sqrt);
    IsOne(OnePass(x, x, sqrt), Covariance(x, x));
  }

  // ----- The programs -----

  lemma {:induction false} NextProduct(x: seq<real>, y: seq<real>, a: real, b: real, i: nat)
    requires |x| == |y| && i < |x|
    ensures Sum(Products(x, y, a, b)[..i + 1]) == Sum(Products(x, y, a, b)[..i]) + (x[i] - a) * (y[i] - b)
  {
    SumNext(Products(x, y, a, b), i);
  }

  /** The loop of the one-pass program. */
  method RawSums(x: seq<real>, y: seq<real>) returns (sx: real, sy: real, sxy: real, sx2: real, sy2: real)
    requires |x| == |y|
    ensures sx == Sum(x) && sy == Sum(y)
    ensures sxy == Sum(Products(x, y, 0.0, 0.0))
    ensures sx2 == Sum(Products(x, x, 0.0, 0.0)) && sy2 == Sum(Products(y, y, 0.0, 0.0))
  {
    sx, sy, sxy, sx2, sy2 := 0.0, 0.0, 0.0, 0.0, 0.0;
    ghost var xy, xx, yy := Products(x, y, 0.0, 0.0), Products(x, x, 0.0, 0.0), Products(y, y, 0.0, 0.0);
    for i := 0 to |x|
      invariant sx == Sum(x[..i]) && sy == Sum(y[..i])
      invariant sxy == Sum(xy[..i]) && sx2 == Sum(xx[..i]) && sy2 == Sum(yy[..i])
    {
      SumNext(x, i);
      SumNext(y, i);
      NextProduct(x, y, 0.0, 0.0, i);
      NextProduct(x, x, 0.0, 0.0, i);
      NextProduct(y, y, 0.0, 0.0, i);
      sx := sx + x[i];
      sy := sy + y[i];
      sxy := sxy + x[i] * y[i];
      sx2 := sx2 + x[i] * x[i];
      sy2 := sy2 + y[i] * y[i];
    }
    assert x[..|x|] == x && y[..|x|] == y && xy[..|x|] == xy && xx[..|x|] == xx && yy[..|x|] == yy;
  }

  /** One pass. */
  method Pearson(x: seq<real>, y: seq<real>, sqrt: real -> real) returns (r: real)
    requires |x| == |y|
    ensures r == OnePass(x, y, sqrt)
  {
    if |x| < 2 {
      return 0.0;
    }
    var n := |x| as real;
    var sx, sy, sxy, sx2, sy2 := RawSums(x, y);
    r := Coefficient(Raw(n, sx2, sx, sx), Raw(n, sy2, sy, sy), Raw(n, sxy, sx, sy), sqrt);
  }

  method Average(x: seq<real>) returns (r: real)
    requires x != []
    ensures r == Mean(x)
  {
    var total := 0.0;
    for i := 0 to |x|
      invariant total == Sum(x[..i])
    {
      SumNext(x, i);
      total := total + x[i];
    }
    assert x[..|x|] == x;
    r := Over(total, |x| as real);
  }

  /** The loop of the two-pass program. */
  method CentredSums(x: seq<real>, y: seq<real>, mean1: real, mean2: real)
    returns (covariance: real, variance1: real, variance2: real)
    requires |x| == |y|
    ensures covariance == Sum(Products(x, y, mean1, mean2))
    ensures variance1 == Sum(Products(x, x, mean1, mean1)) && variance2 == Sum(Products(y, y, mean2, mean2))
  {
    covariance, variance1, variance2 := 0.0, 0.0, 0.0;
    ghost var xy, xx, yy := Products(x, y, mean1, mean2), Products(x, x, mean1, mean1), Products(y, y, mean2, mean2);
    for i := 0 to |x|
      invariant covariance == Sum(xy[..i]) && variance1 == Sum(xx[..i]) && variance2 == Sum(yy[..i])
    {
      NextProduct(x, y, mean1, mean2, i);
      NextProduct(x, x, mean1, mean1, i);
      NextProduct(y, y, mean2, mean2, i);
      covariance := covariance + (x[i] - mean1) * (y[i] - mean2);
      variance1 := variance1 + (x[i] - mean1) * (x[i] - mean1);
      variance2 := variance2 + (y[i] - mean2) * (y[i] - mean2);
    }
    assert xy[..|x|] == xy && xx[..|x|] == xx && yy[..|x|] == yy;
  }

  /** Two passes: the means, then the deviations from them. */
  method Deviations(x: seq<real>, y: seq<real>, sqrt: real -> real) returns (r: Option<real>)
    requires |x| == |y|
    ensures r == TwoPass(x, y, sqrt)
  {
    if x == [] {
      return None;
    }
    var mean1 := Average(x);
    var mean2 := Average(y);
    var covariance, variance1, variance2 := CentredSums(x, y, mean1, mean2);
    covariance := Over(covariance, |x| as real);
    variance1 := Over(variance1, |x| as real);
    variance2 := Over(variance2, |y| as real);
    r := Quotient(variance1, variance2, covariance, sqrt);
  }

  class CorrelationAnalyzer {
    var priceData: map<string, seq<real>>

    constructor ()
      ensures priceData == map[]
    {
      priceData := map[];
    }

    /** Series already held under other names stay; a series loaded again is replaced. */
    method LoadPriceData(historicalData: map<string, seq<real>>)
      modifies this
      ensures priceData == old(priceData) + historicalData
    {
      var left := historicalData.Keys;
      while left != {}
        invariant left <= historicalData.Keys
        invariant priceData == old(priceData) + map k | k in historicalData.Keys - left :: historicalData[k]
        decreases left
      {
        var name :| name in left;
        priceData := priceData[name := historicalData[name]];
        left := left - {name};
      }
      assert (map k | k in historicalData.Keys - left :: historicalData[k]) == historicalData;
    }

    /** An unknown name or two series of different lengths give 0, not an error; otherwise the
        answer is the one-pass coefficient wherever there is one. */
    method CalculateCorrelation(stock1: string, stock2: string, sqrt: real -> real) returns (r: Option<real>)
      requires IsSqrt(sqrt)
      ensures
        r == if stock1 !in priceData || stock2 !in priceData then Some(0.0)
             else if |priceData[stock1]| != |priceData[stock2]| then Some(0.0)
             else if Moves(priceData[stock1]) && Moves(priceData[stock2])
             then Some(OnePass(priceData[stock1], priceData[stock2], sqrt)) else None
    {
      if stock1 !in priceData || stock2 !in priceData {
        return Some(0.0);
      }
      var prices1, prices2 := priceData[stock1], priceData[stock2];
      if |prices1| != |prices2| {
        return Some(0.0);
      }
      TwoPassIsOnePass(prices1, prices2, sqrt);
      r := Deviations(prices1, prices2, sqrt);
    }
  }
}
