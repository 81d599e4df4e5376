/** Small facts about products of real numbers, each stated over plain values. */
module Squares {
  /** Products and quotients have names, so that equals replace equals without arithmetic. */
  function Times(a: real, b: real): real {
    a * b
  }

  function Over(p: real, n: real): real
    requires n != 0.0
  {
    p / n
  }

  lemma {:induction false} Positive(a: real, b: real, p: real)
    requires a > 0.0 && b > 0.0 && p == a * b
    ensures p > 0.0
  {
  }

  lemma {:induction false} SameSign(a: real, b: real, p: real)
    requires a >= 0.0 && b >= 0.0 && p == a * b
    ensures p >= 0.0
  {
    if a > 0.0 && b > 0.0 {
      Positive(a, b, p);
    }
  }

  lemma {:induction false} Zero(a: real, b: real, p: real)
    requires a == 0.0 && p == a * b
    ensures p == 0.0
  {
  }

  /** The square is a parameter of its own, so that callers reason about it as one value. */
  lemma {:induction false} Square(a: real, s: real)
    requires s == a * a
    ensures s >= 0.0
    ensures s == 0.0 <==> a == 0.0
  {
    if a > 0.0 {
      Positive(a, a, s);
    } else if a < 0.0 {
      assert s == (-a) * (-a);
      Positive(-a, -a, s);
    } else {
      Zero(a, a, s);
    }
  }

  lemma {:induction false} ZeroRoot(c: real, a: real, b: real, s: real, p: real)
    requires s == c * c && p == a * b && s <= p && a == 0.0
    ensures c == 0.0
  {
    Zero(a, b, p);
    Square(c, s);
  }

  lemma {:induction false} Scale(k: real, s: real, t: real)
    requires s == t
    ensures k * s == k * t
  {
  }

  lemma {:induction false} Scale2(k: real, l: real, s: real, t: real)
    requires k == l && s == t
    ensures k * s == l * t
  {
  }

  lemma {:induction false} Distribute(k: real, head: real, tail: real, total: real)
    requires total == head + tail
    ensures k * total == k * head + k * tail
  {
  }

  /** A square bounds what it is a square of. */
  lemma {:induction false} SquareBounds(t: real, s: real)
    requires t * t <= s * s && s >= 0.0
    ensures -s <= t <= s
  {
    assert (t - s) * (t + s) == t * t - s * s;
    if t > s {
      Positive(t - s, t + s, (t - s) * (t + s));
    }
    if t < -s {
      assert (s - t) * (-t - s) == t * t - s * s;
      Positive(s - t, -t - s, (s - t) * (-t - s));
    }
  }

  lemma {:induction false} SameSquare(t: real, s: real)
    requires t * t == s * s && s >= 0.0 && t >= 0.0
    ensures t == s
  {
    SquareBounds(t, s);
    SquareBounds(s, t);
  }

  // ----- Three sums for which the Cauchy-Schwarz inequality holds -----

  ghost predicate Schwarz(a: real, b: real, c: real) {
    a >= 0.0 && b >= 0.0 && c * c <= a * b
  }

  lemma {:induction false} CompleteSquare(a: real, b: real, c: real, p: real, q: real, r: real)
    ensures (a * p) * (a * q + b * p - 2.0 * (c * r)) ==
            (p * c - a * r) * (p * c - a * r) + (a * a) * (p * q - r * r) + (p * p) * (a * b - c * c)
  {
    assert (p * c - a * r) * (p * c - a * r) == p * p * c * c - 2.0 * (a * p * c * r) + a * a * r * r;
  }

  lemma {:induction false} SquaresAddUp(a: real, b: real, c: real, p: real, q: real, r: real, total: real)
    requires c * c <= a * b && r * r <= p * q
    requires total == (a * p) * (a * q + b * p - 2.0 * (c * r))
    ensures total >= 0.0
  {
    CompleteSquare(a, b, c, p, q, r);
    Square(p * c - a * r, (p * c - a * r) * (p * c - a * r));
    Square(a, a * a);
    Square(p, p * p);
    SameSign(a * a, p * q - r * r, (a * a) * (p * q - r * r));
    SameSign(p * p, a * b - c * c, (p * p) * (a * b - c * c));
  }

  lemma {:induction false} Divide(k: real, gap: real, product: real)
    requires k > 0.0 && product == k * gap && product >= 0.0
    ensures gap >= 0.0
  {
    if gap < 0.0 {
      Positive(k, -gap, k * -gap);
    }
  }

  lemma {:induction false} CrossTerm(a: real, b: real, c: real, p: real, q: real, r: real)
    requires Schwarz(a, b, c) && Schwarz(p, q, r)
    ensures 2.0 * (c * r) <= a * q + b * p
  {
    SameSign(a, q, a * q);
    SameSign(b, p, b * p);
    if a == 0.0 {
      ZeroRoot(c, a, b, c * c, a * b);
      Zero(c, r, c * r);
    } else if p == 0.0 {
      ZeroRoot(r, p, q, r * r, p * q);
      Zero(r, c, r * c);
    } else {
      SquaresAddUp(a, b, c, p, q, r, (a * p) * (a * q + b * p - 2.0 * (c * r)));
      Positive(a, p, a * p);
      Divide(a * p, a * q + b * p - 2.0 * (c * r), (a * p) * (a * q + b * p - 2.0 * (c * r)));
    }
  }

  /** The inequality survives addition. */
  lemma {:induction false} SchwarzAdds(a: real, b: real, c: real, p: real, q: real, r: real)
    requires Schwarz(a, b, c) && Schwarz(p, q, r)
    ensures Schwarz(a + p, b + q, c + r)
  {
    CrossTerm(a, b, c, p, q, r);
    assert (c + r) * (c + r) == c * c + 2.0 * (c * r) + r * r;
    assert (a + p) * (b + q) == a * b + (a * q + b * p) + p * q;
  }

  lemma {:induction false} SchwarzScales(k: real, a: real, b: real, c: real, ka: real, kb: real, kc: real)
    requires k >= 0.0 && Schwarz(a, b, c)
    requires ka == Times(k, a) && kb == Times(k, b) && kc == Times(k, c)
    ensures Schwarz(ka, kb, kc)
  {
    SameSign(k, a, ka);
    SameSign(k, b, kb);
    Square(k, k * k);
    SameSign(k * k, a * b - c * c, (k * k) * (a * b - c * c));
    Scale2(kc, k * c, kc, k * c);
    Scale2(ka, k * a, kb, k * b);
    assert (k * c) * (k * c) == (k * k) * (c * c);
    assert (k * a) * (k * b) == (k * k) * (a * b);
  }

  // ----- Roots -----

  lemma {:induction false} RootsMultiply(ra: real, rb: real, a: real, b: real)
    requires ra * ra == a && rb * rb == b
    ensures (ra * rb) * (ra * rb) == a * b
  {
    Scale(rb * rb, ra * ra, a);
    Scale(a, rb * rb, b);
    assert (ra * rb) * (ra * rb) == (rb * rb) * (ra * ra);
  }

  lemma {:induction false} RootsScale(k: real, w: real, a: real, b: real)
    requires w * w == a * b
    ensures (k * w) * (k * w) == (k * a) * (k * b)
  {
    Scale(k * k, w * w, a * b);
    assert (k * w) * (k * w) == (k * k) * (w * w);
    assert (k * a) * (k * b) == (k * k) * (a * b);
  }

  // ----- Quotients -----

  lemma {:induction false} OverTimes(p: real, n: real)
    requires n != 0.0
    ensures Times(Over(p, n), n) == p
  {
  }

  lemma {:induction false} OverIs(p: real, n: real, r: real)
    requires n != 0.0 && Times(r, n) == p
    ensures Over(p, n) == r
  {
  }

  lemma {:induction false} OverSign(p: real, n: real)
    requires p >= 0.0 && n > 0.0
    ensures Over(p, n) >= 0.0 && (Over(p, n) == 0.0 <==> p == 0.0)
  {
    var q := Over(p, n);
    OverTimes(p, n);
    if q < 0.0 {
      Positive(-q, n, -q * n);
    } else if q == 0.0 {
      Zero(q, n, q * n);
    }
  }

  lemma {:induction false} Cancel(k: real, c: real, d: real, kc: real, kd: real)
    requires k > 0.0 && d > 0.0 && kc == Times(k, c) && kd == Times(k, d)
    ensures kd > 0.0 && Over(kc, kd) == Over(c, d)
  {
    Positive(k, d, kd);
    var r := Over(c, d);
    OverTimes(c, d);
    Scale(k, r * d, c);
    Scale(r, kd, k * d);
    OverIs(kc, kd, r);
  }

  lemma {:induction false} Regroup(n: real, p: real, q: real, np: real)
    requires n != 0.0 && q == Over(p, n) && np == Times(n, p)
    ensures np == Times(Times(n, n), q)
  {
    OverTimes(p, n);
    Scale(n, q * n, p);
  }

  lemma {:induction false} RatioBound(num: real, denom: real)
    requires denom > 0.0 && -denom <= num <= denom
    ensures -1.0 <= Over(num, denom) <= 1.0
  {
    var r := Over(num, denom);
    OverTimes(num, denom);
    if r > 1.0 {
      Positive(r - 1.0, denom, (r - 1.0) * denom);
    } else if r < -1.0 {
      Positive(-1.0 - r, denom, (-1.0 - r) * denom);
    }
  }
}
