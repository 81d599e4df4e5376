/** The largest fall from a peak, found in one pass over a series. */
module Drawdown {
  import opened Squares

  /** The fall from one value to another, as a fraction of the first. */
  function Fall(from: real, to: real): real
    requires from != 0.0
  {
    Over(from - to, from)
  }

  /** What a loss of the fraction `m` leaves. */
  ghost function Left(from: real, m: real): real {
    (1.0 - m) * from
  }

  lemma {:induction false} LeftBetween(from: real, m: real, p: real)
    ensures Left(from, p) - Left(from, m) == (m - p) * from
  {
  }

  /** From a positive value a fall of at most `m` leaves at least what a loss of `m` leaves, from a
      negative one at most that, and a fall of exactly `m` leaves just that. */
  lemma {:induction false} FallIsLoss(from: real, to: real, m: real)
    requires from != 0.0
    ensures from > 0.0 ==> (Fall(from, to) <= m <==> to >= Left(from, m))
    ensures from < 0.0 ==> (Fall(from, to) <= m <==> to <= Left(from, m))
    ensures Fall(from, to) == m <==> to == Left(from, m)
  {
    var p := Fall(from, to);
    OverTimes(from - to, from);
    assert to == Left(from, p);
    LeftBetween(from, m, p);
    var size := if from > 0.0 then from else -from;
    if p < m {
      Positive(m - p, size, (m - p) * size);
    } else if p > m {
      Positive(p - m, size, (p - m) * size);
    }
  }

  function Larger(a: real, b: real): real {
    if b > a then b else a
  }

  /** The running peak. */
  function PeakAt(x: seq<real>, j: nat): real
    requires j < |x|
  {
    if j == 0 then x[0] else Larger(PeakAt(x, j - 1), x[j])
  }

  lemma {:induction false} PeakIsMaximum(x: seq<real>, j: nat)
    requires j < |x|
    ensures forall i :: 0 <= i <= j ==> x[i] <= PeakAt(x, j)
    ensures exists i :: 0 <= i <= j && x[i] == PeakAt(x, j)
  {
    if j == 0 {
      assert x[0] == PeakAt(x, 0);
    } else {
      PeakIsMaximum(x, j - 1);
      var i :| 0 <= i <= j - 1 && x[i] == PeakAt(x, j - 1);
      var k := if x[j] > x[i] then j else i;
      assert x[k] == PeakAt(x, j);
    }
  }

  // ----- The pass -----

  /** A double: division by zero is infinite, or not a number and then never the larger of two. */
  datatype Double = Finite(value: real) | Infinite

  /** The larger of what was found and the fall from the peak. */
  function Worse(found: Double, peak: real, value: real): Double {
    if peak == 0.0 then (if value < 0.0 then Infinite else found)
    else if found.Infinite? then Infinite
    else Finite(Larger(found.value, Fall(peak, value)))
  }

  ghost predicate BelowZeroPeak(x: seq<real>, j: nat)
    requires j < |x|
  {
    PeakAt(x, j) == 0.0 && x[j] < 0.0
  }

  /** What the first `n` values give: nothing less than 0, the largest fall from a running peak that
      is not zero, and infinity for a fall from zero. */
  ghost predicate IsDrawdownOf(x: seq<real>, n: nat, r: Double)
    requires n <= |x|
  {
    match r
    case Infinite => exists j :: 0 <= j < n && BelowZeroPeak(x, j)
    case Finite(m) =>
      && m >= 0.0
      && (forall j :: 0 <= j < n ==> !BelowZeroPeak(x, j))
      && (forall j :: 0 <= j < n && PeakAt(x, j) != 0.0 ==> Fall(PeakAt(x, j), x[j]) <= m)
      && (m == 0.0 || exists j :: 0 <= j < n && PeakAt(x, j) != 0.0 && Fall(PeakAt(x, j), x[j]) == m)
  }

  lemma {:induction false} WorseGoesOn(x: seq<real>, n: nat, r: Double)
    requires n < |x| && IsDrawdownOf(x, n, r)
    ensures IsDrawdownOf(x, n + 1, Worse(r, PeakAt(x, n), x[n]))
  {
    var peak := PeakAt(x, n);
    if r.Finite? && peak != 0.0 {
      var m := Larger(r.value, Fall(peak, x[n]));
      if m != 0.0 {
        if m == Fall(peak, x[n]) {
          assert PeakAt(x, n) != 0.0 && Fall(PeakAt(x, n), x[n]) == m;
        } else {
          var j :| 0 <= j < n && PeakAt(x, j) != 0.0 && Fall(PeakAt(x, j), x[j]) == m;
        }
      }
    } else if r.Finite? && x[n] < 0.0 {
      assert BelowZeroPeak(x, n);
    }
  }

  // ----- Falls between any two values -----

  ghost predicate StartsPositive(x: seq<real>) {
    x != [] && x[0] > 0.0
  }

  /** Every running peak is positive and `m` is the largest fall from one. */
  ghost predicate IsLargestFromPeak(x: seq<real>, m: real) {
    && (forall j :: 0 <= j < |x| ==> PeakAt(x, j) > 0.0)
    && (forall j :: 0 <= j < |x| ==> Fall(PeakAt(x, j), x[j]) <= m)
    && (exists j :: 0 <= j < |x| && Fall(PeakAt(x, j), x[j]) == m)
  }

  ghost predicate SomeFallIs(x: seq<real>, m: real) {
    exists i, j :: 0 <= i <= j < |x| && x[i] > 0.0 && Fall(x[i], x[j]) == m
  }

  /** `m` is the largest fall from any positive value to any value at the same place or later. */
  ghost predicate IsLargestFall(x: seq<real>, m: real) {
    && (forall i, j :: 0 <= i <= j < |x| && x[i] > 0.0 ==> Fall(x[i], x[j]) <= m)
    && SomeFallIs(x, m)
  }

  lemma {:induction false} HigherFallsFurther(a: real, b: real, to: real)
    requires 0.0 < a <= b && to >= 0.0
    ensures Fall(a, to) <= Fall(b, to)
  {
    var p, q := Fall(a, to), Fall(b, to);
    OverTimes(a - to, a);
    OverTimes(b - to, b);
    assert (1.0 - p) * a == to && (1.0 - q) * b == to;
    if p > q {
      if 1.0 - q <= 0.0 {
        Positive(p - q, a, (p - q) * a);
        SameSign(q - 1.0, b - a, (q - 1.0) * (b - a));
        SameSign(q - 1.0, b, (q - 1.0) * b);
      } else {
        Positive(p - q, a, (p - q) * a);
        SameSign(1.0 - q, b - a, (1.0 - q) * (b - a));
      }
    }
  }

  lemma {:induction false} FallRange(from: real, to: real)
    requires from > 0.0 && 0.0 <= to <= from
    ensures 0.0 <= Fall(from, to) <= 1.0
    ensures to > 0.0 ==> Fall(from, to) < 1.0
  {
    var p := Fall(from, to);
    OverTimes(from - to, from);
    assert (1.0 - p) * from == to;
    if p >= 1.0 {
      SameSign(p - 1.0, from, (p - 1.0) * from);
      if p > 1.0 {
        Positive(p - 1.0, from, (p - 1.0) * from);
      }
    }
    if p < 0.0 {
      Positive(-p, from, -p * from);
    }
  }

  lemma {:induction false} LowerFallsFurther(a: real, b: real, to: real)
    requires 0.0 < a < b && to < 0.0
    ensures Fall(a, to) > Fall(b, to)
  {
    var p, q := Fall(a, to), Fall(b, to);
    OverTimes(a - to, a);
    OverTimes(b - to, b);
    assert (p - 1.0) * a == -to && (q - 1.0) * b == -to;
    if p <= q {
      if q - 1.0 <= 0.0 {
        SameSign(1.0 - q, b, (1.0 - q) * b);
      } else {
        SameSign(q - p, a, (q - p) * a);
        Positive(q - 1.0, b - a, (q - 1.0) * (b - a));
      }
    }
  }

  lemma {:induction false} NegativeFallsBelowOne(from: real, to: real)
    requires from > 0.0
    ensures Fall(from, to) > 1.0 <==> to < 0.0
  {
    var p := Fall(from, to);
    OverTimes(from - to, from);
    assert (p - 1.0) * from == -to;
    if p > 1.0 {
      Positive(p - 1.0, from, (p - 1.0) * from);
    } else {
      SameSign(1.0 - p, from, (1.0 - p) * from);
    }
  }

  /** No fall to a value that is not negative exceeds the fall from the running peak. */
  lemma {:induction false} PeakFallsFurthest(x: seq<real>, i: nat, j: nat)
    requires i <= j < |x| && x[i] > 0.0 && x[j] >= 0.0
    ensures PeakAt(x, j) > 0.0 && Fall(x[i], x[j]) <= Fall(PeakAt(x, j), x[j])
  {
    PeakIsMaximum(x, j);
    HigherFallsFurther(x[i], PeakAt(x, j), x[j]);
  }

  /** Where the largest fall from a peak is found, it is a fall between two values. */
  lemma {:induction false} PeakIsAValue(x: seq<real>, m: real) returns (i: nat, j: nat)
    requires IsLargestFromPeak(x, m)
    ensures i <= j < |x| && x[i] == PeakAt(x, j) && x[i] > 0.0 && Fall(x[i], x[j]) == m
  {
    j :| 0 <= j < |x| && Fall(PeakAt(x, j), x[j]) == m;
    PeakIsMaximum(x, j);
    i :| 0 <= i <= j && x[i] == PeakAt(x, j);
  }

  /** For values none of which is negative, looking back at the running peak alone finds the largest
      fall between any two values, a fraction from 0 to 1 and less than 1 if all are positive. */
  lemma {:induction false} PeaksSuffice(x: seq<real>, m: real)
    requires forall j :: 0 <= j < |x| ==> x[j] >= 0.0
    requires IsLargestFromPeak(x, m)
    ensures IsLargestFall(x, m) && 0.0 <= m <= 1.0
    ensures (forall j :: 0 <= j < |x| ==> x[j] > 0.0) ==> m < 1.0
  {
    forall i, j | 0 <= i <= j < |x| && x[i] > 0.0 ensures Fall(x[i], x[j]) <= m {
      PeakFallsFurthest(x, i, j);
    }
    var i, j := PeakIsAValue(x, m);
    PeakIsMaximum(x, j);
    FallRange(x[i], x[j]);
  }

  // ----- Exactly when the peaks suffice -----

  /** Nobody falls below zero by more than the first value falls to place `k`, and before that every
      positive value was the first one. */
  ghost predicate WorstFromFirst(x: seq<real>, k: nat)
    requires StartsPositive(x) && k < |x|
  {
    && x[k] < 0.0
    && (forall i :: 0 <= i <= k && x[i] > 0.0 ==> x[i] == x[0])
    && (forall i, j :: 0 <= i <= j < |x| && x[i] > 0.0 > x[j] ==> Fall(x[i], x[j]) <= Fall(x[0], x[k]))
  }

  ghost predicate PeaksTell(x: seq<real>)
    requires StartsPositive(x)
  {
    (forall j :: 0 <= j < |x| ==> x[j] >= 0.0) || (exists k :: 0 <= k < |x| && WorstFromFirst(x, k))
  }

  lemma {:induction false} WorstIsAPeak(x: seq<real>, k: nat)
    requires StartsPositive(x) && k < |x| && WorstFromFirst(x, k)
    ensures PeakAt(x, k) == x[0]
  {
    PeakIsMaximum(x, k);
    var i :| 0 <= i <= k && x[i] == PeakAt(x, k);
    assert x[0] <= PeakAt(x, k);
  }

  lemma {:induction false} WorstSuffices(x: seq<real>, m: real, k: nat)
    requires StartsPositive(x) && IsLargestFromPeak(x, m) && k < |x| && WorstFromFirst(x, k)
    ensures IsLargestFall(x, m)
  {
    WorstIsAPeak(x, k);
    forall i, j | 0 <= i <= j < |x| && x[i] > 0.0 ensures Fall(x[i], x[j]) <= m {
      if x[j] >= 0.0 {
        PeakFallsFurthest(x, i, j);
      } else {
        assert Fall(x[i], x[j]) <= Fall(x[0], x[k]);
      }
    }
    var i, j := PeakIsAValue(x, m);
  }

  /** If the largest fall goes below zero, it starts from the first value. */
  lemma {:induction false} LargestStartsFirst(x: seq<real>, m: real, n: nat) returns (k: nat)
    requires StartsPositive(x) && IsLargestFromPeak(x, m) && IsLargestFall(x, m)
    requires n < |x| && x[n] < 0.0
    ensures k < |x| && WorstFromFirst(x, k)
  {
    var i;
    i, k := PeakIsAValue(x, m);
    NegativeFallsBelowOne(PeakAt(x, n), x[n]);
    NegativeFallsBelowOne(x[i], x[k]);
    forall h | 0 <= h <= k && x[h] > 0.0 ensures x[h] == x[i] {
      PeakIsMaximum(x, k);
      if x[h] < x[i] {
        LowerFallsFurther(x[h], x[i], x[k]);
      }
    }
    assert x[0] == x[i];
  }

  /** For every series that starts above zero: the one pass finds the largest fall between any two
      values exactly if no value is negative, or the worst fall below zero starts from the first
      value with no other positive value before its end. */
  lemma {:induction false} PeaksSufficeExactly(x: seq<real>, m: real)
    requires StartsPositive(x) && IsLargestFromPeak(x, m)
    ensures IsLargestFall(x, m) <==> PeaksTell(x)
  {
    if forall j :: 0 <= j < |x| ==> x[j] >= 0.0 {
      PeaksSuffice(x, m);
    } else {
      var n :| 0 <= n < |x| && x[n] < 0.0;
      if IsLargestFall(x, m) {
        var k := LargestStartsFirst(x, m, n);
      }
      if k :| 0 <= k < |x| && WorstFromFirst(x, k) {
        WorstSuffices(x, m, k);
      }
    }
  }

  // ----- Series that do not start above zero -----

  /** Place `p` holds the first positive value. */
  ghost predicate FirstPositive(x: seq<real>, p: nat) {
    p < |x| && x[p] > 0.0 && forall i :: 0 <= i < p ==> x[i] <= 0.0
  }

  lemma {:induction false} PeakFromPositive(x: seq<real>, p: nat, j: nat)
    requires FirstPositive(x, p) && p + j < |x|
    ensures PeakAt(x, p + j) == PeakAt(x[p..], j) && PeakAt(x, p + j) > 0.0
  {
    if j > 0 {
      PeakFromPositive(x, p, j - 1);
    } else if p > 0 {
      PeakIsMaximum(x, p - 1);
    }
  }

  lemma {:induction false} FallFromLoss(from: real, to: real)
    requires to <= from < 0.0
    ensures Fall(from, to) <= 0.0
  {
    var p := Fall(from, to);
    OverTimes(from - to, from);
    if p > 0.0 {
      Positive(p, -from, p * -from);
    }
  }

  /** What comes before the first positive value leaves no trace, unless the result is infinite. */
  lemma {:induction false} LossesLeaveNoTrace(x: seq<real>, p: nat, m: real)
    requires FirstPositive(x, p) && IsDrawdownOf(x, |x|, Finite(m))
    ensures IsLargestFromPeak(x[p..], m)
    ensures IsLargestFall(x, m) <==> IsLargestFall(x[p..], m)
  {
    var y := x[p..];
    forall j | 0 <= j < |y| ensures PeakAt(y, j) > 0.0 && Fall(PeakAt(y, j), y[j]) <= m {
      PeakFromPositive(x, p, j);
      assert y[j] == x[p + j];
    }
    LossesFound(x, p, m);
    if IsLargestFall(x, m) {
      FallsFromPositive(x, p, m);
    }
    if IsLargestFall(y, m) {
      FallsBeforePositive(x, p, m);
    }
  }

  lemma {:induction false} LossesFound(x: seq<real>, p: nat, m: real)
    requires FirstPositive(x, p) && IsDrawdownOf(x, |x|, Finite(m))
    ensures exists j :: 0 <= j < |x[p..]| && PeakAt(x[p..], j) != 0.0 && Fall(PeakAt(x[p..], j), x[p..][j]) == m
  {
    var y := x[p..];
    if m == 0.0 {
      OverIs(y[0] - y[0], y[0], 0.0);
      assert PeakAt(y, 0) == y[0] && Fall(PeakAt(y, 0), y[0]) == m;
    } else {
      var j :| 0 <= j < |x| && PeakAt(x, j) != 0.0 && Fall(PeakAt(x, j), x[j]) == m;
      PeakIsMaximum(x, j);
      if j < p {
        FallFromLoss(PeakAt(x, j), x[j]);
      } else {
        PeakFromPositive(x, p, j - p);
        assert y[j - p] == x[j] && Fall(PeakAt(y, j - p), y[j - p]) == m;
      }
    }
  }

  lemma {:induction false} FallsFromPositive(x: seq<real>, p: nat, m: real)
    requires FirstPositive(x, p) && IsLargestFall(x, m)
    ensures IsLargestFall(x[p..], m)
  {
    var y := x[p..];
    assert forall i :: 0 <= i < |y| ==> y[i] == x[p + i];
    forall i, j | 0 <= i <= j < |y| && y[i] > 0.0 ensures Fall(y[i], y[j]) <= m {
      var h, k := p + i, p + j;
      assert x[h] > 0.0 && Fall(x[h], x[k]) <= m;
    }
    LargestIsFromPositive(x, p, m);
  }

  lemma {:induction false} LargestIsFromPositive(x: seq<real>, p: nat, m: real)
    requires FirstPositive(x, p) && SomeFallIs(x, m)
    ensures SomeFallIs(x[p..], m)
  {
    var y := x[p..];
    var i, j :| 0 <= i <= j < |x| && x[i] > 0.0 && Fall(x[i], x[j]) == m;
    assert i >= p && y[i - p] == x[i] && y[j - p] == x[j];
  }

  lemma {:induction false} FallsBeforePositive(x: seq<real>, p: nat, m: real)
    requires FirstPositive(x, p) && IsLargestFall(x[p..], m)
    ensures IsLargestFall(x, m)
  {
    var y := x[p..];
    forall i, j | 0 <= i <= j < |x| && x[i] > 0.0 ensures Fall(x[i], x[j]) <= m {
      assert i >= p && y[i - p] == x[i] && y[j - p] == x[j];
    }
    var i, j :| 0 <= i <= j < |y| && y[i] > 0.0 && Fall(y[i], y[j]) == m;
    assert x[p + i] == y[i] && x[p + j] == y[j];
  }

  lemma {:induction false} FindFirstPositive(x: seq<real>, i: nat) returns (p: nat)
    requires i < |x| && x[i] > 0.0
    ensures FirstPositive(x, p)
  {
    p := 0;
    while x[p] <= 0.0
      invariant p <= i && forall h :: 0 <= h < p ==> x[h] <= 0.0
      decreases i - p
    {
      p := p + 1;
    }
  }

  /** For every series at all on which the pass gives a number: that is the largest fall from a
      positive value exactly if the peaks tell it from the first positive value on. */
  lemma {:induction false} DrawdownExactly(x: seq<real>, m: real)
    requires IsDrawdownOf(x, |x|, Finite(m))
    ensures IsLargestFall(x, m) <==> exists p: nat :: FirstPositive(x, p) && PeaksTell(x[p..])
  {
    if IsLargestFall(x, m) {
      var i, j :| 0 <= i <= j < |x| && x[i] > 0.0 && Fall(x[i], x[j]) == m;
      var p := FindFirstPositive(x, i);
      LossesLeaveNoTrace(x, p, m);
      PeaksSufficeExactly(x[p..], m);
      assert FirstPositive(x, p) && PeaksTell(x[p..]);
    }
    if p: nat :| FirstPositive(x, p) && PeaksTell(x[p..]) {
      LossesLeaveNoTrace(x, p, m);
      PeaksSufficeExactly(x[p..], m);
    }
  }

  // ----- The same as losses, by multiplication alone -----

  /** No later value is less than a loss of `m` leaves of a positive one, and some is just that. */
  ghost predicate IsLargestLoss(x: seq<real>, m: real) {
    && (forall i, j :: 0 <= i <= j < |x| && x[i] > 0.0 ==> x[j] >= Left(x[i], m))
    && (exists i, j :: 0 <= i <= j < |x| && x[i] > 0.0 && x[j] == Left(x[i], m))
  }

  /** The same of the running peaks, also below zero; a peak of zero is not fallen from. */
  ghost predicate IsLargestPeakLoss(x: seq<real>, m: real) {
    && m >= 0.0
    && (forall j :: 0 <= j < |x| ==>
          var peak := PeakAt(x, j);
          && (peak > 0.0 ==> x[j] >= Left(peak, m))
          && (peak < 0.0 ==> x[j] <= Left(peak, m))
          && (peak == 0.0 ==> x[j] >= 0.0))
    && (m == 0.0 || exists j :: 0 <= j < |x| && PeakAt(x, j) != 0.0 && x[j] == Left(PeakAt(x, j), m))
  }

  lemma {:induction false} LargestFallIsLoss(x: seq<real>, m: real)
    ensures IsLargestFall(x, m) <==> IsLargestLoss(x, m)
  {
    forall i, j | 0 <= i <= j < |x| && x[i] > 0.0
      ensures Fall(x[i], x[j]) <= m <==> x[j] >= Left(x[i], m)
      ensures Fall(x[i], x[j]) == m <==> x[j] == Left(x[i], m)
    {
      FallIsLoss(x[i], x[j], m);
    }
  }

  lemma {:induction false} PeakFallIsLoss(x: seq<real>, m: real)
    ensures IsDrawdownOf(x, |x|, Finite(m)) <==> IsLargestPeakLoss(x, m)
  {
    forall j | 0 <= j < |x|
      ensures
        var peak := PeakAt(x, j);
        && BelowZeroPeak(x, j) == (peak == 0.0 && x[j] < 0.0)
        && (peak > 0.0 ==> (Fall(peak, x[j]) <= m <==> x[j] >= Left(peak, m)))
        && (peak < 0.0 ==> (Fall(peak, x[j]) <= m <==> x[j] <= Left(peak, m)))
        && (peak != 0.0 ==> (Fall(peak, x[j]) == m <==> x[j] == Left(peak, m)))
    {
      if PeakAt(x, j) != 0.0 {
        FallIsLoss(PeakAt(x, j), x[j], m);
      }
    }
  }

  lemma {:induction false} DrawdownIsLoss(x: seq<real>, r: Double)
    requires x != [] && IsDrawdownOf(x, |x|, r)
    ensures r.Finite? ==> IsLargestPeakLoss(x, r.value)
    ensures r.Finite? && (forall j :: 0 <= j < |x| ==> x[j] > 0.0) ==> IsLargestLoss(x, r.value)
  {
    if r.Finite? {
      PeakFallIsLoss(x, r.value);
      if forall j :: 0 <= j < |x| ==> x[j] > 0.0 {
        assert x[0..] == x;
        LossesLeaveNoTrace(x, 0, r.value);
        PeaksSuffice(x, r.value);
        LargestFallIsLoss(x, r.value);
      }
    }
  }

  method CalculateMaxDrawdown(series: seq<real>) returns (maxDrawdown: Double)
    requires series != []
    ensures IsDrawdownOf(series, |series|, maxDrawdown)
    ensures maxDrawdown.Finite? ==> IsLargestPeakLoss(series, maxDrawdown.value)
    ensures maxDrawdown.Finite? && (forall j :: 0 <= j < |series| ==> series[j] > 0.0) ==>
      IsLargestLoss(series, maxDrawdown.value)
  {
    maxDrawdown := Finite(0.0);
    var peak := series[0];
    for i := 0 to |series|
      invariant peak == if i == 0 then series[0] else PeakAt(series, i - 1)
      invariant IsDrawdownOf(series, i, maxDrawdown)
    {
      if series[i] > peak {
        peak := series[i];
      }
      WorseGoesOn(series, i, maxDrawdown);
      maxDrawdown := Worse(maxDrawdown, peak, series[i]);
    }
    DrawdownIsLoss(series, maxDrawdown);
  }

  /** A witness: after any rise from `a` to `b`, the fall to a negative value is larger from `a` than
      from the peak. */
  lemma {:induction false} RiseThenLoss(a: real, b: real, to: real, m: real)
    requires 0.0 < a < b && to < 0.0 && IsLargestFromPeak([a, b, to], m)
    ensures !PeaksTell([a, b, to]) && !IsLargestFall([a, b, to], m)
  {
    var x := [a, b, to];
    assert x[1] != x[0] && x[2] < 0.0;
    forall k | 0 <= k < |x| ensures !WorstFromFirst(x, k) {
      assert k == 2 ==> x[1] > 0.0;
    }
    PeaksSufficeExactly(x, m);
  }
}
