/** Rolling correlation of two closing-price histories over the timestamps they share. A history is
    an ordered map, so a sequence in ascending order of timestamp. */
module MovingCorrelation {
  import opened Orders
  import opened Squares
  import opened Correlation

  datatype Close = Close(ts: int, price: real)
  datatype AlignedBar = AlignedBar(ts: int, c1: real, c2: real)
  datatype Point = Point(timestamp: int, correlation: real)

  ghost predicate Ascending(m: seq<Close>) {
    forall i, j :: 0 <= i < j < |m| ==> m[i].ts < m[j].ts
  }

  ghost predicate InOrder(bars: seq<AlignedBar>) {
    forall i, j :: 0 <= i < j < |bars| ==> bars[i].ts < bars[j].ts
  }

  function Lookup(m: seq<Close>, ts: int): Option<real> {
    if m == [] then None else if m[0].ts == ts then Some(m[0].price) else Lookup(m[1..], ts)
  }

  /** The bars for the timestamps both histories have. */
  function Aligned(m1: seq<Close>, m2: seq<Close>): seq<AlignedBar> {
    if m1 == [] then []
    else
      var rest := Aligned(m1[1..], m2);
      match Lookup(m2, m1[0].ts)
      case Some(c2) => [AlignedBar(m1[0].ts, m1[0].price, c2)] + rest
      case None => rest
  }

  // ----- What alignment is -----

  lemma {:induction false} LookupIsMembership(m: seq<Close>, ts: int, price: real)
    requires Ascending(m)
    ensures Lookup(m, ts) == Some(price) <==> Close(ts, price) in m
  {
    if m != [] {
      assert m == [m[0]] + m[1..];
      LookupIsMembership(m[1..], ts, price);
    }
  }

  /** A bar is aligned exactly if each history has its own close at that timestamp. */
  lemma {:induction false} AlignedMembers(m1: seq<Close>, m2: seq<Close>, bar: AlignedBar)
    requires Ascending(m1) && Ascending(m2)
    ensures bar in Aligned(m1, m2) <==> Close(bar.ts, bar.c1) in m1 && Close(bar.ts, bar.c2) in m2
  {
    if m1 != [] {
      assert m1 == [m1[0]] + m1[1..];
      AlignedMembers(m1[1..], m2, bar);
      LookupIsMembership(m2, bar.ts, bar.c2);
    }
  }

  lemma {:induction false} AlignedInOrder(m1: seq<Close>, m2: seq<Close>)
    requires Ascending(m1) && Ascending(m2)
    ensures InOrder(Aligned(m1, m2))
  {
    if m1 != [] {
      AlignedInOrder(m1[1..], m2);
      var rest := Aligned(m1[1..], m2);
      forall i | 0 <= i < |rest| ensures m1[0].ts < rest[i].ts {
        AlignedMembers(m1[1..], m2, rest[i]);
        var k :| 0 <= k < |m1[1..]| && m1[1..][k] == Close(rest[i].ts, rest[i].c1);
        assert m1[k + 1].ts == rest[i].ts;
      }
    }
  }

  ghost predicate SameMembers(a: seq<AlignedBar>, b: seq<AlignedBar>) {
    forall bar :: bar in a <==> bar in b
  }

  lemma {:induction false} FirstIsSame(a: seq<AlignedBar>, b: seq<AlignedBar>)
    requires InOrder(a) && InOrder(b) && SameMembers(a, b) && a != [] && b != []
    ensures a[0] == b[0] && SameMembers(a[1..], b[1..])
  {
    assert a[0] in b && b[0] in a;
    var i :| 0 <= i < |b| && b[i] == a[0];
    var j :| 0 <= j < |a| && a[j] == b[0];
    assert a == [a[0]] + a[1..] && b == [b[0]] + b[1..];
    assert a[0] !in a[1..] && b[0] !in b[1..];
    forall bar ensures bar in a[1..] <==> bar in b[1..] {
      assert bar in a <==> bar in b;
    }
  }

  lemma {:induction false} NotEmpty(a: seq<AlignedBar>, b: seq<AlignedBar>)
    requires SameMembers(a, b) && a != []
    ensures b != []
  {
    assert a[0] in a;
  }

  /** Ordered bars are determined by their members: sorting the aligned bars again changes nothing. */
  lemma {:induction false} OrderIsUnique(a: seq<AlignedBar>, b: seq<AlignedBar>)
    requires InOrder(a) && InOrder(b) && SameMembers(a, b)
    ensures a == b
  {
    if b != [] {
      NotEmpty(b, a);
    }
    if a != [] {
      NotEmpty(a, b);
      FirstIsSame(a, b);
      OrderIsUnique(a[1..], b[1..]);
      assert a == [a[0]] + a[1..] && b == [b[0]] + b[1..];
    }
  }

  // ----- The points -----

  function Firsts(bars: seq<AlignedBar>): seq<real> {
    seq(|bars|, i requires 0 <= i < |bars| => bars[i].c1)
  }

  function Seconds(bars: seq<AlignedBar>): seq<real> {
    seq(|bars|, i requires 0 <= i < |bars| => bars[i].c2)
  }

  /** The window that begins at `k`, stamped with its last timestamp. */
  function PointAt(bars: seq<AlignedBar>, window: nat, k: nat, sqrt: real -> real): Point
    requires 0 < window && k + window <= |bars|
  {
    var w := bars[k..k + window];
    Point(bars[k + window - 1].ts, OnePass(Firsts(w), Seconds(w), sqrt))
  }

  /** `r` is the coefficient of the two columns of closes of the `window` bars from place `k` on. */
  ghost predicate IsCoefficientAt(r: real, bars: seq<AlignedBar>, window: nat, k: nat, sqrt: real -> real)
    requires k + window <= |bars|
  {
    exists x: seq<real>, y: seq<real> ::
      && |x| == |y| == window
      && (forall t :: 0 <= t < window ==> x[t] == bars[k + t].c1 && y[t] == bars[k + t].c2)
      && r == OnePass(x, y, sqrt)
  }

  lemma {:induction false} PointIsItsWindow(bars: seq<AlignedBar>, window: nat, k: nat, sqrt: real -> real)
    requires 0 < window && k + window <= |bars|
    ensures PointAt(bars, window, k, sqrt).timestamp == bars[k + window - 1].ts
    ensures IsCoefficientAt(PointAt(bars, window, k, sqrt).correlation, bars, window, k, sqrt)
  {
    var x, y := Firsts(bars[k..k + window]), Seconds(bars[k..k + window]);
    assert forall t :: 0 <= t < window ==> x[t] == bars[k + t].c1 && y[t] == bars[k + t].c2;
  }

  /** How many windows are reported. */
  function Count(n: nat, window: nat, limit: nat): nat {
    if n < window then 0 else Min(limit, n - window + 1)
  }

  ghost predicate IsMovingCorrelation(data: seq<Point>, bars: seq<AlignedBar>, window: nat, limit: nat,
                                      sqrt: real -> real)
    requires 0 < window
  {
    && |data| == Count(|bars|, window, limit)
    && forall k :: 0 <= k < |data| ==> data[k] == PointAt(bars, window, k, sqrt)
  }

  /** Every full window is reported, up to the limit, at its last timestamp with its coefficient. */
  ghost predicate ReportsWindows(data: seq<Point>, bars: seq<AlignedBar>, window: nat, limit: nat,
                                 sqrt: real -> real)
    requires 0 < window
  {
    && (|data| == if |bars| < window then 0 else if limit < |bars| - window + 1 then limit else |bars| - window + 1)
    && (forall k :: 0 <= k < |data| ==> data[k].timestamp == bars[k + window - 1].ts)
    && (forall k :: 0 <= k < |data| ==> IsCoefficientAt(data[k].correlation, bars, window, k, sqrt))
  }

  lemma {:induction false} PointsAreTheirWindows(data: seq<Point>, bars: seq<AlignedBar>, window: nat, limit: nat,
                                                 sqrt: real -> real)
    requires 0 < window && IsMovingCorrelation(data, bars, window, limit, sqrt)
    ensures ReportsWindows(data, bars, window, limit, sqrt)
  {
    forall k | 0 <= k < |data|
      ensures data[k].timestamp == bars[k + window - 1].ts
      ensures IsCoefficientAt(data[k].correlation, bars, window, k, sqrt)
    {
      PointIsItsWindow(bars, window, k, sqrt);
    }
  }

  /** Timestamps ascend and every coefficient lies between -1 and 1. */
  lemma {:induction false} PointsAreProper(data: seq<Point>, m1: seq<Close>, m2: seq<Close>, window: nat, limit: nat,
                                           sqrt: real -> real)
    requires 0 < window && Ascending(m1) && Ascending(m2) && IsSqrt(sqrt)
    requires IsMovingCorrelation(data, Aligned(m1, m2), window, limit, sqrt)
    ensures forall i, j :: 0 <= i < j < |data| ==> data[i].timestamp < data[j].timestamp
    ensures forall k :: 0 <= k < |data| ==> -1.0 <= data[k].correlation <= 1.0
  {
    var bars := Aligned(m1, m2);
    AlignedInOrder(m1, m2);
    forall k | 0 <= k < |data| ensures -1.0 <= data[k].correlation <= 1.0 {
      var w := bars[k..k + window];
      CoefficientIsBounded(Firsts(w), Seconds(w), sqrt);
    }
  }

  // ----- Which history comes first does not matter -----

  function Swapped(bar: AlignedBar): AlignedBar {
    AlignedBar(bar.ts, bar.c2, bar.c1)
  }

  function SwapAll(bars: seq<AlignedBar>): seq<AlignedBar> {
    seq(|bars|, i requires 0 <= i < |bars| => Swapped(bars[i]))
  }

  lemma {:induction false} AlignedSwaps(m1: seq<Close>, m2: seq<Close>)
    requires Ascending(m1) && Ascending(m2)
    ensures Aligned(m2, m1) == SwapAll(Aligned(m1, m2))
  {
    var a, b := Aligned(m2, m1), SwapAll(Aligned(m1, m2));
    AlignedInOrder(m1, m2);
    AlignedInOrder(m2, m1);
    forall bar ensures bar in a <==> bar in b {
      AlignedMembers(m2, m1, bar);
      AlignedMembers(m1, m2, Swapped(bar));
      if bar in b {
        var i :| 0 <= i < |b| && b[i] == bar;
        assert Aligned(m1, m2)[i] == Swapped(bar);
      }
      if Swapped(bar) in Aligned(m1, m2) {
        var i :| 0 <= i < |b| && Aligned(m1, m2)[i] == Swapped(bar);
        assert b[i] == bar;
      }
    }
    OrderIsUnique(a, b);
  }

  lemma {:induction false} ProductsSwap(x: seq<real>, y: seq<real>)
    requires |x| == |y|
    ensures Products(x, y, 0.0, 0.0) == Products(y, x, 0.0, 0.0)
  {
    forall i | 0 <= i < |x| ensures (x[i] - 0.0) * (y[i] - 0.0) == (y[i] - 0.0) * (x[i] - 0.0) {
    }
  }

  lemma {:induction false} RawSwaps(n: real, sxy: real, sx: real, sy: real)
    ensures Raw(n, sxy, sx, sy) == Raw(n, sxy, sy, sx)
  {
  }

  lemma {:induction false} CoefficientSwaps(a: real, b: real, c: real, sqrt: real -> real)
    ensures Coefficient(a, b, c, sqrt) == Coefficient(b, a, c, sqrt)
  {
    assert Times(a, b) == Times(b, a);
  }

  lemma {:induction false} OnePassSwaps(x: seq<real>, y: seq<real>, sqrt: real -> real)
    requires |x| == |y|
    ensures OnePass(x, y, sqrt) == OnePass(y, x, sqrt)
  {
    ProductsSwap(x, y);
    RawSwaps(|x| as real, Sum(Products(x, y, 0.0, 0.0)), Sum(x), Sum(y));
    CoefficientSwaps(Spread(x, x), Spread(y, y), Spread(x, y), sqrt);
  }

  lemma {:induction false} ColumnsSwap(bars: seq<AlignedBar>)
    ensures Firsts(SwapAll(bars)) == Seconds(bars) && Seconds(SwapAll(bars)) == Firsts(bars)
  {
  }

  lemma {:induction false} WindowSwaps(bars: seq<AlignedBar>, lo: nat, hi: nat)
    requires lo <= hi <= |bars|
    ensures SwapAll(bars)[lo..hi] == SwapAll(bars[lo..hi])
  {
  }

  lemma {:induction false} PointSwaps(bars: seq<AlignedBar>, window: nat, k: nat, sqrt: real -> real)
    requires 0 < window && k + window <= |bars|
    ensures PointAt(SwapAll(bars), window, k, sqrt) == PointAt(bars, window, k, sqrt)
  {
    var w := bars[k..k + window];
    WindowSwaps(bars, k, k + window);
    ColumnsSwap(w);
    OnePassSwaps(Firsts(w), Seconds(w), sqrt);
  }

  /** Exchanging the two symbols gives the same points. */
  lemma {:induction false} SymbolsExchange(data: seq<Point>, m1: seq<Close>, m2: seq<Close>, window: nat, limit: nat,
                                           sqrt: real -> real)
    requires 0 < window && Ascending(m1) && Ascending(m2)
    requires IsMovingCorrelation(data, Aligned(m1, m2), window, limit, sqrt)
    ensures IsMovingCorrelation(data, Aligned(m2, m1), window, limit, sqrt)
  {
    AlignedSwaps(m1, m2);
    forall k | 0 <= k < |data| ensures data[k] == PointAt(Aligned(m2, m1), window, k, sqrt) {
      PointSwaps(Aligned(m1, m2), window, k, sqrt);
    }
  }

  // ----- The program -----

  method Align(map1: seq<Close>, map2: seq<Close>) returns (aligned: seq<AlignedBar>)
    ensures aligned == Aligned(map1, map2)
  {
    aligned := [];
    for i := 0 to |map1|
      invariant aligned + Aligned(map1[i..], map2) == Aligned(map1, map2)
    {
      assert map1[i..][1..] == map1[i + 1..];
      match Lookup(map2, map1[i].ts)
      case Some(c2) => aligned := aligned + [AlignedBar(map1[i].ts, map1[i].price, c2)];
      case None =>
    }
  }

  method CutWindow(aligned: seq<AlignedBar>, lo: nat, hi: nat) returns (x: seq<real>, y: seq<real>)
    requires lo <= hi <= |aligned|
    ensures x == Firsts(aligned[lo..hi]) && y == Seconds(aligned[lo..hi])
  {
    x, y := [], [];
    for j := lo to hi
      invariant |x| == |y| == j - lo
      invariant forall t :: 0 <= t < j - lo ==> x[t] == aligned[lo + t].c1 && y[t] == aligned[lo + t].c2
    {
      x := x + [aligned[j].c1];
      y := y + [aligned[j].c2];
    }
  }

  method LastPoint(aligned: seq<AlignedBar>, window: nat, i: nat, sqrt: real -> real) returns (point: Point)
    requires 0 < window <= i + 1 <= |aligned|
    ensures point == PointAt(aligned, window, i + 1 - window, sqrt)
    ensures point.timestamp == aligned[i].ts
    ensures IsCoefficientAt(point.correlation, aligned, window, i + 1 - window, sqrt)
  {
    PointIsItsWindow(aligned, window, i + 1 - window, sqrt);
    var x, y := CutWindow(aligned, i - window + 1, i + 1);
    var r := Pearson(x, y, sqrt);
    point := Point(aligned[i].ts, r);
  }

  method Points(aligned: seq<AlignedBar>, window: nat, limit: nat, sqrt: real -> real) returns (data: seq<Point>)
    requires 0 < window && 0 < limit
    ensures IsMovingCorrelation(data, aligned, window, limit, sqrt)
    ensures ReportsWindows(data, aligned, window, limit, sqrt)
  {
    data := [];
    if |aligned| >= window {
      var i, outputCount := window - 1, 0;
      while i < |aligned| && outputCount < limit
        invariant outputCount == |data| == i - (window - 1)
        invariant i <= |aligned| && outputCount <= limit
        invariant forall k :: 0 <= k < |data| ==> data[k] == PointAt(aligned, window, k, sqrt)
      {
        var point := LastPoint(aligned, window, i, sqrt);
        data := data + [point];
        outputCount := outputCount + 1;
        i := i + 1;
      }
    }
    PointsAreTheirWindows(data, aligned, window, limit, sqrt);
  }

  /** A window or limit that is not positive stands for the default. */
  method Compute(map1: seq<Close>, map2: seq<Close>, paramWindow: int, paramLimit: int, sqrt: real -> real)
    returns (data: seq<Point>)
    ensures
      var window := if paramWindow > 0 then paramWindow else 20;
      var limit := if paramLimit > 0 then paramLimit else 200;
      IsMovingCorrelation(data, Aligned(map1, map2), window, limit, sqrt)
    ensures
      var window := if paramWindow > 0 then paramWindow else 20;
      var limit := if paramLimit > 0 then paramLimit else 200;
      ReportsWindows(data, Aligned(map1, map2), window, limit, sqrt)
  {
    var window := if paramWindow > 0 then paramWindow else 20;
    var limit := if paramLimit > 0 then paramLimit else 200;
    var aligned := Align(map1, map2);
    data := Points(aligned, window, limit, sqrt);
  }
}
