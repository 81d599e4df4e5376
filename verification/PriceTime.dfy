/** Price-time priority stated on its own: two plain lists of orders in priority order, one
    greedy walk, and a closed formula for what that walk takes from each resting order.
    There are no levels, maps, iterators or indexes here. */
module PriceTime {
  import opened Orders
  import opened Sequences

  datatype Quotes = Quotes(bids: seq<Order>, asks: seq<Order>)
  {
    function Own(side: Side): seq<Order> {
      if side.Buy? then bids else asks
    }

    function Opposite(side: Side): seq<Order> {
      if side.Buy? then asks else bids
    }

    predicate Live(id: nat) {
      Find(bids, id).Some? || Find(asks, id).Some?
    }
  }

  function Assemble(side: Side, own: seq<Order>, opposite: seq<Order>): Quotes {
    if side.Buy? then Quotes(own, opposite) else Quotes(opposite, own)
  }

  /** Prices never improve along the list. */
  ghost predicate Ranked(side: Side, f: seq<Order>) {
    forall i, j :: 0 <= i < j < |f| ==> !Better(side, f[j].price, f[i].price)
  }

  /** Behind everything at an equal or better price, ahead of everything worse. */
  function Insert(side: Side, f: seq<Order>, o: Order): seq<Order> {
    if f == [] || Better(side, o.price, f[0].price) then [o] + f
    else [f[0]] + Insert(side, f[1..], o)
  }

  function Drop(f: seq<Order>, id: nat): seq<Order> {
    if f == [] then [] else if f[0].id == id then f[1..] else [f[0]] + Drop(f[1..], id)
  }

  datatype Swept = Swept(taker: Order, rest: seq<Order>, trades: seq<Trade>)

  /** Fill `taker` against the opposite orders from the best one on, while prices cross. */
  function Sweep(taker: Order, f: seq<Order>): Swept
    decreases |f|
  {
    if f == [] || taker.remaining == 0 || !Crosses(taker.side, taker.price, f[0].price) then
      Swept(taker, f, [])
    else
      var q := Min(taker.remaining, f[0].remaining);
      var trade := TradeOf(taker, f[0], q);
      if q < f[0].remaining then
        Swept(taker.Fill(q), [f[0].Fill(q)] + f[1..], [trade])
      else
        var s := Sweep(taker.Fill(q), f[1..]);
        Swept(s.taker, s.rest, [trade] + s.trades)
  }

  predicate CrossesFront(o: Order, f: seq<Order>) {
    f != [] && Crosses(o.side, o.price, f[0].price)
  }

  /** Reject a live id and an unmatchable fill-and-kill; otherwise sweep, and let what is not
      filled rest, unless it is to be killed. */
  function Add(v: Quotes, o: Order): (Quotes, seq<Trade>) {
    if v.Live(o.id) || (o.kind.FillAndKill? && !CrossesFront(o, v.Opposite(o.side))) then
      (v, [])
    else
      var s := Sweep(o, v.Opposite(o.side));
      var filled := s.trades != [] && s.taker.remaining == 0;
      var own := if filled || o.kind.FillAndKill? then v.Own(o.side) else Insert(o.side, v.Own(o.side), s.taker);
      (Assemble(o.side, own, s.rest), s.trades)
  }

  function Cancel(v: Quotes, id: nat): Quotes {
    Quotes(Drop(v.bids, id), Drop(v.asks, id))
  }

  function Modify(v: Quotes, o: Order): (Quotes, seq<Trade>) {
    if v.Live(o.id) then Add(Cancel(v, o.id), o) else (v, [])
  }

  // ----- What the walk takes, in closed form -----

  /** Order `k` is owed whatever the volume ahead of it leaves of the taker, up to its own size,
      provided its price crosses. */
  function Owed(taker: Order, f: seq<Order>, k: nat): nat
    requires k < |f|
  {
    var ahead := Volume(f[..k]);
    if Crosses(taker.side, taker.price, f[k].price) && ahead < taker.remaining
    then Min(f[k].remaining, taker.remaining - ahead)
    else 0
  }

  /** Volume at prices the taker accepts. */
  function CrossingVolume(taker: Order, f: seq<Order>): nat {
    if f == [] then 0
    else (if Crosses(taker.side, taker.price, f[0].price) then f[0].remaining else 0) + CrossingVolume(taker, f[1..])
  }

  function Traded(ts: seq<Trade>): nat {
    if ts == [] then 0 else ts[0].bid.quantity + Traded(ts[1..])
  }

  function OppositeSide(side: Side): Side {
    if side.Buy? then Sell else Buy
  }

  lemma {:induction false} NothingCrosses(taker: Order, f: seq<Order>)
    requires Ranked(OppositeSide(taker.side), f)
    requires !CrossesFront(taker, f)
    ensures CrossingVolume(taker, f) == 0
    ensures forall k :: 0 <= k < |f| ==> Owed(taker, f, k) == 0
  {
    if f != [] {
      forall k | 0 <= k < |f| ensures !Crosses(taker.side, taker.price, f[k].price) {
      }
      if |f| > 1 {
        assert !CrossesFront(taker, f[1..]);
      }
      NothingCrosses(taker, f[1..]);
    }
  }

  /** The closed form shifts with the walk: after the front is consumed, order `k + 1` is owed
      what order `k` of the remaining list is owed by the reduced taker. */
  lemma {:induction false} OwedShift(taker: Order, f: seq<Order>, k: nat)
    requires k + 1 < |f| && f[0].remaining <= taker.remaining
    ensures Owed(taker, f, k + 1) == Owed(taker.Fill(f[0].remaining), f[1..], k)
  {
    VolumePrefix(f, k + 1);
  }

  /** The j-th trade is with the j-th order in priority and for exactly what that order is owed;
      nobody beyond the trades is owed anything; only the last order traded with may be left in part. */
  ghost predicate TradesAsOwed(taker: Order, f: seq<Order>, ts: seq<Trade>) {
    && |ts| <= |f|
    && (forall j :: 0 <= j < |ts| ==> ts[j] == TradeOf(taker, f[j], Owed(taker, f, j)))
    && (forall k :: |ts| <= k < |f| ==> Owed(taker, f, k) == 0)
    && (forall j :: 0 <= j < |ts| - 1 ==> Owed(taker, f, j) == f[j].remaining)
  }

  /** What `m` trades for what is owed leave of the list. */
  function RestOf(taker: Order, f: seq<Order>, m: nat): seq<Order>
    requires m <= |f|
  {
    if m > 0 && Owed(taker, f, m - 1) < f[m - 1].remaining
    then [f[m - 1].Fill(Owed(taker, f, m - 1))] + f[m..] else f[m..]
  }

  /** `s` is what the closed form says of the walk of `taker` along `f`, and the list and the taker
      keep what the trades leave. */
  ghost predicate IsWaterfall(taker: Order, f: seq<Order>, s: Swept) {
    && TradesAsOwed(taker, f, s.trades)
    && s.rest == RestOf(taker, f, |s.trades|)
    && Traded(s.trades) == Min(taker.remaining, CrossingVolume(taker, f))
    && s.taker == taker.Fill(Traded(s.trades))
  }

  /** The greedy walk is the closed form. */
  lemma {:induction false} SweepIsWaterfall(taker: Order, f: seq<Order>)
    requires Ranked(OppositeSide(taker.side), f)
    ensures IsWaterfall(taker, f, Sweep(taker, f))
    decreases |f|
  {
    if f == [] || taker.remaining == 0 {
    } else if !Crosses(taker.side, taker.price, f[0].price) {
      NothingCrosses(taker, f);
    } else if taker.remaining < f[0].remaining {
      WaterfallEnds(taker, f);
    } else {
      var t := taker.Fill(f[0].remaining);
      SweepIsWaterfall(t, f[1..]);
      WaterfallGoesOn(taker, f, Sweep(t, f[1..]));
    }
  }

  lemma {:induction false} WaterfallEnds(taker: Order, f: seq<Order>)
    requires f != [] && Crosses(taker.side, taker.price, f[0].price) && 0 < taker.remaining < f[0].remaining
    ensures IsWaterfall(taker, f, Sweep(taker, f))
  {
    var s := Sweep(taker, f);
    assert f[..0] == [];
    forall k | 1 <= k < |f| ensures Owed(taker, f, k) == 0 {
      VolumePrefix(f, k);
    }
    assert Traded(s.trades) == taker.remaining by { assert s.trades[1..] == []; }
  }

  lemma {:induction false} OwedFirst(taker: Order, f: seq<Order>)
    requires f != [] && Crosses(taker.side, taker.price, f[0].price) && 0 < taker.remaining &&
        f[0].remaining <= taker.remaining
    ensures Owed(taker, f, 0) == f[0].remaining
  {
    assert f[..0] == [];
  }

  lemma {:induction false} TradesGoOn(taker: Order, f: seq<Order>, ts: seq<Trade>)
    requires f != [] && Crosses(taker.side, taker.price, f[0].price) && 0 < taker.remaining &&
        f[0].remaining <= taker.remaining
    requires TradesAsOwed(taker.Fill(f[0].remaining), f[1..], ts)
    ensures TradesAsOwed(taker, f, [TradeOf(taker, f[0], f[0].remaining)] + ts)
  {
    var t := taker.Fill(f[0].remaining);
    var all := [TradeOf(taker, f[0], f[0].remaining)] + ts;
    OwedFirst(taker, f);
    forall k | 1 <= k < |f| ensures Owed(taker, f, k) == Owed(t, f[1..], k - 1) {
      OwedShift(taker, f, k - 1);
    }
    forall j | 0 <= j < |all| ensures all[j] == TradeOf(taker, f[j], Owed(taker, f, j)) {
      if j > 0 {
        assert all[j] == ts[j - 1];
      }
    }
  }

  lemma {:induction false} RestGoesOn(taker: Order, f: seq<Order>, m: nat)
    requires f != [] && Crosses(taker.side, taker.price, f[0].price) && 0 < taker.remaining &&
        f[0].remaining <= taker.remaining
    requires m < |f|
    ensures RestOf(taker, f, m + 1) == RestOf(taker.Fill(f[0].remaining), f[1..], m)
  {
    OwedFirst(taker, f);
    assert f[1..][m..] == f[m + 1..];
    if m > 0 {
      OwedShift(taker, f, m - 1);
    }
  }

  lemma {:induction false} WaterfallGoesOn(taker: Order, f: seq<Order>, r: Swept)
    requires f != [] && Crosses(taker.side, taker.price, f[0].price) && 0 < taker.remaining &&
        f[0].remaining <= taker.remaining
    requires IsWaterfall(taker.Fill(f[0].remaining), f[1..], r)
    ensures IsWaterfall(taker, f, Swept(r.taker, r.rest, [TradeOf(taker, f[0], f[0].remaining)] + r.trades))
  {
    var t := taker.Fill(f[0].remaining);
    var ts := [TradeOf(taker, f[0], f[0].remaining)] + r.trades;
    TradesGoOn(taker, f, r.trades);
    RestGoesOn(taker, f, |r.trades|);
    assert ts[1..] == r.trades;
    CrossingVolumeAfter(taker, t, f[1..]);
  }

  lemma {:induction false} CrossingVolumeAfter(a: Order, b: Order, f: seq<Order>)
    requires a.side == b.side && a.price == b.price
    ensures CrossingVolume(a, f) == CrossingVolume(b, f)
  {
    if f != [] {
      CrossingVolumeAfter(a, b, f[1..]);
    }
  }

  /** No order gains a fill while an order ahead of it still has quantity. */
  lemma {:induction false} PriorityRespected(taker: Order, f: seq<Order>, j: nat, k: nat)
    requires j < k < |f| && Ranked(OppositeSide(taker.side), f)
    requires Owed(taker, f, k) > 0
    ensures Owed(taker, f, j) == f[j].remaining
  {
    assert f[..k] == f[..j] + [f[j]] + f[j + 1..k];
    VolumeConcat(f[..j] + [f[j]], f[j + 1..k]);
    VolumeConcat(f[..j], [f[j]]);
    assert [f[j]][1..] == [];
  }

  lemma {:induction false} SpliceRanked(side: Side, f: seq<Order>, o: Order, k: nat)
    requires Ranked(side, f) && k <= |f|
    requires forall i :: 0 <= i < k ==> !Better(side, o.price, f[i].price)
    requires forall i :: k <= i < |f| ==> Better(side, o.price, f[i].price)
    ensures Ranked(side, f[..k] + [o] + f[k..])
  {
  }

  /** Where a resting order lands, and that the list stays ranked. */
  lemma {:induction false} InsertPosition(side: Side, f: seq<Order>, o: Order) returns (k: nat)
    requires Ranked(side, f)
    ensures k <= |f| && Insert(side, f, o) == f[..k] + [o] + f[k..]
    ensures forall i :: 0 <= i < k ==> !Better(side, o.price, f[i].price)
    ensures forall i :: k <= i < |f| ==> Better(side, o.price, f[i].price)
    ensures Ranked(side, Insert(side, f, o))
  {
    if f == [] || Better(side, o.price, f[0].price) {
      k := 0;
    } else {
      k := InsertPosition(side, f[1..], o);
      k := k + 1;
      PutBehindFirst(f, k, o);
      SpliceRanked(side, f, o, k);
    }
  }

  /** Cancelling removes that one order and leaves the others in their order. */
  lemma {:induction false} DropRemovesOne(f: seq<Order>, id: nat) returns (k: nat)
    ensures k <= |f|
    ensures k < |f| ==> f[k].id == id && Drop(f, id) == f[..k] + f[k + 1..]
    ensures k == |f| ==> Drop(f, id) == f
    ensures forall i :: 0 <= i < k ==> f[i].id != id
  {
    if f == [] || f[0].id == id {
      k := 0;
    } else {
      k := DropRemovesOne(f[1..], id);
      k := k + 1;
      if k < |f| {
        CutBehindFirst(f, k);
      }
    }
  }

  lemma {:induction false} DropMembers(f: seq<Order>, id: nat)
    requires DistinctIds(f)
    ensures DistinctIds(Drop(f, id))
    ensures forall o :: o in Drop(f, id) <==> o in f && o.id != id
  {
    var k := DropRemovesOne(f, id);
    if k < |f| {
      assert f == f[..k] + [f[k]] + f[k + 1..];
    }
  }
}
