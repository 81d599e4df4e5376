/** The loops as written against price-time priority: what an incoming order does to a book
    that satisfies the invariant, and exactly when the loops never come back. */
module Refinement {
  import opened Orders
  import opened PriceLadder
  import opened Matching
  import PriceTime

  // ----- When the loops never come back -----

  /** Resting order `k` crosses, has nothing left, and the taker reaches it unfilled. */
  ghost predicate DeadOrderAt(taker: Order, f: seq<Order>, k: nat)
    requires k < |f|
  {
    f[k].remaining == 0 && Crosses(taker.side, taker.price, f[k].price) && Volume(f[..k]) < taker.remaining
  }

  /** Ask level `i` is empty, crosses, and the taker reaches it unfilled. */
  ghost predicate HollowLevelAt(taker: Order, asks: seq<Level<Order>>, i: nat)
    requires i < |asks|
  {
    asks[i].queue == [] && asks[i].price <= taker.price && Volume(Flat(asks[..i])) < taker.remaining
  }

  /** The orders ahead of `k` fill the taker exactly, order `k - 1` is the last of its level,
      and the next level still crosses. */
  ghost predicate ExactFillAt(taker: Order, f: seq<Order>, k: nat)
    requires 0 < k < |f|
  {
    && Volume(f[..k]) == taker.remaining
    && f[k - 1].remaining > 0
    && f[k].price != f[k - 1].price
    && taker.price <= f[k].price
  }

  ghost predicate BuySnags(taker: Order, asks: seq<Level<Order>>) {
    || (exists i :: 0 <= i < |asks| && HollowLevelAt(taker, asks, i))
    || (exists k :: 0 <= k < |Flat(asks)| && DeadOrderAt(taker, Flat(asks), k))
  }

  ghost predicate SellSnags(taker: Order, bids: seq<Order>) {
    || (exists k :: 0 <= k < |bids| && DeadOrderAt(taker, bids, k))
    || (exists k :: 0 < k < |bids| && ExactFillAt(taker, bids, k))
  }

  /** What a caller can look up before submitting `o`: a crossing order that is empty itself,
      or that runs into one of the obstacles above. */
  ghost predicate Snags(b: Book, o: Order) {
    && CanMatch(b, o.side, o.price)
    && (o.remaining == 0 || (if o.side.Buy? then BuySnags(o, b.asks) else SellSnags(o, Flat(b.bids))))
  }

  // ----- One step of each obstacle predicate along the walk -----

  lemma {:induction false} FlatHead(ls: seq<Level<Order>>)
    requires ls != [] && ls[0].queue != []
    ensures Flat(ls) != [] && Flat(ls)[0] == ls[0].queue[0]
    ensures Flat([Level(ls[0].price, ls[0].queue[1..])] + ls[1..]) == Flat(ls)[1..]
    ensures |ls[0].queue| == 1 ==> Flat(ls[1..]) == Flat(ls)[1..]
  {
    var t := [Level(ls[0].price, ls[0].queue[1..])] + ls[1..];
    assert t[1..] == ls[1..];
  }

  lemma {:induction false} DeadOrderShift(taker: Order, f: seq<Order>)
    requires f != [] && 0 < f[0].remaining <= taker.remaining
    ensures (exists k :: 0 <= k < |f| && DeadOrderAt(taker, f, k)) <==>
            (exists k :: 0 <= k < |f| - 1 && DeadOrderAt(taker.Fill(f[0].remaining), f[1..], k))
  {
    var t := taker.Fill(f[0].remaining);
    if k :| 0 <= k < |f| && DeadOrderAt(taker, f, k) {
      VolumePrefix(f, k);
      assert DeadOrderAt(t, f[1..], k - 1);
    }
    if k :| 0 <= k < |f| - 1 && DeadOrderAt(t, f[1..], k) {
      VolumePrefix(f, k + 1);
      assert DeadOrderAt(taker, f, k + 1);
    }
  }

  /** Nothing beyond the front matters once the taker ends inside it. */
  lemma {:induction false} NoDeadOrderBeyond(taker: Order, f: seq<Order>, k: nat)
    requires k < |f| && 0 < taker.remaining <= f[0].remaining
    ensures !DeadOrderAt(taker, f, k)
  {
    if k > 0 {
      VolumePrefix(f, k);
    }
  }

  lemma {:induction false} HollowTail(taker: Order, asks: seq<Level<Order>>, asks': seq<Level<Order>>, q: nat)
    requires asks != [] && asks[0].queue != []
    requires var y := asks[0].queue[0]; q == y.remaining && q <= taker.remaining
    requires asks' == if |asks[0].queue| == 1 then asks[1..] else [Level(asks[0].price, asks[0].queue[1..])] + asks[1..]
    ensures (exists i :: 0 <= i < |asks| && HollowLevelAt(taker, asks, i)) <==>
            (exists i :: 0 <= i < |asks'| && HollowLevelAt(taker.Fill(q), asks', i))
  {
    var t := taker.Fill(q);
    var shift := |asks| - |asks'|;
    forall i | 1 <= i < |asks| ensures Volume(Flat(asks[..i])) == q + Volume(Flat(asks'[..i - shift])) {
      FlatHead(asks[..i]);
      VolumePrefixFlat(asks, asks', i);
    }
    if i :| 0 <= i < |asks| && HollowLevelAt(taker, asks, i) {
      assert HollowLevelAt(t, asks', i - shift);
    }
    if i :| 0 <= i < |asks'| && HollowLevelAt(t, asks', i) {
      assert HollowLevelAt(taker, asks, i + shift);
    }
  }

  lemma {:induction false} VolumePrefixFlat(asks: seq<Level<Order>>, asks': seq<Level<Order>>, i: nat)
    requires 1 <= i < |asks| && asks[0].queue != []
    requires asks' == if |asks[0].queue| == 1 then asks[1..] else [Level(asks[0].price, asks[0].queue[1..])] + asks[1..]
    ensures Volume(Flat(asks[..i])) == asks[0].queue[0].remaining + Volume(Flat(asks'[..i - (|asks| - |asks'|)]))
  {
    var p := asks[..i];
    FlatHead(p);
    if |asks[0].queue| == 1 {
      assert p[1..] == asks'[..i - 1];
    } else {
      assert [Level(p[0].price, p[0].queue[1..])] + p[1..] == asks'[..i];
    }
  }

  lemma {:induction false} ExactFillShift(taker: Order, f: seq<Order>)
    requires f != [] && 0 < f[0].remaining < taker.remaining
    ensures (exists k :: 0 < k < |f| && ExactFillAt(taker, f, k)) <==>
            (exists k :: 0 < k < |f| - 1 && ExactFillAt(taker.Fill(f[0].remaining), f[1..], k))
  {
    var t := taker.Fill(f[0].remaining);
    if k :| 0 < k < |f| && ExactFillAt(taker, f, k) {
      VolumePrefix(f, k);
      assert f[1..][..0] == [];
      assert ExactFillAt(t, f[1..], k - 1);
    }
    if k :| 0 < k < |f| - 1 && ExactFillAt(t, f[1..], k) {
      VolumePrefix(f, k + 1);
      assert ExactFillAt(taker, f, k + 1);
    }
  }

  /** Once the front can take all of the taker, an exact fill can only be at the front. */
  lemma {:induction false} NoExactFillBeyond(taker: Order, f: seq<Order>, k: nat)
    requires 1 < k < |f| && 0 < taker.remaining <= f[0].remaining
    ensures !ExactFillAt(taker, f, k)
  {
    VolumePrefix(f, k);
    var g := f[1..][..k - 1];
    assert g == g[..k - 2] + [f[k - 1]];
    VolumeConcat(g[..k - 2], [f[k - 1]]);
    assert [f[k - 1]][1..] == [];
  }

  lemma {:induction false} NothingToMeet(taker: Order, side: Side, ls: seq<Level<Order>>)
    requires Sorted(side, ls) && Proper(side, ls) && side == PriceTime.OppositeSide(taker.side)
    requires ls == [] || !Crosses(taker.side, taker.price, ls[0].price)
    ensures forall o :: o in Flat(ls) ==> !Crosses(taker.side, taker.price, o.price)
    ensures PriceTime.Sweep(taker, Flat(ls)) == PriceTime.Swept(taker, Flat(ls), [])
  {
    forall o | o in Flat(ls) ensures !Crosses(taker.side, taker.price, o.price) {
      ProperFlat(side, ls, o);
    }
    if Flat(ls) != [] {
      assert Flat(ls)[0] in Flat(ls);
    }
  }

  // ----- The walk of an incoming buy -----

  /** The asks after their front order has been filled by `q`, with the level kept if emptied. */
  function Reduced(ls: seq<Level<Order>>, q: nat): seq<Level<Order>>
    requires ls != [] && ls[0].queue != []
  {
    [Level(ls[0].price, PopIfFilled(ls[0].queue, q))] + ls[1..]
  }

  lemma {:induction false} FillFrontsForm(b: Book)
    requires !Exits(b) && !Idles(b)
    ensures var c := FillFronts(b).0;
      var q := Min(b.bids[0].queue[0].remaining, b.asks[0].queue[0].remaining);
      && c.bids == (if PopIfFilled(b.bids[0].queue, q) == [] then b.bids[1..] else Reduced(b.bids, q))
      && (c.asks == b.asks[1..] || c.asks == Reduced(b.asks, q))
  {
  }

  lemma {:induction false} ReducedProper(side: Side, ls: seq<Level<Order>>, q: nat)
    requires ls != [] && ls[0].queue != [] && Proper(side, ls)
    ensures Proper(side, Reduced(ls, q)) && Proper(side, ls[1..])
  {
    var queue := PopIfFilled(ls[0].queue, q);
    forall j | 0 <= j < |queue| ensures queue[j].side == side && queue[j].price == ls[0].price {
      var j' := j + |ls[0].queue| - |queue|;
      assert queue[j] == ls[0].queue[j'] || (j == 0 && queue[0] == ls[0].queue[0].Fill(q));
      assert ls[0].queue[j'].side == side && ls[0].queue[0].side == side;
    }
  }

  lemma {:induction false} ReducedKeepsOrder(side: Side, ls: seq<Level<Order>>, q: nat)
    requires ls != [] && ls[0].queue != []
    requires Sorted(side, ls) && Proper(side, ls)
    ensures Sorted(side, Reduced(ls, q)) && Proper(side, Reduced(ls, q))
    ensures Sorted(side, ls[1..]) && Proper(side, ls[1..])
  {
    ReducedProper(side, ls, q);
  }

  lemma {:induction false} ReducedFlat(ls: seq<Level<Order>>, q: nat)
    requires ls != [] && ls[0].queue != [] && 0 < q <= ls[0].queue[0].remaining
    ensures Flat(ls) != [] && Flat(ls)[0] == ls[0].queue[0]
    ensures Flat(Reduced(ls, q)) ==
      (if q < Flat(ls)[0].remaining then [Flat(ls)[0].Fill(q)] else []) + Flat(ls)[1..]
    ensures PopIfFilled(ls[0].queue, q) == [] ==> Flat(ls[1..]) == Flat(Reduced(ls, q))
  {
    var r := Reduced(ls, q);
    assert r[1..] == ls[1..];
  }

  /** A taker that survives the front order removes it, and its level if it was alone there. */
  lemma {:induction false} FrontConsumed(ls: seq<Level<Order>>, q: nat)
    requires ls != [] && ls[0].queue != [] && 0 < q == ls[0].queue[0].remaining
    ensures PopIfFilled(ls[0].queue, q) == ls[0].queue[1..]
    ensures Volume(Flat(Reduced(ls, q))) + q == Volume(Flat(ls))
    ensures |ls[0].queue| == 1 ==> PopIfFilled(ls[0].queue, q) == [] && Volume(Flat(ls[1..])) + q == Volume(Flat(ls))
    ensures |ls[0].queue| > 1 ==> PopIfFilled(ls[0].queue, q) != []
  {
    ReducedFlat(ls, q);
    assert Flat(Reduced(ls, q)) == Flat(ls)[1..];
  }

  ghost predicate BuySwept(taker: Order, rest: seq<Level<Order>>, asks: seq<Level<Order>>, r: Outcome) {
    var s := PriceTime.Sweep(taker, Flat(asks));
    && (r.Spins? <==> BuySnags(taker, asks))
    && (r.Settled? ==>
        && r.trades == s.trades
        && Flat(r.book.asks) == s.rest
        && r.book.bids == (if s.taker.remaining == 0 then rest else [Level(taker.price, [s.taker])] + rest)
        && Sorted(Sell, r.book.asks) && Proper(Sell, r.book.asks) && Exits(r.book))
  }

  lemma {:induction false} BuyWalk(taker: Order, rest: seq<Level<Order>>, asks: seq<Level<Order>>)
    requires taker.side.Buy? && taker.remaining > 0
    requires Sorted(Sell, asks) && Proper(Sell, asks) && Exits(Book(rest, asks))
    ensures BuySwept(taker, rest, asks, Settle(Book([Level(taker.price, [taker])] + rest, asks)))
    decreases Volume(Flat(asks)), |asks|
  {
    var b := Book([Level(taker.price, [taker])] + rest, asks);
    var f := Flat(asks);
    if Exits(b) {
      NothingToMeet(taker, Sell, asks);
    } else if asks[0].queue == [] {
      assert asks[..0] == [];
      assert HollowLevelAt(taker, asks, 0);
    } else if asks[0].queue[0].remaining == 0 {
      FlatHead(asks);
      assert f[..0] == [];
      assert DeadOrderAt(taker, f, 0);
    } else if taker.remaining <= asks[0].queue[0].remaining {
      BuyEnds(taker, rest, asks);
    } else {
      BuyPasses(taker, rest, asks);
      BuyWalk(taker.Fill(asks[0].queue[0].remaining), rest, Consumed(asks));
      BuyGoesOn(taker, rest, asks, Settle(FillFronts(b).0));
    }
  }

  lemma {:induction false} BuyPasses(taker: Order, rest: seq<Level<Order>>, asks: seq<Level<Order>>)
    requires taker.side.Buy? && Sorted(Sell, asks) && Proper(Sell, asks) && Exits(Book(rest, asks))
    requires asks != [] && asks[0].queue != [] && asks[0].price <= taker.price
    requires 0 < asks[0].queue[0].remaining < taker.remaining
    ensures var t := taker.Fill(asks[0].queue[0].remaining);
      && FillFronts(Book([Level(taker.price, [taker])] + rest, asks)) ==
        (Book([Level(taker.price, [t])] + rest, Consumed(asks)),
            TradeOf(taker, asks[0].queue[0], asks[0].queue[0].remaining))
      && Sorted(Sell, Consumed(asks)) && Proper(Sell, Consumed(asks)) && Exits(Book(rest, Consumed(asks)))
      && Flat(Consumed(asks)) == Flat(asks)[1..] && Volume(Flat(Consumed(asks))) < Volume(Flat(asks))
  {
    var q := asks[0].queue[0].remaining;
    var b := Book([Level(taker.price, [taker])] + rest, asks);
    FlatHead(asks);
    FrontConsumed(asks, q);
    ReducedKeepsOrder(Sell, asks, q);
    assert PopIfFilled([taker], q) == [taker.Fill(q)];
    assert b.bids[1..] == rest;
  }

  /** The opposite side once its front order is gone. */
  function Consumed(ls: seq<Level<Order>>): seq<Level<Order>>
    requires ls != [] && ls[0].queue != []
  {
    if |ls[0].queue| == 1 then ls[1..] else [Level(ls[0].price, ls[0].queue[1..])] + ls[1..]
  }

  lemma {:induction false} BuyGoesOn(taker: Order, rest: seq<Level<Order>>, asks: seq<Level<Order>>, r: Outcome)
    requires asks != [] && asks[0].queue != [] && asks[0].queue[0].price <= taker.price && taker.side.Buy?
    requires 0 < asks[0].queue[0].remaining < taker.remaining
    requires BuySwept(taker.Fill(asks[0].queue[0].remaining), rest, Consumed(asks), r)
    ensures BuySwept(taker, rest, asks, Following([TradeOf(taker, asks[0].queue[0], asks[0].queue[0].remaining)], r))
  {
    FlatHead(asks);
    DeadOrderShift(taker, Flat(asks));
    HollowTail(taker, asks, Consumed(asks), asks[0].queue[0].remaining);
  }

  /** The walk that ends in the front order. */
  lemma {:induction false} SweepEnds(taker: Order, f: seq<Order>)
    requires f != [] && Crosses(taker.side, taker.price, f[0].price) && 0 < taker.remaining <= f[0].remaining
    ensures PriceTime.Sweep(taker, f) ==
            PriceTime.Swept(taker.(remaining := 0),
                            (if taker.remaining < f[0].remaining then [f[0].Fill(taker.remaining)] else []) + f[1..],
                            [TradeOf(taker, f[0], taker.remaining)])
  {
    if taker.remaining == f[0].remaining {
      assert PriceTime.Sweep(taker.Fill(taker.remaining), f[1..]).trades == [];
      assert [] + f[1..] == f[1..];
    }
  }

  lemma {:induction false} BuyPassEnds(taker: Order, rest: seq<Level<Order>>, asks: seq<Level<Order>>)
    requires taker.side.Buy? && Sorted(Sell, asks) && Exits(Book(rest, asks))
    requires asks != [] && asks[0].queue != [] && asks[0].price <= taker.price
    requires 0 < taker.remaining <= asks[0].queue[0].remaining
    ensures Settle(Book([Level(taker.price, [taker])] + rest, asks)) ==
            Settled(Book(rest, Reduced(asks, taker.remaining)), [TradeOf(taker, asks[0].queue[0], taker.remaining)])
  {
    var b := Book([Level(taker.price, [taker])] + rest, asks);
    assert b.bids[1..] == rest;
    assert PopIfFilled([taker], taker.remaining) == [];
    assert FillFronts(b).0 == Book(rest, Reduced(asks, taker.remaining));
  }

  lemma {:induction false} NoBuySnagAtFront(taker: Order, asks: seq<Level<Order>>)
    requires asks != [] && asks[0].queue != [] && 0 < taker.remaining <= asks[0].queue[0].remaining
    ensures !BuySnags(taker, asks)
  {
    var f := Flat(asks);
    FlatHead(asks);
    forall i | 0 <= i < |asks| ensures !HollowLevelAt(taker, asks, i) {
      if i > 0 {
        FlatHead(asks[..i]);
      }
    }
    forall k | 0 <= k < |f| ensures !DeadOrderAt(taker, f, k) {
      NoDeadOrderBeyond(taker, f, k);
    }
  }

  /** The buy is exhausted by the best ask: the walk stops there and met no obstacle. */
  lemma {:induction false} BuyEnds(taker: Order, rest: seq<Level<Order>>, asks: seq<Level<Order>>)
    requires taker.side.Buy? && Sorted(Sell, asks) && Proper(Sell, asks) && Exits(Book(rest, asks))
    requires asks != [] && asks[0].queue != [] && asks[0].price <= taker.price
    requires 0 < taker.remaining <= asks[0].queue[0].remaining
    ensures BuySwept(taker, rest, asks, Settle(Book([Level(taker.price, [taker])] + rest, asks)))
  {
    BuyPassEnds(taker, rest, asks);
    NoBuySnagAtFront(taker, asks);
    FlatHead(asks);
    SweepEnds(taker, Flat(asks));
    ReducedFlat(asks, taker.remaining);
    ReducedKeepsOrder(Sell, asks, taker.remaining);
  }

  // ----- The walk of an incoming sell -----

  /** Unlike a buy, a filled sell may leave its own level behind empty. */
  ghost predicate SellSwept(taker: Order, bids: seq<Level<Order>>, rest: seq<Level<Order>>, r: Outcome) {
    var s := PriceTime.Sweep(taker, Flat(bids));
    && (r.Spins? <==> SellSnags(taker, Flat(bids)))
    && (r.Settled? ==>
        && r.trades == s.trades
        && Flat(r.book.bids) == s.rest
        && (if s.taker.remaining == 0 then r.book.asks == rest || r.book.asks == [Level(taker.price, [])] + rest
            else r.book.asks == [Level(taker.price, [s.taker])] + rest)
        && Sorted(Buy, r.book.bids) && Proper(Buy, r.book.bids) && Peopled(r.book.bids) && Exits(r.book))
  }

  lemma {:induction false} SellWalk(taker: Order, bids: seq<Level<Order>>, rest: seq<Level<Order>>)
    requires taker.side.Sell? && taker.remaining > 0
    requires Sorted(Buy, bids) && Proper(Buy, bids) && Peopled(bids) && Exits(Book(bids, rest))
    ensures SellSwept(taker, bids, rest, Settle(Book(bids, [Level(taker.price, [taker])] + rest)))
    decreases Volume(Flat(bids))
  {
    var b := Book(bids, [Level(taker.price, [taker])] + rest);
    var f := Flat(bids);
    if Exits(b) {
      NothingToMeet(taker, Buy, bids);
    } else if bids[0].queue[0].remaining == 0 {
      FlatHead(bids);
      assert f[..0] == [];
      assert DeadOrderAt(taker, f, 0);
    } else if taker.remaining <= bids[0].queue[0].remaining {
      SellEnds(taker, bids, rest);
    } else {
      SellPasses(taker, bids, rest);
      SellWalk(taker.Fill(bids[0].queue[0].remaining), Consumed(bids), rest);
      SellGoesOn(taker, bids, rest, Settle(FillFronts(b).0));
    }
  }

  lemma {:induction false} SellPasses(taker: Order, bids: seq<Level<Order>>, rest: seq<Level<Order>>)
    requires taker.side.Sell? && Sorted(Buy, bids) && Proper(Buy, bids) && Peopled(bids) && Exits(Book(bids, rest))
    requires bids != [] && taker.price <= bids[0].price
    requires 0 < bids[0].queue[0].remaining < taker.remaining
    ensures var t := taker.Fill(bids[0].queue[0].remaining);
      && FillFronts(Book(bids, [Level(taker.price, [taker])] + rest)) ==
        (Book(Consumed(bids), [Level(taker.price, [t])] + rest),
            TradeOf(taker, bids[0].queue[0], bids[0].queue[0].remaining))
      && Sorted(Buy, Consumed(bids)) && Proper(Buy, Consumed(bids)) && Peopled(Consumed(bids)) &&
          Exits(Book(Consumed(bids), rest))
      && Flat(Consumed(bids)) == Flat(bids)[1..] && Volume(Flat(Consumed(bids))) < Volume(Flat(bids))
  {
    var q := bids[0].queue[0].remaining;
    var b := Book(bids, [Level(taker.price, [taker])] + rest);
    FlatHead(bids);
    FrontConsumed(bids, q);
    ReducedKeepsOrder(Buy, bids, q);
    assert PopIfFilled([taker], q) == [taker.Fill(q)];
    assert b.asks[1..] == rest;
  }

  lemma {:induction false} SellGoesOn(taker: Order, bids: seq<Level<Order>>, rest: seq<Level<Order>>, r: Outcome)
    requires bids != [] && bids[0].queue != [] && taker.price <= bids[0].queue[0].price && taker.side.Sell?
    requires 0 < bids[0].queue[0].remaining < taker.remaining
    requires SellSwept(taker.Fill(bids[0].queue[0].remaining), Consumed(bids), rest, r)
    ensures SellSwept(taker, bids, rest, Following([TradeOf(taker, bids[0].queue[0], bids[0].queue[0].remaining)], r))
  {
    FlatHead(bids);
    DeadOrderShift(taker, Flat(bids));
    ExactFillShift(taker, Flat(bids));
  }

  /** A sell that ends in the front order can only snag right behind it. */
  lemma {:induction false} SellSnagsAtFront(taker: Order, f: seq<Order>)
    requires f != [] && 0 < taker.remaining <= f[0].remaining
    ensures SellSnags(taker, f) <==> |f| > 1 && ExactFillAt(taker, f, 1)
  {
    forall k | 0 <= k < |f| ensures !DeadOrderAt(taker, f, k) {
      NoDeadOrderBeyond(taker, f, k);
    }
    forall k | 1 < k < |f| ensures !ExactFillAt(taker, f, k) {
      NoExactFillBeyond(taker, f, k);
    }
  }

  /** The sell is exhausted by the best bid. If that bid is exhausted too and was alone at its
      price, the ask level stays behind empty, and the loop turns on it if the next bid crosses. */
  lemma {:induction false} SellEnds(taker: Order, bids: seq<Level<Order>>, rest: seq<Level<Order>>)
    requires taker.side.Sell? && Sorted(Buy, bids) && Proper(Buy, bids) && Peopled(bids) && Exits(Book(bids, rest))
    requires bids != [] && taker.price <= bids[0].price
    requires 0 < taker.remaining <= bids[0].queue[0].remaining
    ensures SellSwept(taker, bids, rest, Settle(Book(bids, [Level(taker.price, [taker])] + rest)))
  {
    FlatHead(bids);
    if PopIfFilled(bids[0].queue, taker.remaining) == [] {
      SellEndsLevel(taker, bids, rest);
    } else {
      SellEndsWithin(taker, bids, rest);
    }
  }

  lemma {:induction false} SellPassWithin(taker: Order, bids: seq<Level<Order>>, rest: seq<Level<Order>>)
    requires taker.side.Sell? && bids != [] && bids[0].queue != [] && taker.price <= bids[0].price
    requires 0 < taker.remaining <= bids[0].queue[0].remaining && PopIfFilled(bids[0].queue, taker.remaining) != []
    requires Exits(Book(bids, rest))
    ensures Settle(Book(bids, [Level(taker.price, [taker])] + rest)) ==
            Settled(Book(Reduced(bids, taker.remaining), rest), [TradeOf(taker, bids[0].queue[0], taker.remaining)])
  {
    var b := Book(bids, [Level(taker.price, [taker])] + rest);
    assert b.asks[1..] == rest;
    assert PopIfFilled([taker], taker.remaining) == [];
    assert FillFronts(b).0 == Book(Reduced(bids, taker.remaining), rest);
  }

  /** The order behind the front one, if it stands in the same level, has the same price. */
  lemma {:induction false} NoExactFillWithin(taker: Order, bids: seq<Level<Order>>)
    requires Proper(Buy, bids) && bids != [] && bids[0].queue != [] && |Flat(bids)| > 1
    requires 0 < taker.remaining <= bids[0].queue[0].remaining && PopIfFilled(bids[0].queue, taker.remaining) != []
    ensures !ExactFillAt(taker, Flat(bids), 1)
  {
    var f := Flat(bids);
    FlatHead(bids);
    assert Volume(f[..1]) == f[0].remaining by { assert f[..1][1..] == []; }
    if taker.remaining == f[0].remaining {
      assert f[1] == bids[0].queue[1];
    }
  }

  lemma {:induction false} SellEndsWithin(taker: Order, bids: seq<Level<Order>>, rest: seq<Level<Order>>)
    requires taker.side.Sell? && Sorted(Buy, bids) && Proper(Buy, bids) && Peopled(bids) && Exits(Book(bids, rest))
    requires bids != [] && taker.price <= bids[0].price
    requires 0 < taker.remaining <= bids[0].queue[0].remaining && PopIfFilled(bids[0].queue, taker.remaining) != []
    ensures SellSwept(taker, bids, rest, Settle(Book(bids, [Level(taker.price, [taker])] + rest)))
  {
    SellPassWithin(taker, bids, rest);
    FlatHead(bids);
    SweepEnds(taker, Flat(bids));
    ReducedFlat(bids, taker.remaining);
    ReducedKeepsOrder(Buy, bids, taker.remaining);
    SellSnagsAtFront(taker, Flat(bids));
    if |Flat(bids)| > 1 {
      NoExactFillWithin(taker, bids);
    }
  }

  lemma {:induction false} SellEndsLevel(taker: Order, bids: seq<Level<Order>>, rest: seq<Level<Order>>)
    requires taker.side.Sell? && Sorted(Buy, bids) && Proper(Buy, bids) && Peopled(bids) && Exits(Book(bids, rest))
    requires bids != [] && taker.price <= bids[0].price
    requires 0 < taker.remaining == bids[0].queue[0].remaining && |bids[0].queue| == 1
    ensures SellSwept(taker, bids, rest, Settle(Book(bids, [Level(taker.price, [taker])] + rest)))
  {
    var b := Book(bids, [Level(taker.price, [taker])] + rest);
    var f := Flat(bids);
    var next := Book(bids[1..], [Level(taker.price, [])] + rest);
    SellSettlesLevel(taker, bids, rest);
    SellSnagsAtFront(taker, f);
    assert Settle(b) == Following([TradeOf(taker, f[0], taker.remaining)], Settle(next));
    assert PriceTime.Sweep(taker, f) ==
           PriceTime.Swept(taker.Fill(taker.remaining), f[1..], [TradeOf(taker, f[0], taker.remaining)]);
    NextBidCrosses(taker, bids);
    if Exits(next) {
      assert Settle(next) == Settled(next, []);
    } else {
      assert Settle(next) == Spins;
    }
  }

  lemma {:induction false} SellSettlesLevel(taker: Order, bids: seq<Level<Order>>, rest: seq<Level<Order>>)
    requires taker.side.Sell? && bids != [] && taker.price <= bids[0].price
    requires |bids[0].queue| == 1 && 0 < taker.remaining == bids[0].queue[0].remaining
    requires Sorted(Buy, bids) && Proper(Buy, bids)
    ensures Flat(bids) != [] && Flat(bids)[0] == bids[0].queue[0] && Flat(bids[1..]) == Flat(bids)[1..]
    ensures Sorted(Buy, bids[1..]) && Proper(Buy, bids[1..])
    ensures FillFronts(Book(bids, [Level(taker.price, [taker])] + rest)) ==
      (Book(bids[1..], [Level(taker.price, [])] + rest), TradeOf(taker, bids[0].queue[0], taker.remaining))
  {
    var b := Book(bids, [Level(taker.price, [taker])] + rest);
    FlatHead(bids);
    FrontConsumed(bids, taker.remaining);
    ReducedKeepsOrder(Buy, bids, taker.remaining);
    assert b.asks[1..] == rest;
    assert PopIfFilled([taker], taker.remaining) == [];
  }

  lemma {:induction false} NextBidCrosses(taker: Order, bids: seq<Level<Order>>)
    requires bids != [] && |bids[0].queue| == 1 && bids[0].queue[0].remaining == taker.remaining > 0
    requires Sorted(Buy, bids) && Proper(Buy, bids) && Peopled(bids)
    ensures |bids| == 1 <==> |Flat(bids)| == 1
    ensures |bids| > 1 ==> (ExactFillAt(taker, Flat(bids), 1) <==> taker.price <= bids[1].price)
  {
    var f := Flat(bids);
    FlatHead(bids);
    if |bids| > 1 {
      FlatHead(bids[1..]);
      assert f[1] == bids[1].queue[0];
      assert Volume(f[..1]) == f[0].remaining by { assert f[..1][1..] == []; }
    }
  }
}
