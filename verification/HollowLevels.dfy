/** Empty ask levels: exactly which prices have one after a call, and that an order that uses up a
    price level and itself in the same fill is what makes them. */
module HollowLevels {
  import opened Orders
  import opened PriceLadder
  import opened Matching
  import opened Refinement
  import opened AddOrder
  import opened AliveOrders
  import PriceTime

  ghost predicate HollowAt(ls: seq<Level<Order>>, price: int) {
    exists i :: 0 <= i < |ls| && ls[i] == Level(price, [])
  }

  /** The first `k` opposite orders cross, are all there is at their prices, and fill the taker
      exactly. */
  ghost predicate ClosesAt(taker: Order, f: seq<Order>, k: nat)
    requires 0 < k <= |f|
  {
    && Volume(f[..k]) == taker.remaining
    && f[k - 1].remaining > 0
    && Crosses(taker.side, taker.price, f[k - 1].price)
    && (k == |f| || f[k].price != f[k - 1].price)
  }

  /** The taker and the opposite orders at `price` use each other up in one fill. */
  ghost predicate ClosesPrice(taker: Order, f: seq<Order>, price: int) {
    exists k :: 0 < k <= |f| && f[k - 1].price == price && ClosesAt(taker, f, k)
  }

  ghost predicate Closes(taker: Order, f: seq<Order>) {
    exists k :: 0 < k <= |f| && ClosesAt(taker, f, k)
  }

  lemma {:induction false} ClosesSomePrice(taker: Order, f: seq<Order>)
    ensures Closes(taker, f) <==> exists price :: ClosesPrice(taker, f, price)
  {
    if k :| 0 < k <= |f| && ClosesAt(taker, f, k) {
      assert ClosesPrice(taker, f, f[k - 1].price);
    }
  }

  lemma {:induction false} PeopledMeansNoHollow(ls: seq<Level<Order>>)
    ensures Peopled(ls) <==> forall price :: !HollowAt(ls, price)
  {
    if forall price :: !HollowAt(ls, price) {
      forall i | 0 <= i < |ls| ensures ls[i].queue != [] {
        assert !HollowAt(ls, ls[i].price);
      }
    }
  }

  lemma {:induction false} HollowFirst(level: Level<Order>, ls: seq<Level<Order>>, price: int)
    ensures HollowAt([level] + ls, price) <==> level == Level(price, []) || HollowAt(ls, price)
  {
    var all := [level] + ls;
    if i :| 0 <= i < |all| && all[i] == Level(price, []) {
      assert i > 0 ==> ls[i - 1] == Level(price, []);
    }
    if i :| 0 <= i < |ls| && ls[i] == Level(price, []) {
      assert all[i + 1] == Level(price, []);
    }
    if level == Level(price, []) {
      assert all[0] == Level(price, []);
    }
  }

  lemma {:induction false} HollowBehind(ls: seq<Level<Order>>, price: int)
    requires ls != []
    ensures HollowAt(ls, price) <==> ls[0] == Level(price, []) || HollowAt(ls[1..], price)
  {
    assert ls == [ls[0]] + ls[1..];
    HollowFirst(ls[0], ls[1..], price);
  }

  // ----- Closing, along the walk -----

  lemma {:induction false} ClosesShift(taker: Order, f: seq<Order>, price: int)
    requires f != [] && 0 < f[0].remaining < taker.remaining
    ensures ClosesPrice(taker, f, price) <==> ClosesPrice(taker.Fill(f[0].remaining), f[1..], price)
  {
    var t := taker.Fill(f[0].remaining);
    if k :| 0 < k <= |f| && f[k - 1].price == price && ClosesAt(taker, f, k) {
      VolumePrefix(f, k);
      assert f[1..][..0] == [];
      assert ClosesAt(t, f[1..], k - 1);
    }
    if k :| 0 < k <= |f| - 1 && f[1..][k - 1].price == price && ClosesAt(t, f[1..], k) {
      VolumePrefix(f, k + 1);
      assert ClosesAt(taker, f, k + 1);
    }
  }

  lemma {:induction false} VolumeOfOne(f: seq<Order>)
    requires f != []
    ensures Volume(f[..1]) == f[0].remaining
  {
    assert f[..1][1..] == [];
  }

  lemma {:induction false} NotClosedBeyond(taker: Order, f: seq<Order>, k: nat)
    requires 1 < k <= |f| && taker.remaining <= f[0].remaining && f[k - 1].remaining > 0
    ensures Volume(f[..k]) > taker.remaining
  {
    VolumePrefix(f, k);
    var g := f[1..][..k - 1];
    assert g == g[..k - 2] + [f[k - 1]];
    VolumeConcat(g[..k - 2], [f[k - 1]]);
    assert [f[k - 1]][1..] == [];
  }

  lemma {:induction false} ClosesAtFront(taker: Order, f: seq<Order>, price: int)
    requires f != [] && 0 < taker.remaining <= f[0].remaining && Crosses(taker.side, taker.price, f[0].price)
    ensures ClosesPrice(taker, f, price) <==>
            price == f[0].price && taker.remaining == f[0].remaining && (|f| == 1 || f[1].price != f[0].price)
  {
    VolumeOfOne(f);
    if k :| 0 < k <= |f| && f[k - 1].price == price && ClosesAt(taker, f, k) {
      if k > 1 {
        NotClosedBeyond(taker, f, k);
      }
    }
    if price == f[0].price && taker.remaining == f[0].remaining && (|f| == 1 || f[1].price != f[0].price) {
      assert ClosesAt(taker, f, 1);
    }
  }

  /** Alone at its price means alone in its level. */
  lemma {:induction false} AloneInLevel(side: Side, ls: seq<Level<Order>>)
    requires Sorted(side, ls) && Proper(side, ls) && ls != [] && ls[0].queue != []
    ensures Flat(ls) != [] && Flat(ls)[0] == ls[0].queue[0]
    ensures |ls[0].queue| == 1 <==> |Flat(ls)| == 1 || Flat(ls)[1].price != Flat(ls)[0].price
  {
    FlatHead(ls);
    if |ls[0].queue| > 1 {
      assert Flat(ls)[1] == ls[0].queue[1];
    } else if Flat(ls[1..]) != [] {
      var next := Flat(ls[1..])[0];
      ProperFlat(side, ls[1..], next);
      var i :| 0 <= i < |ls[1..]| && ls[1..][i].price == next.price;
      assert Better(side, ls[0].price, ls[i + 1].price);
      assert Flat(ls)[1] == next;
    }
  }

  lemma {:induction false} ConsumedHollows(ls: seq<Level<Order>>, price: int)
    requires ls != [] && ls[0].queue != [] && Alive(Flat(ls))
    ensures HollowAt(Consumed(ls), price) <==> HollowAt(ls, price)
    ensures Flat(Consumed(ls)) == Flat(ls)[1..] && Alive(Flat(Consumed(ls)))
  {
    FlatHead(ls);
    HollowBehind(ls, price);
    if |ls[0].queue| > 1 {
      HollowFirst(Level(ls[0].price, ls[0].queue[1..]), ls[1..], price);
    }
  }

  lemma {:induction false} NothingCloses(taker: Order, f: seq<Order>)
    requires forall o :: o in f ==> !Crosses(taker.side, taker.price, o.price)
    ensures !Closes(taker, f) && forall price :: !ClosesPrice(taker, f, price)
  {
    forall k | 0 < k <= |f| ensures !ClosesAt(taker, f, k) {
      assert f[k - 1] in f;
    }
  }

  lemma {:induction false} FrontAlive(ls: seq<Level<Order>>)
    requires ls != [] && ls[0].queue != [] && Alive(Flat(ls))
    ensures ls[0].queue[0].remaining > 0
  {
    FlatHead(ls);
    assert Flat(ls)[0] in Flat(ls);
  }

  // ----- What a buy leaves -----

  ghost predicate BuyHollows(taker: Order, asks: seq<Level<Order>>, r: Outcome, price: int) {
    r.Settled? ==> (HollowAt(r.book.asks, price) <==> HollowAt(asks, price) || ClosesPrice(taker, Flat(asks), price))
  }

  lemma {:induction false} BuyLeaves(taker: Order, rest: seq<Level<Order>>, asks: seq<Level<Order>>, price: int)
    requires taker.side.Buy? && taker.remaining > 0
    requires Sorted(Sell, asks) && Proper(Sell, asks) && Exits(Book(rest, asks)) && Alive(Flat(asks))
    ensures BuyHollows(taker, asks, Settle(Book([Level(taker.price, [taker])] + rest, asks)), price)
    decreases Volume(Flat(asks))
  {
    var b := Book([Level(taker.price, [taker])] + rest, asks);
    if Exits(b) {
      NothingToMeet(taker, Sell, asks);
      NothingCloses(taker, Flat(asks));
    } else if asks[0].queue != [] {
      FrontAlive(asks);
      if asks[0].queue[0].remaining < taker.remaining {
        ConsumedHollows(asks, price);
        BuyPasses(taker, rest, asks);
        BuyLeaves(taker.Fill(asks[0].queue[0].remaining), rest, Consumed(asks), price);
        BuyHollowsOn(taker, asks, Settle(FillFronts(b).0), price);
      } else {
        BuyEndHollows(taker, rest, asks, price);
      }
    }
  }

  lemma {:induction false} BuyHollowsOn(taker: Order, asks: seq<Level<Order>>, r: Outcome, price: int)
    requires asks != [] && asks[0].queue != [] && 0 < asks[0].queue[0].remaining < taker.remaining && Alive(Flat(asks))
    requires BuyHollows(taker.Fill(asks[0].queue[0].remaining), Consumed(asks), r, price)
    ensures BuyHollows(taker, asks, Following([TradeOf(taker, asks[0].queue[0], asks[0].queue[0].remaining)], r), price)
  {
    FlatHead(asks);
    ConsumedHollows(asks, price);
    ClosesShift(taker, Flat(asks), price);
  }

  lemma {:induction false} BuyEndHollows(taker: Order, rest: seq<Level<Order>>, asks: seq<Level<Order>>, price: int)
    requires taker.side.Buy? && Sorted(Sell, asks) && Proper(Sell, asks) && Exits(Book(rest, asks))
    requires asks != [] && asks[0].queue != [] && asks[0].price <= taker.price
    requires 0 < taker.remaining <= asks[0].queue[0].remaining
    ensures BuyHollows(taker, asks, Settle(Book([Level(taker.price, [taker])] + rest, asks)), price)
  {
    var left := Level(asks[0].price, PopIfFilled(asks[0].queue, taker.remaining));
    BuyPassEnds(taker, rest, asks);
    AloneInLevel(Sell, asks);
    ClosesAtFront(taker, Flat(asks), price);
    HollowBehind(asks, price);
    HollowFirst(left, asks[1..], price);
  }

  // ----- What a sell leaves -----

  ghost predicate SellHollows(taker: Order, bids: seq<Level<Order>>, rest: seq<Level<Order>>, r: Outcome) {
    var left := PriceTime.Sweep(taker, Flat(bids)).taker.remaining;
    && (left > 0 ==> !Closes(taker, Flat(bids)))
    && (r.Settled? && left == 0 ==>
          r.book.asks == if Closes(taker, Flat(bids)) then [Level(taker.price, [])] + rest else rest)
  }

  lemma {:induction false} ClosesOn(taker: Order, f: seq<Order>)
    requires f != [] && 0 < f[0].remaining < taker.remaining
    ensures Closes(taker, f) <==> Closes(taker.Fill(f[0].remaining), f[1..])
  {
    ClosesSomePrice(taker, f);
    ClosesSomePrice(taker.Fill(f[0].remaining), f[1..]);
    forall price {
      ClosesShift(taker, f, price);
    }
  }

  lemma {:induction false} SellLeaves(taker: Order, bids: seq<Level<Order>>, rest: seq<Level<Order>>)
    requires taker.side.Sell? && taker.remaining > 0
    requires Sorted(Buy, bids) && Proper(Buy, bids) && Peopled(bids) && Exits(Book(bids, rest)) && Alive(Flat(bids))
    ensures SellHollows(taker, bids, rest, Settle(Book(bids, [Level(taker.price, [taker])] + rest)))
    decreases Volume(Flat(bids))
  {
    var b := Book(bids, [Level(taker.price, [taker])] + rest);
    if Exits(b) {
      NothingToMeet(taker, Buy, bids);
      NothingCloses(taker, Flat(bids));
    } else {
      FrontAlive(bids);
      if bids[0].queue[0].remaining < taker.remaining {
        ConsumedHollows(bids, 0);
        SellPasses(taker, bids, rest);
        SellLeaves(taker.Fill(bids[0].queue[0].remaining), Consumed(bids), rest);
        SellHollowsOn(taker, bids, rest, Settle(FillFronts(b).0));
      } else {
        SellEndHollows(taker, bids, rest);
      }
    }
  }

  lemma {:induction false} SellHollowsOn(taker: Order, bids: seq<Level<Order>>, rest: seq<Level<Order>>, r: Outcome)
    requires taker.side.Sell? && bids != [] && bids[0].queue != [] && taker.price <= bids[0].queue[0].price
    requires 0 < bids[0].queue[0].remaining < taker.remaining
    requires SellHollows(taker.Fill(bids[0].queue[0].remaining), Consumed(bids), rest, r)
    ensures SellHollows(taker, bids, rest,
                        Following([TradeOf(taker, bids[0].queue[0], bids[0].queue[0].remaining)], r))
  {
    FlatHead(bids);
    ClosesOn(taker, Flat(bids));
  }

  /** What is settled when the sell ends inside the best bid level, or together with it. */
  lemma {:induction false} SellEndSettles(taker: Order, bids: seq<Level<Order>>, rest: seq<Level<Order>>, r: Outcome)
    requires taker.side.Sell? && Sorted(Buy, bids) && Proper(Buy, bids) && Exits(Book(bids, rest)) && Peopled(bids)
    requires bids != [] && taker.price <= bids[0].price && 0 < taker.remaining <= bids[0].queue[0].remaining
    requires r == Settle(Book(bids, [Level(taker.price, [taker])] + rest)) && r.Settled?
    ensures r.book.asks ==
            if PopIfFilled(bids[0].queue, taker.remaining) == [] then [Level(taker.price, [])] + rest else rest
  {
    if PopIfFilled(bids[0].queue, taker.remaining) == [] {
      SellSettlesLevel(taker, bids, rest);
      var next := Book(bids[1..], [Level(taker.price, [])] + rest);
      assert Settle(next) == if Exits(next) then Settled(next, []) else Spins;
    } else {
      SellPassWithin(taker, bids, rest);
    }
  }

  lemma {:induction false} SellEndCloses(taker: Order, bids: seq<Level<Order>>)
    requires taker.side.Sell? && Sorted(Buy, bids) && Proper(Buy, bids) && Peopled(bids)
    requires bids != [] && taker.price <= bids[0].price && 0 < taker.remaining <= bids[0].queue[0].remaining
    ensures Closes(taker, Flat(bids)) <==> PopIfFilled(bids[0].queue, taker.remaining) == []
  {
    var f := Flat(bids);
    AloneInLevel(Buy, bids);
    ClosesSomePrice(taker, f);
    ClosesAtFront(taker, f, f[0].price);
    if price :| ClosesPrice(taker, f, price) {
      ClosesAtFront(taker, f, price);
    }
    var left := PopIfFilled(bids[0].queue, taker.remaining);
    assert left == [] <==> |bids[0].queue| == 1 && taker.remaining == f[0].remaining;
  }

  lemma {:induction false} SellEndHollows(taker: Order, bids: seq<Level<Order>>, rest: seq<Level<Order>>)
    requires taker.side.Sell? && Sorted(Buy, bids) && Proper(Buy, bids) && Exits(Book(bids, rest)) && Peopled(bids)
    requires bids != [] && taker.price <= bids[0].price && 0 < taker.remaining <= bids[0].queue[0].remaining
    ensures SellHollows(taker, bids, rest, Settle(Book(bids, [Level(taker.price, [taker])] + rest)))
  {
    var r := Settle(Book(bids, [Level(taker.price, [taker])] + rest));
    SellEndCloses(taker, bids);
    FlatHead(bids);
    SweepEnds(taker, Flat(bids));
    if r.Settled? {
      SellEndSettles(taker, bids, rest, r);
    }
  }

  // ----- What a call leaves -----

  lemma {:induction false} KillsNoAsk(c: Book)
    requires Proper(Buy, c.bids) && (forall o :: o in Flat(c.asks) ==> o.kind.GoodTillCancel?)
    ensures KillFronts(c).asks == c.asks
  {
    var d := KillFront(c, c.bids);
    if c.bids != [] && c.bids[0].queue != [] {
      FlatHead(c.bids);
      var id := c.bids[0].queue[0].id;
      FindConcat(Flat(c.bids), Flat(c.asks), id);
      assert c.bids[0].queue[0] in Flat(c.bids);
      ProperFlat(Buy, c.bids, Find(Flat(c.bids), id).value);
    }
    assert d.asks == c.asks;
    if c.asks != [] && c.asks[0].queue != [] {
      FlatHead(c.asks);
      assert c.asks[0].queue[0] in Flat(c.asks);
    }
  }

  lemma {:induction false} TailKinds(r: seq<Order>, f: seq<Order>)
    requires TailOf(r, f) && forall o :: o in f ==> o.kind.GoodTillCancel?
    ensures forall o :: o in r ==> o.kind.GoodTillCancel?
  {
    forall o | o in r ensures o.kind.GoodTillCancel? {
      var i :| 0 <= i < |r| && r[i] == o;
      assert f[|f| - |r| + i] in f;
    }
  }

  lemma {:induction false} RestingKinds(b: Book)
    requires Invariant(b)
    ensures forall o :: o in Flat(b.bids) || o in Flat(b.asks) ==> o.kind.GoodTillCancel?
  {
    forall o | o in Flat(b.bids) || o in Flat(b.asks) ensures o.kind.GoodTillCancel? {
      assert o in b.Resting();
    }
  }

  lemma {:induction false} BuyKillsNoAsk(b: Book, o: Order, c: Book)
    requires Invariant(b) && o.side.Buy? && BuyLeft(b, o, c)
    ensures KillFronts(c).asks == c.asks
  {
    RestingKinds(b);
    SweepLeavesTail(o, Flat(b.asks));
    TailKinds(Flat(c.asks), Flat(b.asks));
    KillsNoAsk(c);
  }

  lemma {:induction false} SellKillsOwn(b: Book, o: Order, c: Book)
    requires Invariant(b) && !b.Live(o.id) && o.side.Sell? && SellLeft(b, o, c)
    ensures var left := PriceTime.Sweep(o, Flat(b.bids)).taker.remaining;
      KillFronts(c).asks == if left > 0 && o.kind.FillAndKill? then b.asks else c.asks
  {
    var s := PriceTime.Sweep(o, Flat(b.bids));
    RestingKinds(b);
    SweepLeavesTail(o, Flat(b.bids));
    TailKinds(s.rest, Flat(b.bids));
    if s.taker.remaining > 0 && o.kind.FillAndKill? {
      LiveAlike(b, o.id);
      RestStrangers(s.rest, Flat(b.bids), o.id);
      SellKilled(c, s.taker, b.asks);
    } else {
      FlatTop(Level(o.price, if s.taker.remaining == 0 then [] else [s.taker]), b.asks);
      KillsNoAsk(c);
    }
  }

  /** Which prices have an empty ask level once `o` has been taken in or turned away. */
  ghost predicate HollowAfter(b: Book, o: Order, price: int) {
    if b.Live(o.id) || (o.kind.FillAndKill? && !CanMatch(b, o.side, o.price)) then HollowAt(b.asks, price)
    else if !CanMatch(b, o.side, o.price) then HollowAt(b.asks, price) && !(o.side.Sell? && o.price == price)
    else if o.side.Buy? then HollowAt(b.asks, price) || ClosesPrice(o, Flat(b.asks), price)
    else HollowAt(b.asks, price) || (price == o.price && Closes(o, Flat(b.bids)))
  }

  lemma {:induction false} BuyCallLeaves(b: Book, o: Order, price: int)
    requires Invariant(b) && Alive(b.Resting()) && !b.Live(o.id)
    requires o.side.Buy? && o.remaining > 0 && CanMatch(b, Buy, o.price) && Add(b, o).Settled?
    ensures HollowAt(Add(b, o).book.asks, price) <==> HollowAfter(b, o, price)
  {
    PlacedAlone(b, o);
    AliveSides(b);
    BuyLeaves(o, b.bids, b.asks, price);
    BuyWalk(o, b.bids, b.asks);
    BuyKillsNoAsk(b, o, Settle(Place(b, o)).book);
  }

  lemma {:induction false} SellCallLeaves(b: Book, o: Order, price: int)
    requires Invariant(b) && Alive(b.Resting()) && !b.Live(o.id)
    requires o.side.Sell? && o.remaining > 0 && CanMatch(b, Sell, o.price) && Add(b, o).Settled?
    ensures HollowAt(Add(b, o).book.asks, price) <==> HollowAfter(b, o, price)
  {
    PlacedAlone(b, o);
    AliveSides(b);
    SellLeaves(o, b.bids, b.asks);
    SellWalk(o, b.bids, b.asks);
    SellKillsOwn(b, o, Settle(Place(b, o)).book);
    HollowFirst(Level(o.price, []), b.asks, price);
    HollowFirst(Level(o.price, [PriceTime.Sweep(o, Flat(b.bids)).taker]), b.asks, price);
  }

  /** Appending to the list at a price fills the empty level there, if there is one, and no other. */
  lemma {:induction false} EnqueueRefills(ls: seq<Level<Order>>, o: Order, price: int)
    requires Sorted(Sell, ls)
    ensures HollowAt(Enqueue(Sell, ls, o.price, o), price) <==> HollowAt(ls, price) && price != o.price
  {
    if ls == [] || o.price < ls[0].price {
      HollowFirst(Level(o.price, [o]), ls, price);
    } else {
      HollowBehind(ls, price);
      if ls[0].price == o.price {
        HollowFirst(Level(o.price, ls[0].queue + [o]), ls[1..], price);
      } else {
        EnqueueRefills(ls[1..], o, price);
        HollowFirst(ls[0], Enqueue(Sell, ls[1..], o.price, o), price);
      }
    }
  }

  lemma {:induction false} RestingCallLeaves(b: Book, o: Order, price: int)
    requires Invariant(b) && o.remaining <= o.initial && !b.Live(o.id) && !CanMatch(b, o.side, o.price)
    ensures Add(b, o).Settled? && (HollowAt(Add(b, o).book.asks, price) <==> HollowAfter(b, o, price))
  {
    if o.kind.GoodTillCancel? {
      RestingBook(b, o);
      EnqueueRefills(b.asks, o, price);
    }
  }

  /** After every submission that returns, of an order with a quantity to a book whose orders have
      one: the prices with an empty ask level are exactly these. */
  lemma {:induction false} HollowLevelsExactly(b: Book, o: Order, price: int)
    requires Invariant(b) && Alive(b.Resting()) && 0 < o.remaining <= o.initial && Add(b, o).Settled?
    ensures HollowAt(Add(b, o).book.asks, price) <==> HollowAfter(b, o, price)
  {
    if !b.Live(o.id) {
      if !CanMatch(b, o.side, o.price) {
        RestingCallLeaves(b, o, price);
      } else if o.side.Buy? {
        BuyCallLeaves(b, o, price);
      } else {
        SellCallLeaves(b, o, price);
      }
    }
  }

  lemma {:induction false} NoHollowAfter(b: Book, o: Order)
    requires !b.Live(o.id) && CanMatch(b, o.side, o.price)
    ensures (forall price :: !HollowAfter(b, o, price)) <==>
            Peopled(b.asks) && !Closes(o, b.Quotes().Opposite(o.side))
  {
    PeopledMeansNoHollow(b.asks);
    ClosesSomePrice(o, b.Quotes().Opposite(o.side));
    if forall price :: !HollowAfter(b, o, price) {
      forall price ensures !HollowAt(b.asks, price) && (o.side.Buy? ==> !ClosesPrice(o, Flat(b.asks), price)) {
        assert !HollowAfter(b, o, price);
      }
      assert !HollowAfter(b, o, o.price);
    }
  }

  /** In short: a crossing order that is taken in leaves no ask level empty exactly if none was and
      it closes no price level. */
  lemma {:induction false} EmptyLevelLeftExactly(b: Book, o: Order)
    requires Invariant(b) && Alive(b.Resting()) && 0 < o.remaining <= o.initial && Add(b, o).Settled?
    requires !b.Live(o.id) && CanMatch(b, o.side, o.price)
    ensures Peopled(Add(b, o).book.asks) <==> Peopled(b.asks) && !Closes(o, b.Quotes().Opposite(o.side))
  {
    NoHollowAfter(b, o);
    PeopledMeansNoHollow(Add(b, o).book.asks);
    forall price ensures HollowAt(Add(b, o).book.asks, price) <==> HollowAfter(b, o, price) {
      HollowLevelsExactly(b, o, price);
    }
  }

  /** Withdrawing an order erases its level if that empties it, and touches no empty one. */
  lemma {:induction false} WithdrawLeavesHollows(ls: seq<Level<Order>>, o: Order, price: int)
    requires Sorted(Sell, ls) && Proper(Sell, ls) && o in Flat(ls)
    ensures HollowAt(Withdraw(ls, o.price, o), price) <==> HollowAt(ls, price)
  {
    HollowBehind(ls, price);
    if ls[0].price == o.price {
      if o !in ls[0].queue {
        ProperFlat(Sell, ls[1..], o);
      }
      HollowFirst(Level(o.price, Without(ls[0].queue, o)), ls[1..], price);
    } else {
      WithdrawLeavesHollows(ls[1..], o, price);
      HollowFirst(ls[0], Withdraw(ls[1..], o.price, o), price);
    }
  }

  /** Cancelling leaves the empty ask levels as they are. */
  lemma {:induction false} CancelLeavesHollows(b: Book, id: nat, price: int)
    requires Coherent(b)
    ensures HollowAt(Cancel(b, id).asks, price) <==> HollowAt(b.asks, price)
  {
    match Find(b.Resting(), id)
    case None =>
    case Some(o) =>
      if o.side.Sell? {
        if o in Flat(b.bids) {
          ProperFlat(Buy, b.bids, o);
        }
        WithdrawLeavesHollows(b.asks, o, price);
      }
  }
}
