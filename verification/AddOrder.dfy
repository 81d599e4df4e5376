/** `AddOrder` as written is price-time priority, or never returns, and which one is decided by
    the state of the book before the call. */
module AddOrder {
  import opened Orders
  import opened PriceLadder
  import opened Matching
  import opened Refinement
  import PriceTime

  // ----- Ids and membership -----

  lemma {:induction false} FindConcat(a: seq<Order>, b: seq<Order>, id: nat)
    ensures Find(a + b, id) == if Find(a, id).Some? then Find(a, id) else Find(b, id)
  {
    if a == [] {
      assert a + b == b;
    } else if a[0].id != id {
      FindConcat(a[1..], b, id);
      assert (a + b)[1..] == a[1..] + b;
    }
  }

  lemma {:induction false} DistinctConcat(a: seq<Order>, b: seq<Order>)
    ensures DistinctIds(a + b) <==>
            DistinctIds(a) && DistinctIds(b) && forall i, j :: 0 <= i < |a| && 0 <= j < |b| ==> a[i].id != b[j].id
  {
    if DistinctIds(a + b) {
      forall i, j | 0 <= i < j < |a| ensures a[i].id != a[j].id {
        assert (a + b)[i].id != (a + b)[j].id;
      }
      forall i, j | 0 <= i < j < |b| ensures b[i].id != b[j].id {
        assert (a + b)[|a| + i].id != (a + b)[|a| + j].id;
      }
      forall i, j | 0 <= i < |a| && 0 <= j < |b| ensures a[i].id != b[j].id {
        assert (a + b)[i].id != (a + b)[|a| + j].id;
      }
    }
  }

  /** `r` is the tail of `f`, order by order, with quantities possibly smaller. */
  ghost predicate TailOf(r: seq<Order>, f: seq<Order>) {
    |r| <= |f| && forall i :: 0 <= i < |r| ==>
      var was := f[|f| - |r| + i]; r[i] == was.(remaining := r[i].remaining) && r[i].remaining <= was.remaining
  }

  lemma {:induction false} TailBehindFirst(r: seq<Order>, f: seq<Order>)
    requires f != [] && TailOf(r, f[1..])
    ensures TailOf(r, f)
  {
    forall i | 0 <= i < |r|
      ensures var was := f[|f| - |r| + i]; r[i] == was.(remaining := r[i].remaining) && r[i].remaining <= was.remaining
    {
      assert f[1..][|f| - 1 - |r| + i] == f[|f| - |r| + i];
    }
  }

  lemma {:induction false} ReducedTail(f: seq<Order>, q: nat)
    requires f != [] && 0 < q <= f[0].remaining
    ensures TailOf((if q < f[0].remaining then [f[0].Fill(q)] else []) + f[1..], f)
  {
  }

  lemma {:induction false} SweepLeavesTail(taker: Order, f: seq<Order>)
    ensures var s := PriceTime.Sweep(taker, f);
      && TailOf(s.rest, f) && s.taker.remaining <= taker.remaining
      && s.taker == taker.(remaining := s.taker.remaining)
      && |s.trades| <= |f|
    decreases |f|
  {
    if f == [] || taker.remaining == 0 || !Crosses(taker.side, taker.price, f[0].price) {
      assert PriceTime.Sweep(taker, f) == PriceTime.Swept(taker, f, []);
    } else if f[0].remaining <= taker.remaining {
      SweepLeavesTail(taker.Fill(f[0].remaining), f[1..]);
      TailBehindFirst(PriceTime.Sweep(taker.Fill(f[0].remaining), f[1..]).rest, f);
    } else {
      ReducedTail(f, taker.remaining);
    }
  }

  /** The two sides after a call, in either order: one kept, the other a tail of itself. */
  lemma {:induction false} TailRests(own: seq<Order>, opp: seq<Order>, opp': seq<Order>)
    requires DistinctIds(own + opp) && (forall x :: x in own + opp ==> Rests(x)) && TailOf(opp', opp)
    ensures DistinctIds(own + opp') && DistinctIds(opp' + own)
    ensures forall x :: x in own + opp' || x in opp' + own ==> Rests(x)
  {
    DistinctConcat(own, opp);
    forall i | 0 <= i < |own| ensures Rests(own[i]) {
      assert own[i] in own + opp;
    }
    forall i | 0 <= i < |opp| ensures Rests(opp[i]) {
      assert opp[i] in own + opp;
    }
    DistinctConcat(own, opp');
    DistinctConcat(opp', own);
  }

  /** A new id in front of its own side. */
  lemma {:induction false} FirstRests(o: Order, own: seq<Order>, opp: seq<Order>)
    requires DistinctIds(own + opp) && (forall x :: x in own + opp ==> Rests(x) && x.id != o.id) && Rests(o)
    ensures DistinctIds([o] + own + opp) && forall x :: x in [o] + own + opp ==> Rests(x)
  {
    var both := own + opp;
    assert [o] + own + opp == [o] + both;
    forall i | 0 <= i < |both| ensures both[i].id != o.id {
      assert both[i] in both;
    }
  }

  // ----- Placing an order -----

  lemma {:induction false} FlatRanked(side: Side, ls: seq<Level<Order>>)
    requires Sorted(side, ls) && Proper(side, ls)
    ensures PriceTime.Ranked(side, Flat(ls))
  {
    if ls != [] {
      FlatRanked(side, ls[1..]);
      forall o | o in Flat(ls[1..]) ensures Better(side, ls[0].price, o.price) {
        ProperFlat(side, ls[1..], o);
      }
      var q: seq<Order>, t: seq<Order> := ls[0].queue, Flat(ls[1..]);
      forall i: nat, j: nat | i < j < |q + t| ensures !Better(side, (q + t)[j].price, (q + t)[i].price) {
        if j >= |q| {
          assert t[j - |q|] in t;
          if i < |q| {
            assert q[i].price == ls[0].price;
          }
        } else {
          assert q[i].price == ls[0].price == q[j].price;
        }
      }
    }
  }

  lemma {:induction false} InsertPast(side: Side, q: seq<Order>, f: seq<Order>, o: Order)
    requires forall i :: 0 <= i < |q| ==> !Better(side, o.price, q[i].price)
    ensures PriceTime.Insert(side, q + f, o) == q + PriceTime.Insert(side, f, o)
  {
    if q == [] {
      assert q + f == f;
    } else {
      InsertPast(side, q[1..], f, o);
      assert (q + f)[1..] == q[1..] + f;
    }
  }

  /** Appending to the list at the order's own price is inserting it in priority order. */
  lemma {:induction false} EnqueueIsInsert(side: Side, ls: seq<Level<Order>>, o: Order)
    requires Sorted(side, ls) && Proper(side, ls) && o.side == side
    ensures Flat(Enqueue(side, ls, o.price, o)) == PriceTime.Insert(side, Flat(ls), o)
  {
    if ls == [] || Better(side, o.price, ls[0].price) {
      if Flat(ls) != [] {
        assert Flat(ls)[0] in Flat(ls);
        ProperFlat(side, ls, Flat(ls)[0]);
      }
      assert ([Level(o.price, [o])] + ls)[1..] == ls;
    } else if ls[0].price == o.price {
      var q: seq<Order>, t: seq<Order> := ls[0].queue, Flat(ls[1..]);
      forall i | 0 <= i < |q| ensures !Better(side, o.price, q[i].price) {
      }
      InsertPast(side, q, t, o);
      if t != [] {
        assert t[0] in t;
        ProperFlat(side, ls[1..], t[0]);
      }
      assert ([Level(o.price, q + [o])] + ls[1..])[1..] == ls[1..];
    } else {
      var q := ls[0].queue;
      forall i | 0 <= i < |q| ensures !Better(side, o.price, q[i].price) {
      }
      InsertPast(side, q, Flat(ls[1..]), o);
      EnqueueIsInsert(side, ls[1..], o);
      var e := Enqueue(side, ls[1..], o.price, o);
      assert ([ls[0]] + e)[1..] == e;
    }
  }

  lemma {:induction false} EnqueueKeepsOrder(side: Side, ls: seq<Level<Order>>, o: Order)
    requires Sorted(side, ls) && Proper(side, ls) && o.side == side
    ensures var e := Enqueue(side, ls, o.price, o);
      && Sorted(side, e) && Proper(side, e) && (Peopled(ls) ==> Peopled(e)) && e != []
      && e[0].price == (if ls == [] || Better(side, o.price, ls[0].price) then o.price else ls[0].price)
  {
    if ls != [] && !Better(side, o.price, ls[0].price) {
      if ls[0].price == o.price {
        var q := ls[0].queue + [o];
        forall j | 0 <= j < |q| ensures q[j].side == side && q[j].price == o.price {
        }
      } else {
        EnqueueKeepsOrder(side, ls[1..], o);
      }
    }
  }

  /** Erasing the only order of the best level erases the level. */
  lemma {:induction false} WithdrawAlone(o: Order, rest: seq<Level<Order>>)
    ensures Withdraw([Level(o.price, [o])] + rest, o.price, o) == rest
  {
    var ls := [Level(o.price, [o])] + rest;
    assert ls[1..] == rest;
    assert Without([o], o) == [];
  }

  // ----- The two outcomes -----

  /** What a call has to leave behind when it returns. */
  ghost predicate Faithful(b: Book, o: Order, r: Outcome) {
    r.Settled? ==>
      && Invariant(r.book)
      && (r.book.Quotes(), r.trades) == PriceTime.Add(b.Quotes(), o)
  }

  lemma {:induction false} KillNothing(b: Book)
    requires forall o :: o in b.Resting() ==> o.kind.GoodTillCancel?
    ensures KillFronts(b) == b
  {
    if b.bids != [] && b.bids[0].queue != [] {
      FlatHead(b.bids);
      assert b.bids[0].queue[0] in b.Resting();
    }
    if b.asks != [] && b.asks[0].queue != [] {
      FlatHead(b.asks);
      assert b.asks[0].queue[0] in b.Resting();
    }
  }

  lemma {:induction false} LiveAlike(b: Book, id: nat)
    ensures b.Live(id) <==> b.Quotes().Live(id)
    ensures !b.Live(id) ==> forall x :: x in b.Resting() ==> x.id != id
  {
    FindConcat(Flat(b.bids), Flat(b.asks), id);
  }

  lemma {:induction false} PlaceKeepsShape(b: Book, o: Order)
    requires WellShaped(b)
    ensures WellShaped(Place(b, o))
    ensures Place(b, o).Quotes() == PriceTime.Assemble(o.side,
      PriceTime.Insert(o.side, b.Quotes().Own(o.side), o), b.Quotes().Opposite(o.side))
    ensures Exits(b) && !CanMatch(b, o.side, o.price) ==> Exits(Place(b, o))
  {
    var own := if o.side.Buy? then b.bids else b.asks;
    EnqueueIsInsert(o.side, own, o);
    EnqueueKeepsOrder(o.side, own, o);
  }

  /** A placed order is a new id in an otherwise unchanged list. */
  lemma {:induction false} PlaceMembers(b: Book, o: Order)
    requires Coherent(b) && !b.Live(o.id)
    ensures Coherent(Place(b, o))
    ensures forall x :: x in Place(b, o).Resting() <==> x in b.Resting() || x == o
  {
    LiveAlike(b, o.id);
    PlaceKeepsShape(b, o);
    var own := if o.side.Buy? then b.bids else b.asks;
    FlatRanked(o.side, own);
    var k := PriceTime.InsertPosition(o.side, Flat(own), o);
    if o.side.Buy? {
      InsertMembers(Flat(own), Flat(b.asks), o, k);
    } else {
      DistinctConcat(Flat(b.bids), Flat(own));
      DistinctConcat(Flat(own), Flat(b.bids));
      InsertMembers(Flat(own), Flat(b.bids), o, k);
    }
  }

  lemma {:induction false} InsertMembers(f: seq<Order>, g: seq<Order>, o: Order, k: nat)
    requires k <= |f| && DistinctIds(f + g) && forall x :: x in f + g ==> x.id != o.id
    ensures var h := f[..k] + [o] + f[k..];
      && DistinctIds(h + g) && DistinctIds(g + h)
      && (forall x :: x in h + g <==> x in f + g || x == o) && (forall x :: x in g + h <==> x in f + g || x == o)
  {
    var h := f[..k] + [o] + f[k..];
    assert f == f[..k] + f[k..];
    forall i | 0 <= i < |f| ensures f[i].id != o.id {
      assert f[i] in f + g;
    }
    forall j | 0 <= j < |g| ensures g[j].id != o.id {
      assert g[j] in f + g;
    }
    DistinctConcat(f, g);
    InsertDistinct(f, o, k);
    DistinctConcat(h, g);
    DistinctConcat(g, h);
  }

  lemma {:induction false} InsertDistinct(f: seq<Order>, o: Order, k: nat)
    requires k <= |f| && DistinctIds(f) && forall i :: 0 <= i < |f| ==> f[i].id != o.id
    ensures DistinctIds(f[..k] + [o] + f[k..])
  {
  }

  lemma {:induction false} RestingIsReference(b: Book, o: Order)
    requires WellShaped(b) && !b.Live(o.id) && o.kind.GoodTillCancel?
    requires !PriceTime.CrossesFront(o, b.Quotes().Opposite(o.side))
    ensures (Place(b, o).Quotes(), []) == PriceTime.Add(b.Quotes(), o)
  {
    LiveAlike(b, o.id);
    PlaceKeepsShape(b, o);
    var opp := b.Quotes().Opposite(o.side);
    assert PriceTime.Sweep(o, opp) == PriceTime.Swept(o, opp, []);
  }

  lemma {:induction false} RestingBook(b: Book, o: Order)
    requires Invariant(b) && o.remaining <= o.initial && !b.Live(o.id) && !CanMatch(b, o.side, o.price)
    requires o.kind.GoodTillCancel?
    ensures Add(b, o) == Settled(Place(b, o), [])
  {
    PlaceKeepsShape(b, o);
    PlaceMembers(b, o);
    KillNothing(Place(b, o));
  }

  lemma {:induction false} AddRests(b: Book, o: Order)
    requires Invariant(b) && o.remaining <= o.initial && !b.Live(o.id) && !CanMatch(b, o.side, o.price)
    ensures Add(b, o).Settled? && Faithful(b, o, Add(b, o))
  {
    LiveAlike(b, o.id);
    NothingToMeet(o, PriceTime.OppositeSide(o.side), if o.side.Buy? then b.asks else b.bids);
    assert !PriceTime.CrossesFront(o, b.Quotes().Opposite(o.side));
    if o.kind.GoodTillCancel? {
      PlaceKeepsShape(b, o);
      PlaceMembers(b, o);
      RestingBook(b, o);
      RestingIsReference(b, o);
    }
  }

  /** Both sides of the book, the order's own side first. */
  lemma {:induction false} SwapRests(b: Book, o: Order, own: seq<Order>, opp: seq<Order>)
    requires Invariant(b) && !b.Live(o.id)
    requires own == b.Quotes().Own(o.side) && opp == b.Quotes().Opposite(o.side)
    ensures DistinctIds(own + opp) && forall x :: x in own + opp ==> Rests(x) && x.id != o.id
  {
    LiveAlike(b, o.id);
    DistinctConcat(Flat(b.bids), Flat(b.asks));
    DistinctConcat(own, opp);
    forall x | x in own + opp ensures Rests(x) && x.id != o.id {
      assert x in b.Resting();
    }
  }

  lemma {:induction false} CrossingEmpty(b: Book, o: Order)
    requires Invariant(b) && !b.Live(o.id) && CanMatch(b, o.side, o.price) && o.remaining == 0
    ensures Add(b, o).Spins?
  {
    PlacedAlone(b, o);
  }

  /** A crossing order is strictly better than its whole side and opens a level of its own. */
  lemma {:induction false} PlacedAlone(b: Book, o: Order)
    requires Invariant(b) && CanMatch(b, o.side, o.price)
    ensures o.side.Buy? ==> Place(b, o) == Book([Level(o.price, [o])] + b.bids, b.asks) && Sorted(Buy, Place(b, o).bids)
    ensures o.side.Sell? ==>
      Place(b, o) == Book(b.bids, [Level(o.price, [o])] + b.asks) && Sorted(Sell, Place(b, o).asks)
  {
  }

  lemma {:induction false} BetterThanAll(side: Side, ls: seq<Level<Order>>, o: Order)
    requires Sorted(side, ls) && Proper(side, ls) && (ls == [] || Better(side, o.price, ls[0].price))
    ensures PriceTime.Insert(side, Flat(ls), o) == [o] + Flat(ls)
  {
    if Flat(ls) != [] {
      assert Flat(ls)[0] in Flat(ls);
      ProperFlat(side, ls, Flat(ls)[0]);
    }
  }

  /** A returned sweep against a side that crosses found a live order at its front. */
  lemma {:induction false} BuyCrossesFront(taker: Order, asks: seq<Level<Order>>)
    requires taker.side.Buy? && taker.remaining > 0 && asks != [] && asks[0].price <= taker.price && Proper(Sell, asks)
    requires !BuySnags(taker, asks)
    ensures PriceTime.CrossesFront(taker, Flat(asks)) && PriceTime.Sweep(taker, Flat(asks)).trades != []
  {
    if asks[0].queue == [] {
      assert asks[..0] == [];
      assert HollowLevelAt(taker, asks, 0);
    }
    FlatHead(asks);
  }

  lemma {:induction false} SellCrossesFront(taker: Order, bids: seq<Level<Order>>)
    requires taker.side.Sell? && taker.remaining > 0 && bids != [] && taker.price <= bids[0].price
    requires Proper(Buy, bids) && bids[0].queue != [] && !SellSnags(taker, Flat(bids))
    ensures PriceTime.CrossesFront(taker, Flat(bids)) && PriceTime.Sweep(taker, Flat(bids)).trades != []
  {
    FlatHead(bids);
    if bids[0].queue[0].remaining == 0 {
      assert Flat(bids)[..0] == [];
      assert DeadOrderAt(taker, Flat(bids), 0);
    }
  }

  lemma {:induction false} FlatTop(level: Level<Order>, ls: seq<Level<Order>>)
    ensures Flat([level] + ls) == level.queue + Flat(ls)
  {
    assert ([level] + ls)[1..] == ls;
  }

  /** After the sweep: the taker's remainder rests, is killed, or there is none. */
  ghost predicate Finished(b: Book, o: Order, c: Book) {
    var s := PriceTime.Sweep(o, b.Quotes().Opposite(o.side));
    && KillFronts(c).Quotes() == PriceTime.Assemble(o.side,
        if s.taker.remaining == 0 || o.kind.FillAndKill? then b.Quotes().Own(o.side)
        else PriceTime.Insert(o.side, b.Quotes().Own(o.side), s.taker), s.rest)
    && Invariant(KillFronts(c))
  }

  /** The swept side and the taker's own side, in either order, with or without a remainder. */
  lemma {:induction false} ResidueOrders(b: Book, o: Order, own': seq<Order>)
    requires Invariant(b) && o.remaining <= o.initial && !b.Live(o.id)
    requires var s := PriceTime.Sweep(o, b.Quotes().Opposite(o.side));
      own' == b.Quotes().Own(o.side) || (o.kind.GoodTillCancel? && own' == [s.taker] + b.Quotes().Own(o.side))
    ensures var s := PriceTime.Sweep(o, b.Quotes().Opposite(o.side));
      && DistinctIds(own' + s.rest) && DistinctIds(s.rest + own')
      && forall x :: x in own' + s.rest || x in s.rest + own' ==> Rests(x)
  {
    var opp, own := b.Quotes().Opposite(o.side), b.Quotes().Own(o.side);
    var s := PriceTime.Sweep(o, opp);
    SwapRests(b, o, own, opp);
    SweepLeavesTail(o, opp);
    if own' != own {
      FirstRests(s.taker, own, opp);
    }
    TailRests(own', opp, s.rest);
  }

  /** A well-shaped, uncrossed book made of the swept side and the taker's own side, with or
      without a remainder that may rest, satisfies the invariant. */
  lemma {:induction false} ResidueRests(b: Book, o: Order, d: Book, own': seq<Order>)
    requires Invariant(b) && o.remaining <= o.initial && !b.Live(o.id)
    requires WellShaped(d) && Exits(d)
    requires var s := PriceTime.Sweep(o, b.Quotes().Opposite(o.side));
      && d.Quotes() == PriceTime.Assemble(o.side, own', s.rest)
      && (own' == b.Quotes().Own(o.side) || (o.kind.GoodTillCancel? && own' == [s.taker] + b.Quotes().Own(o.side)))
    ensures Invariant(d)
  {
    ResidueOrders(b, o, own');
    var s := PriceTime.Sweep(o, b.Quotes().Opposite(o.side));
    assert d.Resting() == (if o.side.Buy? then own' + s.rest else s.rest + own');
  }

  lemma {:induction false} RestStrangers(rest: seq<Order>, f: seq<Order>, id: nat)
    requires TailOf(rest, f) && forall x :: x in f ==> x.id != id
    ensures forall x :: x in rest ==> x.id != id
  {
    forall x | x in rest ensures x.id != id {
      var i :| 0 <= i < |rest| && rest[i] == x;
      assert f[|f| - |rest| + i] in f;
    }
  }

  /** Only a fill-and-kill remainder is killed, and it leaves its side as it was. */
  lemma {:induction false} BuyKilled(c: Book, taker: Order, bids: seq<Level<Order>>)
    requires taker.side.Buy? && taker.kind.FillAndKill? && c.bids == [Level(taker.price, [taker])] + bids
    requires forall x :: x in Book(bids, c.asks).Resting() ==> x.kind.GoodTillCancel?
    ensures KillFronts(c) == Book(bids, c.asks)
  {
    FlatTop(Level(taker.price, [taker]), bids);
    assert Find(c.Resting(), taker.id) == Some(taker);
    WithdrawAlone(taker, bids);
    KillNothing(Book(bids, c.asks));
  }

  lemma {:induction false} SellKilled(c: Book, taker: Order, asks: seq<Level<Order>>)
    requires taker.side.Sell? && taker.kind.FillAndKill? && c.asks == [Level(taker.price, [taker])] + asks
    requires forall x :: x in Flat(c.bids) ==> x.id != taker.id && x.kind.GoodTillCancel?
    ensures KillFronts(c) == Book(c.bids, asks)
  {
    if c.bids != [] && c.bids[0].queue != [] {
      FlatHead(c.bids);
      assert c.bids[0].queue[0] in Flat(c.bids);
    }
    assert KillFront(c, c.bids) == c;
    FindConcat(Flat(c.bids), Flat(c.asks), taker.id);
    FlatTop(Level(taker.price, [taker]), asks);
    WithdrawAlone(taker, asks);
    assert KillFront(c, c.asks) == Book(c.bids, asks);
  }

  ghost predicate BuyLeft(b: Book, o: Order, c: Book) {
    var s := PriceTime.Sweep(o, Flat(b.asks));
    && Flat(c.asks) == s.rest && Sorted(Sell, c.asks) && Proper(Sell, c.asks) && Exits(c)
    && c.bids == (if s.taker.remaining == 0 then b.bids else [Level(o.price, [s.taker])] + b.bids)
  }

  lemma {:induction false} BuyFinishes(b: Book, o: Order, c: Book)
    requires Invariant(b) && o.remaining <= o.initial && !b.Live(o.id) && o.side.Buy? && CanMatch(b, Buy, o.price)
    requires BuyLeft(b, o, c)
    ensures Finished(b, o, c)
  {
    var s := PriceTime.Sweep(o, Flat(b.asks));
    SweepLeavesTail(o, Flat(b.asks));
    if s.taker.remaining > 0 && o.kind.GoodTillCancel? {
      BuyRemains(b, o, c);
    } else {
      var d := Book(b.bids, c.asks);
      ResidueRests(b, o, d, Flat(b.bids));
      if s.taker.remaining == 0 {
        KillNothing(d);
      } else {
        BuyKilled(c, s.taker, b.bids);
      }
    }
  }

  lemma {:induction false} BuyRemains(b: Book, o: Order, c: Book)
    requires Invariant(b) && o.remaining <= o.initial && !b.Live(o.id) && o.side.Buy? && CanMatch(b, Buy, o.price)
    requires BuyLeft(b, o, c) && PriceTime.Sweep(o, Flat(b.asks)).taker.remaining > 0 && o.kind.GoodTillCancel?
    ensures Finished(b, o, c)
  {
    var s := PriceTime.Sweep(o, Flat(b.asks));
    SweepLeavesTail(o, Flat(b.asks));
    BetterThanAll(Buy, b.bids, s.taker);
    FlatTop(Level(o.price, [s.taker]), b.bids);
    PlacedAlone(b, s.taker);
    PlaceKeepsShape(b, s.taker);
    ResidueRests(b, o, c, [s.taker] + Flat(b.bids));
    KillNothing(c);
  }

  /** A finished call of a crossing order is the price-time call. */
  lemma {:induction false} FinishedIsFaithful(b: Book, o: Order, c: Book, ts: seq<Trade>)
    requires !b.Live(o.id) && CanMatch(b, o.side, o.price) && Settle(Place(b, o)) == Settled(c, ts)
    requires Finished(b, o, c) && ts == PriceTime.Sweep(o, b.Quotes().Opposite(o.side)).trades && ts != []
    ensures Faithful(b, o, Add(b, o))
  {
    LiveAlike(b, o.id);
    assert Add(b, o) == Settled(KillFronts(c), ts);
    var opp := b.Quotes().Opposite(o.side);
    assert PriceTime.CrossesFront(o, opp);
  }

  lemma {:induction false} AddBuy(b: Book, o: Order)
    requires Invariant(b) && o.remaining <= o.initial && !b.Live(o.id)
    requires o.side.Buy? && CanMatch(b, Buy, o.price) && o.remaining > 0
    ensures Add(b, o).Spins? <==> BuySnags(o, b.asks)
    ensures Faithful(b, o, Add(b, o))
  {
    PlacedAlone(b, o);
    BuyWalk(o, b.bids, b.asks);
    LiveAlike(b, o.id);
    var r := Settle(Place(b, o));
    if r.Settled? {
      BuyCrossesFront(o, b.asks);
      BuyFinishes(b, o, r.book);
      FinishedIsFaithful(b, o, r.book, r.trades);
    }
  }

  ghost predicate SellLeft(b: Book, o: Order, c: Book) {
    var s := PriceTime.Sweep(o, Flat(b.bids));
    && Flat(c.bids) == s.rest && Sorted(Buy, c.bids) && Proper(Buy, c.bids) && Peopled(c.bids) && Exits(c)
    && (if s.taker.remaining == 0 then c.asks == b.asks || c.asks == [Level(o.price, [])] + b.asks
        else c.asks == [Level(o.price, [s.taker])] + b.asks)
  }

  lemma {:induction false} SellFinishes(b: Book, o: Order, c: Book)
    requires Invariant(b) && o.remaining <= o.initial && !b.Live(o.id) && o.side.Sell? && CanMatch(b, Sell, o.price)
    requires SellLeft(b, o, c)
    ensures Finished(b, o, c)
  {
    var s := PriceTime.Sweep(o, Flat(b.bids));
    SweepLeavesTail(o, Flat(b.bids));
    if s.taker.remaining == 0 {
      FlatTop(Level(o.price, []), b.asks);
      assert Flat(c.asks) == Flat(b.asks) by { assert [] + Flat(b.asks) == Flat(b.asks); }
      ResidueRests(b, o, c, Flat(b.asks));
      KillNothing(c);
    } else if o.kind.GoodTillCancel? {
      SellRemains(b, o, c);
    } else {
      SellKills(b, o, c);
    }
  }

  lemma {:induction false} SellKills(b: Book, o: Order, c: Book)
    requires Invariant(b) && o.remaining <= o.initial && !b.Live(o.id) && o.side.Sell? && CanMatch(b, Sell, o.price)
    requires SellLeft(b, o, c) && PriceTime.Sweep(o, Flat(b.bids)).taker.remaining > 0 && o.kind.FillAndKill?
    ensures Finished(b, o, c)
  {
    var s := PriceTime.Sweep(o, Flat(b.bids));
    var d := Book(c.bids, b.asks);
    ResidueRests(b, o, d, Flat(b.asks));
    SweepLeavesTail(o, Flat(b.bids));
    LiveAlike(b, o.id);
    RestStrangers(s.rest, Flat(b.bids), o.id);
    assert forall x :: x in Flat(c.bids) ==> x in d.Resting();
    SellKilled(c, s.taker, b.asks);
  }

  lemma {:induction false} SellRemains(b: Book, o: Order, c: Book)
    requires Invariant(b) && o.remaining <= o.initial && !b.Live(o.id) && o.side.Sell? && CanMatch(b, Sell, o.price)
    requires SellLeft(b, o, c) && PriceTime.Sweep(o, Flat(b.bids)).taker.remaining > 0 && o.kind.GoodTillCancel?
    ensures Finished(b, o, c)
  {
    var s := PriceTime.Sweep(o, Flat(b.bids));
    SweepLeavesTail(o, Flat(b.bids));
    BetterThanAll(Sell, b.asks, s.taker);
    FlatTop(Level(o.price, [s.taker]), b.asks);
    PlacedAlone(b, s.taker);
    PlaceKeepsShape(b, s.taker);
    ResidueRests(b, o, c, [s.taker] + Flat(b.asks));
    KillNothing(c);
  }

  lemma {:induction false} AddSell(b: Book, o: Order)
    requires Invariant(b) && o.remaining <= o.initial && !b.Live(o.id)
    requires o.side.Sell? && CanMatch(b, Sell, o.price) && o.remaining > 0
    ensures Add(b, o).Spins? <==> SellSnags(o, Flat(b.bids))
    ensures Faithful(b, o, Add(b, o))
  {
    PlacedAlone(b, o);
    SellWalk(o, b.bids, b.asks);
    LiveAlike(b, o.id);
    var r := Settle(Place(b, o));
    if r.Settled? {
      SellCrossesFront(o, b.bids);
      SellFinishes(b, o, r.book);
      FinishedIsFaithful(b, o, r.book, r.trades);
    }
  }

  /** The main result about one submission, for every book the calls can produce and every
      order: the call fails to return exactly when the order snags, and when it returns, its
      trades and the book it leaves are those of price-time priority. */
  lemma {:induction false} AddIsPriceTime(b: Book, o: Order)
    requires Invariant(b) && o.remaining <= o.initial
    ensures Add(b, o).Spins? <==> !b.Live(o.id) && Snags(b, o)
    ensures Add(b, o).Settled? ==>
      && Invariant(Add(b, o).book)
      && (Add(b, o).book.Quotes(), Add(b, o).trades) == PriceTime.Add(b.Quotes(), o)
  {
    LiveAlike(b, o.id);
    if !b.Live(o.id) {
      if !CanMatch(b, o.side, o.price) {
        AddRests(b, o);
      } else if o.remaining == 0 {
        CrossingEmpty(b, o);
      } else if o.side.Buy? {
        AddBuy(b, o);
      } else {
        AddSell(b, o);
      }
    }
  }
}
