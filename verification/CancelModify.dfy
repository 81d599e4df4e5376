/** `CancelOrder` is removal of one order, and `ModifyOrder` a cancel followed by a fresh add. */
module CancelModify {
  import opened Orders
  import opened PriceLadder
  import opened Matching
  import opened Refinement
  import opened AddOrder
  import PriceTime

  lemma {:induction false} DropWithin(q: seq<Order>, f: seq<Order>, o: Order)
    requires o in q && DistinctIds(q)
    ensures PriceTime.Drop(q + f, o.id) == Without(q, o) + f
  {
    assert (q + f)[1..] == q[1..] + f;
    if q[0] != o {
      var i :| 0 < i < |q| && q[i] == o;
      assert q[1..][i - 1] == o;
      DropWithin(q[1..], f, o);
    }
  }

  lemma {:induction false} DropPast(q: seq<Order>, f: seq<Order>, id: nat)
    requires forall x :: x in q ==> x.id != id
    ensures PriceTime.Drop(q + f, id) == q + PriceTime.Drop(f, id)
  {
    if q == [] {
      assert q + f == f;
    } else {
      assert (q + f)[1..] == q[1..] + f;
      DropPast(q[1..], f, id);
    }
  }

  lemma {:induction false} DropAbsent(f: seq<Order>, id: nat)
    requires forall x :: x in f ==> x.id != id
    ensures PriceTime.Drop(f, id) == f
  {
    DropPast(f, [], id);
    assert f + [] == f;
  }

  /** Erasing by iterator takes the order with that id out of the priority list. */
  lemma {:induction false} WithdrawIsDrop(side: Side, ls: seq<Level<Order>>, o: Order)
    requires Sorted(side, ls) && Proper(side, ls) && DistinctIds(Flat(ls)) && o in Flat(ls)
    ensures Flat(Withdraw(ls, o.price, o)) == PriceTime.Drop(Flat(ls), o.id)
  {
    var q, f := ls[0].queue, Flat(ls[1..]);
    DistinctConcat(q, f);
    if ls[0].price == o.price {
      if o in f {
        ProperFlat(side, ls[1..], o);
      }
      DropWithin(q, f, o);
      FlatTop(Level(o.price, Without(q, o)), ls[1..]);
    } else {
      assert o in f;
      var j :| 0 <= j < |f| && f[j] == o;
      forall x | x in q ensures x.id != o.id {
        var i :| 0 <= i < |q| && q[i] == x;
        assert q[i].id != f[j].id;
      }
      DropPast(q, f, o.id);
      WithdrawIsDrop(side, ls[1..], o);
      FlatTop(ls[0], Withdraw(ls[1..], o.price, o));
    }
  }

  lemma {:induction false} WithoutMembers(q: seq<Order>, o: Order)
    ensures forall x :: x in Without(q, o) ==> x in q
  {
    if q != [] {
      WithoutMembers(q[1..], o);
    }
  }

  lemma {:induction false} WithdrawKeepsOrder(side: Side, ls: seq<Level<Order>>, price: int, o: Order)
    requires Sorted(side, ls) && Proper(side, ls)
    ensures var w := Withdraw(ls, price, o);
      && Sorted(side, w) && Proper(side, w) && (Peopled(ls) ==> Peopled(w))
      && (w != [] ==> ls != [] && (w[0].price == ls[0].price || Better(side, ls[0].price, w[0].price)))
  {
    if ls != [] {
      if ls[0].price == price {
        WithoutMembers(ls[0].queue, o);
        var q := Without(ls[0].queue, o);
        forall j | 0 <= j < |q| ensures q[j].side == side && q[j].price == price {
          assert q[j] in ls[0].queue;
        }
      } else {
        WithdrawKeepsOrder(side, ls[1..], price, o);
      }
    }
  }

  /** Cancelling is pure removal: everyone else keeps quantity and place, and an unknown id
      changes nothing. */
  lemma {:induction false} CancelRemoves(b: Book, id: nat)
    requires Coherent(b)
    ensures Coherent(Cancel(b, id)) && Cancel(b, id).Quotes() == PriceTime.Cancel(b.Quotes(), id)
    ensures forall x :: x in Cancel(b, id).Resting() <==> x in b.Resting() && x.id != id
    ensures !b.Live(id) ==> Cancel(b, id) == b
  {
    DistinctConcat(Flat(b.bids), Flat(b.asks));
    CancelledQuotes(b, id);
    DropBoth(Flat(b.bids), Flat(b.asks), id);
    CancelledShape(b, id);
  }

  /** And between calls it keeps the invariant. */
  lemma {:induction false} CancelIsRemoval(b: Book, id: nat)
    requires Invariant(b)
    ensures Cancel(b, id).Quotes() == PriceTime.Cancel(b.Quotes(), id)
    ensures Invariant(Cancel(b, id)) && !Cancel(b, id).Live(id)
    ensures !b.Live(id) ==> Cancel(b, id) == b
  {
    CancelRemoves(b, id);
    CancelledShape(b, id);
    LiveAlike(Cancel(b, id), id);
  }

  lemma {:induction false} DropBoth(bids: seq<Order>, asks: seq<Order>, id: nat)
    requires DistinctIds(bids + asks)
    ensures var d := PriceTime.Drop(bids, id) + PriceTime.Drop(asks, id);
      DistinctIds(d) && forall x :: x in d <==> x in bids + asks && x.id != id
  {
    DistinctConcat(bids, asks);
    PriceTime.DropMembers(bids, id);
    PriceTime.DropMembers(asks, id);
    var p, q := PriceTime.Drop(bids, id), PriceTime.Drop(asks, id);
    forall i, j | 0 <= i < |p| && 0 <= j < |q| ensures p[i].id != q[j].id {
      assert p[i] in bids && q[j] in asks;
      var k, l :| 0 <= k < |bids| && 0 <= l < |asks| && bids[k] == p[i] && asks[l] == q[j];
    }
    DistinctConcat(p, q);
  }

  lemma {:induction false} CancelledQuotes(b: Book, id: nat)
    requires Coherent(b)
    ensures Cancel(b, id).Quotes() == PriceTime.Cancel(b.Quotes(), id)
  {
    var bids, asks := Flat(b.bids), Flat(b.asks);
    DistinctConcat(bids, asks);
    match Find(b.Resting(), id)
    case None =>
      forall x | x in bids || x in asks ensures x.id != id {
        assert x in bids + asks;
      }
      DropAbsent(bids, id);
      DropAbsent(asks, id);
    case Some(o) =>
      FindConcat(bids, asks, id);
      if o in bids {
        ProperFlat(Buy, b.bids, o);
        WithdrawIsDrop(Buy, b.bids, o);
        var i :| 0 <= i < |bids| && bids[i] == o;
        forall x | x in asks ensures x.id != id {
          var j :| 0 <= j < |asks| && asks[j] == x;
          assert bids[i].id != asks[j].id;
        }
        DropAbsent(asks, id);
      } else {
        ProperFlat(Sell, b.asks, o);
        WithdrawIsDrop(Sell, b.asks, o);
        var j :| 0 <= j < |asks| && asks[j] == o;
        forall x | x in bids ensures x.id != id {
          var i :| 0 <= i < |bids| && bids[i] == x;
          assert bids[i].id != asks[j].id;
        }
        DropAbsent(bids, id);
      }
  }

  lemma {:induction false} CancelledShape(b: Book, id: nat)
    requires WellShaped(b)
    ensures WellShaped(Cancel(b, id)) && (Exits(b) ==> Exits(Cancel(b, id)))
  {
    match Find(b.Resting(), id)
    case None =>
    case Some(o) =>
      WithdrawKeepsOrder(Buy, b.bids, o.price, o);
      WithdrawKeepsOrder(Sell, b.asks, o.price, o);
  }

  /** Modifying an unknown id changes nothing. Otherwise the call returns exactly when the
      replacement does not snag on the book without the old order, and then it is the
      price-time replacement: cancel, then add. */
  lemma {:induction false} ModifyIsReplacement(b: Book, o: Order)
    requires Invariant(b) && o.remaining <= o.initial
    ensures Modify(b, o).Spins? <==> b.Live(o.id) && Snags(Cancel(b, o.id), o)
    ensures Modify(b, o).Settled? ==>
      && Invariant(Modify(b, o).book)
      && (Modify(b, o).book.Quotes(), Modify(b, o).trades) == PriceTime.Modify(b.Quotes(), o)
  {
    LiveAlike(b, o.id);
    CancelIsRemoval(b, o.id);
    AddIsPriceTime(Cancel(b, o.id), o);
  }

  lemma {:induction false} RestingPlace(b: Book, o: Order) returns (k: nat)
    requires Invariant(b) && Rests(o) && !b.Live(o.id) && !CanMatch(b, o.side, o.price)
    ensures Add(b, o) == Settled(Place(b, o), [])
    ensures var own := b.Quotes().Own(o.side);
      && k <= |own| && Place(b, o).Quotes().Own(o.side) == own[..k] + [o] + own[k..]
      && (forall i :: 0 <= i < k ==> !Better(o.side, o.price, own[i].price))
      && (forall i :: k <= i < |own| ==> Better(o.side, o.price, own[i].price))
  {
    RestingBook(b, o);
    PlaceKeepsShape(b, o);
    FlatRanked(o.side, if o.side.Buy? then b.bids else b.asks);
    k := PriceTime.InsertPosition(o.side, b.Quotes().Own(o.side), o);
  }

  /** A replacement that does not trade goes behind every order at its own or a better price,
      even one that arrived after the order it replaces. */
  lemma {:induction false} ReplacementGoesLast(b: Book, o: Order) returns (k: nat)
    requires Invariant(b) && Rests(o) && b.Live(o.id) && !CanMatch(Cancel(b, o.id), o.side, o.price)
    ensures Modify(b, o).Settled? && Modify(b, o).trades == []
    ensures var others := PriceTime.Drop(b.Quotes().Own(o.side), o.id);
      && k <= |others| && Modify(b, o).book.Quotes().Own(o.side) == others[..k] + [o] + others[k..]
      && (forall i :: 0 <= i < k ==> !Better(o.side, o.price, others[i].price))
      && (forall i :: k <= i < |others| ==> Better(o.side, o.price, others[i].price))
  {
    CancelIsRemoval(b, o.id);
    k := RestingPlace(Cancel(b, o.id), o);
  }
}
