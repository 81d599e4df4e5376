/** Resting orders without a quantity: which submission leaves one, and that no run whose orders
    all have a quantity ever does. */
module AliveOrders {
  import opened Orders
  import opened PriceLadder
  import opened Matching
  import opened AddOrder
  import opened CancelModify
  import opened Runs
  import PriceTime

  ghost predicate Alive(f: seq<Order>) {
    forall o :: o in f ==> o.remaining > 0
  }

  lemma {:induction false} AliveSides(b: Book)
    ensures Alive(b.Resting()) <==> Alive(b.Quotes().bids) && Alive(b.Quotes().asks)
  {
    if Alive(b.Resting()) {
      forall o | o in Flat(b.bids) || o in Flat(b.asks) ensures o.remaining > 0 {
        assert o in b.Resting();
      }
    }
  }

  lemma {:induction false} SweepKeepsAlive(taker: Order, f: seq<Order>)
    requires Alive(f)
    ensures Alive(PriceTime.Sweep(taker, f).rest)
    decreases |f|
  {
    if f != [] && taker.remaining > 0 && Crosses(taker.side, taker.price, f[0].price) {
      if f[0].remaining <= taker.remaining {
        SweepKeepsAlive(taker.Fill(f[0].remaining), f[1..]);
      }
    }
  }

  lemma {:induction false} InsertKeepsAlive(side: Side, f: seq<Order>, o: Order)
    requires Alive(f)
    ensures o in PriceTime.Insert(side, f, o)
    ensures Alive(PriceTime.Insert(side, f, o)) <==> o.remaining > 0
  {
    if f != [] && !Better(side, o.price, f[0].price) {
      InsertKeepsAlive(side, f[1..], o);
    }
  }

  lemma {:induction false} AddKeepsAlive(v: PriceTime.Quotes, o: Order)
    requires Alive(v.bids) && Alive(v.asks) && o.remaining > 0
    ensures Alive(PriceTime.Add(v, o).0.bids) && Alive(PriceTime.Add(v, o).0.asks)
  {
    var s := PriceTime.Sweep(o, v.Opposite(o.side));
    SweepKeepsAlive(o, v.Opposite(o.side));
    if s.taker.remaining > 0 {
      InsertKeepsAlive(o.side, v.Own(o.side), s.taker);
    }
  }

  /** An order without a quantity that rests is what `Add` of the reference makes of it. */
  lemma {:induction false} EmptyOrderRests(v: PriceTime.Quotes, o: Order)
    requires Alive(v.bids) && Alive(v.asks) && o.remaining == 0 && !v.Live(o.id) && o.kind.GoodTillCancel?
    ensures !Alive(PriceTime.Add(v, o).0.Own(o.side))
  {
    assert PriceTime.Sweep(o, v.Opposite(o.side)) == PriceTime.Swept(o, v.Opposite(o.side), []);
    InsertKeepsAlive(o.side, v.Own(o.side), o);
  }

  /** From a book in which every order has a quantity, a submission that returns leaves such a book
      exactly if its order is turned away, has a quantity itself, or is not there to rest. */
  lemma {:induction false} AddAliveExactly(b: Book, o: Order)
    requires Invariant(b) && Alive(b.Resting()) && o.remaining <= o.initial && Add(b, o).Settled?
    ensures Alive(Add(b, o).book.Resting()) <==> b.Live(o.id) || o.remaining > 0 || o.kind.FillAndKill?
  {
    var c := Add(b, o).book;
    AddIsPriceTime(b, o);
    LiveAlike(b, o.id);
    AliveSides(b);
    AliveSides(c);
    if o.remaining > 0 {
      AddKeepsAlive(b.Quotes(), o);
    } else if !b.Live(o.id) {
      if o.kind.GoodTillCancel? {
        EmptyOrderRests(b.Quotes(), o);
      } else if CanMatch(b, o.side, o.price) {
        CrossingEmpty(b, o);
      }
    }
  }

  lemma {:induction false} CancelKeepsAlive(b: Book, id: nat)
    requires Invariant(b) && Alive(b.Resting())
    ensures Alive(Cancel(b, id).Resting())
  {
    CancelRemoves(b, id);
  }

  /** Whatever order the call submits has a quantity. */
  predicate Sized(c: Call) {
    c.CancelCall? || c.order.remaining > 0
  }

  lemma {:induction false} StepKeepsAlive(b: Book, c: Call)
    requires Invariant(b) && Alive(b.Resting()) && Sound(c) && Sized(c) && Step(b, c).Settled?
    ensures Alive(Step(b, c).book.Resting())
  {
    match c
    case AddCall(o) => AddAliveExactly(b, o);
    case CancelCall(id) => CancelKeepsAlive(b, id);
    case ModifyCall(o) =>
      if b.Live(o.id) {
        CancelIsRemoval(b, o.id);
        CancelKeepsAlive(b, o.id);
        AddAliveExactly(Cancel(b, o.id), o);
      }
  }

  /** No run whose orders all have a quantity leaves an order resting that has none, whatever levels
      it fills and empties. */
  lemma {:induction false} RunKeepsAlive(b: Book, calls: seq<Call>)
    requires Invariant(b) && Alive(b.Resting())
    requires forall i :: 0 <= i < |calls| ==> Sound(calls[i]) && Sized(calls[i])
    requires Execute(b, calls).Settled?
    ensures Alive(Execute(b, calls).book.Resting())
    decreases |calls|
  {
    if calls != [] {
      StepIsReference(b, calls[0]);
      StepKeepsAlive(b, calls[0]);
      ExecuteFirst(b, calls);
      RunKeepsAlive(Step(b, calls[0]).book, calls[1..]);
    }
  }
}
