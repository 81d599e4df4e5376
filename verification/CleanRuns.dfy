/** When the loops cannot be caught: a run in which every order has a quantity and none uses up a
    price level together with itself always returns. */
module CleanRuns {
  import opened Orders
  import opened PriceLadder
  import opened Matching
  import opened Refinement
  import opened AddOrder
  import opened CancelModify
  import opened Runs
  import opened AliveOrders
  import opened HollowLevels
  import PriceTime

  /** Between calls, with no empty ask level and no empty order. */
  ghost predicate Clean(b: Book) {
    Invariant(b) && Peopled(b.asks) && Alive(b.Resting())
  }

  lemma {:induction false} ExactFillCloses(o: Order, f: seq<Order>, k: nat)
    requires o.side.Sell? && PriceTime.Ranked(Buy, f) && 0 < k < |f| && ExactFillAt(o, f, k)
    ensures ClosesAt(o, f, k)
  {
    assert !Better(Buy, f[k].price, f[k - 1].price);
  }

  lemma {:induction false} NoSellSnag(o: Order, f: seq<Order>)
    requires o.side.Sell? && PriceTime.Ranked(Buy, f) && Alive(f) && !Closes(o, f)
    ensures !SellSnags(o, f)
  {
    forall k | 0 < k < |f| ensures !ExactFillAt(o, f, k) {
      if ExactFillAt(o, f, k) {
        ExactFillCloses(o, f, k);
      }
    }
    forall k | 0 <= k < |f| ensures !DeadOrderAt(o, f, k) {
      assert f[k] in f;
    }
  }

  lemma {:induction false} NoBuySnag(o: Order, asks: seq<Level<Order>>)
    requires Peopled(asks) && Alive(Flat(asks))
    ensures !BuySnags(o, asks)
  {
    forall k | 0 <= k < |Flat(asks)| ensures !DeadOrderAt(o, Flat(asks), k) {
      assert Flat(asks)[k] in Flat(asks);
    }
  }

  /** In a clean book an order that closes no price level never traps the call. */
  lemma {:induction false} NoCloseNoTrap(b: Book, o: Order)
    requires Clean(b) && 0 < o.remaining <= o.initial
    requires b.Live(o.id) || !Closes(o, b.Quotes().Opposite(o.side))
    ensures Add(b, o).Settled?
  {
    AddIsPriceTime(b, o);
    AliveSides(b);
    if !b.Live(o.id) {
      if o.side.Buy? {
        NoBuySnag(o, b.asks);
      } else {
        FlatRanked(Buy, b.bids);
        NoSellSnag(o, Flat(b.bids));
      }
    }
  }

  lemma {:induction false} CarefulAdd(b: Book, o: Order)
    requires Clean(b) && 0 < o.remaining <= o.initial
    requires b.Live(o.id) || !Closes(o, b.Quotes().Opposite(o.side))
    ensures Add(b, o).Settled? && Clean(Add(b, o).book)
  {
    NoCloseNoTrap(b, o);
    AddIsPriceTime(b, o);
    AddAliveExactly(b, o);
    if !b.Live(o.id) {
      if CanMatch(b, o.side, o.price) {
        EmptyLevelLeftExactly(b, o);
      } else {
        PeopledMeansNoHollow(b.asks);
        PeopledMeansNoHollow(Add(b, o).book.asks);
        forall price {
          HollowLevelsExactly(b, o, price);
        }
      }
    }
  }

  lemma {:induction false} CancelKeepsClean(b: Book, id: nat)
    requires Clean(b)
    ensures Clean(Cancel(b, id))
  {
    CancelIsRemoval(b, id);
    CancelKeepsAlive(b, id);
    PeopledMeansNoHollow(b.asks);
    PeopledMeansNoHollow(Cancel(b, id).asks);
    forall price {
      CancelLeavesHollows(b, id, price);
    }
  }

  // ----- Runs -----

  /** The order has a quantity and closes no price level on the other side. */
  ghost predicate Harmless(v: PriceTime.Quotes, o: Order) {
    o.remaining > 0 && !Closes(o, v.Opposite(o.side))
  }

  /** What a caller who keeps price-time lists can check of a call beforehand. */
  ghost predicate Careful(v: PriceTime.Quotes, c: Call) {
    match c
    case AddCall(o) => v.Live(o.id) || Harmless(v, o)
    case CancelCall(_) => true
    case ModifyCall(o) => v.Live(o.id) ==> Harmless(PriceTime.Cancel(v, o.id), o)
  }

  ghost predicate CarefulRun(v: PriceTime.Quotes, calls: seq<Call>)
    decreases |calls|
  {
    calls == [] || (Careful(v, calls[0]) && CarefulRun(StepReference(v, calls[0]).0, calls[1..]))
  }

  lemma {:induction false} CarefulStep(b: Book, c: Call)
    requires Clean(b) && Sound(c) && Careful(b.Quotes(), c)
    ensures Step(b, c).Settled? && Clean(Step(b, c).book)
  {
    match c
    case AddCall(o) =>
      LiveAlike(b, o.id);
      if !b.Live(o.id) {
        CarefulAdd(b, o);
      }
    case CancelCall(id) => CancelKeepsClean(b, id);
    case ModifyCall(o) =>
      LiveAlike(b, o.id);
      if b.Live(o.id) {
        CancelIsRemoval(b, o.id);
        CancelKeepsClean(b, o.id);
        CarefulAdd(Cancel(b, o.id), o);
      }
  }

  /** A run in which every order has a quantity and none closes a price level always returns, and
      is the price-time run. Whether a run is of this kind is a question about price-time priority
      alone. */
  lemma {:induction false} CarefulRunsReturn(b: Book, calls: seq<Call>)
    requires Clean(b) && (forall i :: 0 <= i < |calls| ==> Sound(calls[i])) && CarefulRun(b.Quotes(), calls)
    ensures var r := Execute(b, calls);
      r.Settled? && Clean(r.book) && (r.book.Quotes(), r.trades) == ExecuteReference(b.Quotes(), calls)
    decreases |calls|
  {
    if calls != [] {
      CarefulStep(b, calls[0]);
      StepIsReference(b, calls[0]);
      CarefulRunsReturn(Step(b, calls[0]).book, calls[1..]);
    }
  }

  lemma {:induction false} EmptyBookIsClean()
    ensures Clean(EmptyBook())
  {
    EmptyBookIsSafe();
    assert EmptyBook().Resting() == [];
  }
}
