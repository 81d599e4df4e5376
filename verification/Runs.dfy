/** Whole runs of public calls: they refine the price-time reference, keep the book safe, and stop
    for ever exactly at a trap. */
module Runs {
  import opened Orders
  import opened PriceLadder
  import opened Matching
  import opened Refinement
  import opened AddOrder
  import opened CancelModify
  import opened Sequences
  import PriceTime

  datatype Call = AddCall(order: Order) | CancelCall(id: nat) | ModifyCall(order: Order)

  /** Order objects never hold more than they were made with. */
  ghost predicate Sound(c: Call) {
    c.CancelCall? || c.order.remaining <= c.order.initial
  }

  function Step(b: Book, c: Call): Outcome {
    match c
    case AddCall(o) => Add(b, o)
    case CancelCall(id) => Settled(Cancel(b, id), [])
    case ModifyCall(o) => Modify(b, o)
  }

  /** The calls one after the other, with all trades in order; `Spins` if one never returns. */
  function Execute(b: Book, calls: seq<Call>): Outcome
    decreases |calls|
  {
    if calls == [] then Settled(b, [])
    else
      match Step(b, calls[0])
      case Spins => Spins
      case Settled(c, ts) => Following(ts, Execute(c, calls[1..]))
  }

  function StepReference(v: PriceTime.Quotes, c: Call): (PriceTime.Quotes, seq<Trade>) {
    match c
    case AddCall(o) => PriceTime.Add(v, o)
    case CancelCall(id) => (PriceTime.Cancel(v, id), [])
    case ModifyCall(o) => PriceTime.Modify(v, o)
  }

  function ExecuteReference(v: PriceTime.Quotes, calls: seq<Call>): (PriceTime.Quotes, seq<Trade>)
    decreases |calls|
  {
    if calls == [] then (v, [])
    else
      var (w, ts) := StepReference(v, calls[0]);
      var (x, us) := ExecuteReference(w, calls[1..]);
      (x, ts + us)
  }

  /** The call made on `b` never returns. */
  ghost predicate Traps(b: Book, c: Call) {
    match c
    case AddCall(o) => !b.Live(o.id) && Snags(b, o)
    case CancelCall(_) => false
    case ModifyCall(o) => b.Live(o.id) && Snags(Cancel(b, o.id), o)
  }

  lemma {:induction false} StepIsReference(b: Book, c: Call)
    requires Invariant(b) && Sound(c)
    ensures Step(b, c).Spins? <==> Traps(b, c)
    ensures Step(b, c).Settled? ==>
      && Invariant(Step(b, c).book)
      && (Step(b, c).book.Quotes(), Step(b, c).trades) == StepReference(b.Quotes(), c)
  {
    match c
    case AddCall(o) => AddIsPriceTime(b, o);
    case CancelCall(id) => CancelIsRemoval(b, id);
    case ModifyCall(o) => ModifyIsReplacement(b, o);
  }

  /** Every run that returns is a run of the price-time reference: same trades, same resting
      orders in the same priority, and the invariant holds at its end. */
  lemma {:induction false} RunIsReference(b: Book, calls: seq<Call>)
    requires Invariant(b) && forall i :: 0 <= i < |calls| ==> Sound(calls[i])
    ensures var r := Execute(b, calls); r.Settled? ==>
      Invariant(r.book) && (r.book.Quotes(), r.trades) == ExecuteReference(b.Quotes(), calls)
    decreases |calls|
  {
    if calls != [] {
      StepIsReference(b, calls[0]);
      var s := Step(b, calls[0]);
      if s.Settled? {
        RunIsReference(s.book, calls[1..]);
      }
    }
  }

  /** A run is its first call and the run from there. */
  lemma {:induction false} ExecuteFirst(b: Book, calls: seq<Call>)
    requires calls != []
    ensures Execute(b, calls) ==
      match Step(b, calls[0]) case Spins => Spins case Settled(c, ts) => Following(ts, Execute(c, calls[1..]))
  {
  }

  lemma {:induction false} ExecuteConcat(b: Book, before: seq<Call>, after: seq<Call>)
    ensures Execute(b, before + after) ==
      match Execute(b, before) case Spins => Spins case Settled(c, ts) => Following(ts, Execute(c, after))
    decreases |before|
  {
    if before == [] {
      assert before + after == after;
      FollowingNothing(Execute(b, after));
    } else {
      ExecuteFirst(b, before + after);
      ExecuteFirst(b, before);
      ConcatTail(before, after);
      var s := Step(b, before[0]);
      if s.Settled? {
        ExecuteConcat(s.book, before[1..], after);
        var m := Execute(s.book, before[1..]);
        if m.Settled? {
          FollowingAssociates(s.trades, m.trades, Execute(m.book, after));
        }
      }
    }
  }

  /** The call at place `i` is a trap in the book its predecessors left. */
  ghost predicate TrapsAt(b: Book, calls: seq<Call>, i: nat)
    requires i < |calls|
  {
    var r := Execute(b, calls[..i]);
    r.Settled? && Traps(r.book, calls[i])
  }

  lemma {:induction false} TrapsAtFirst(b: Book, calls: seq<Call>)
    requires calls != []
    ensures TrapsAt(b, calls, 0) <==> Traps(b, calls[0])
  {
    assert calls[..0] == [];
    assert Execute(b, calls[..0]) == Settled(b, []);
  }

  /** Behind a first call that returned, places shift by one. */
  lemma {:induction false} TrapsAtShift(b: Book, calls: seq<Call>, i: nat)
    requires 0 < i < |calls| && Step(b, calls[0]).Settled?
    ensures TrapsAt(b, calls, i) <==> TrapsAt(Step(b, calls[0]).book, calls[1..], i - 1)
  {
    assert calls[..i][0] == calls[0] && calls[..i][1..] == calls[1..][..i - 1];
    ExecuteFirst(b, calls[..i]);
  }

  lemma {:induction false} SpinsHasTrap(b: Book, calls: seq<Call>) returns (i: nat)
    requires Invariant(b) && (forall k :: 0 <= k < |calls| ==> Sound(calls[k])) && Execute(b, calls).Spins?
    ensures i < |calls| && TrapsAt(b, calls, i)
    decreases |calls|
  {
    StepIsReference(b, calls[0]);
    ExecuteFirst(b, calls);
    if Traps(b, calls[0]) {
      i := 0;
      TrapsAtFirst(b, calls);
    } else {
      i := SpinsHasTrap(Step(b, calls[0]).book, calls[1..]);
      i := i + 1;
      TrapsAtShift(b, calls, i);
    }
  }

  lemma {:induction false} TrapMakesSpin(b: Book, calls: seq<Call>, i: nat)
    requires Invariant(b) && (forall k :: 0 <= k < |calls| ==> Sound(calls[k]))
    requires i < |calls| && TrapsAt(b, calls, i)
    ensures Execute(b, calls).Spins?
    decreases |calls|
  {
    StepIsReference(b, calls[0]);
    ExecuteFirst(b, calls);
    if i == 0 {
      TrapsAtFirst(b, calls);
    } else if Step(b, calls[0]).Settled? {
      TrapsAtShift(b, calls, i);
      TrapMakesSpin(Step(b, calls[0]).book, calls[1..], i - 1);
    }
  }

  /** A run fails to return exactly when some call is a trap in the book its predecessors left. */
  lemma {:induction false} RunSpinsAtATrap(b: Book, calls: seq<Call>)
    requires Invariant(b) && forall i :: 0 <= i < |calls| ==> Sound(calls[i])
    ensures Execute(b, calls).Spins? <==> exists i :: 0 <= i < |calls| && TrapsAt(b, calls, i)
  {
    if Execute(b, calls).Spins? {
      var i := SpinsHasTrap(b, calls);
    }
    if i :| 0 <= i < |calls| && TrapsAt(b, calls, i) {
      TrapMakesSpin(b, calls, i);
    }
  }

  /** After every run from the empty book: nothing that should have been killed is resting, the
      best bid is below the best ask, and no id rests twice. */
  lemma {:induction false} EveryRunIsSafe(calls: seq<Call>)
    requires forall i :: 0 <= i < |calls| ==> Sound(calls[i])
    requires Execute(EmptyBook(), calls).Settled?
    ensures var b := Execute(EmptyBook(), calls).book;
      && (forall o :: o in b.Resting() ==> o.kind.GoodTillCancel?)
      && (forall x, y :: x in Flat(b.bids) && y in Flat(b.asks) ==> x.price < y.price)
      && DistinctIds(b.Resting())
  {
    EmptyBookIsSafe();
    RunIsReference(EmptyBook(), calls);
    BidsBelowAsks(Execute(EmptyBook(), calls).book);
  }

  lemma {:induction false} BidsBelowAsks(b: Book)
    requires WellShaped(b) && Exits(b)
    ensures forall x, y :: x in Flat(b.bids) && y in Flat(b.asks) ==> x.price < y.price
  {
    forall x, y | x in Flat(b.bids) && y in Flat(b.asks) ensures x.price < y.price {
      var i, _ := Located(b.bids, x);
      var j, _ := Located(b.asks, y);
      assert b.bids[i].price <= b.bids[0].price && b.asks[0].price <= b.asks[j].price;
    }
  }

  // ----- Two runs that never return -----

  function Gtc(id: nat, side: Side, price: int, quantity: nat): Order {
    Order(GoodTillCancel, id, side, price, quantity, quantity)
  }

  /** A sell and a buy that fill each other exactly leave an empty ask level behind, and the
      next buy that reaches that price is never answered. */
  lemma {:induction false} EmptyAskLevelTraps()
    ensures var first := [AddCall(Gtc(1, Sell, 10, 5)), AddCall(Gtc(2, Buy, 10, 5))];
      && Execute(EmptyBook(), first).Settled?
      && Execute(EmptyBook(), first).book == Book([], [Level(10, [])])
      && Execute(EmptyBook(), first + [AddCall(Gtc(3, Buy, 10, 1))]).Spins?
  {
    var sell, buy, next := Gtc(1, Sell, 10, 5), Gtc(2, Buy, 10, 5), Gtc(3, Buy, 10, 1);
    var b1 := Book([], [Level(10, [sell])]);
    assert Add(EmptyBook(), sell) == Settled(b1, []);
    assert b1.Resting() == [sell];
    var placed := Book([Level(10, [buy])], [Level(10, [sell])]);
    var b2 := Book([], [Level(10, [])]);
    var trade := Trade(TradeInfo(2, 5, 10), TradeInfo(1, 5, 10));
    assert placed.bids[1..] == [] && [Level(10, [])] + placed.asks[1..] == b2.asks;
    assert PopIfFilled([buy], 5) == [] && PopIfFilled([sell], 5) == [];
    assert FillFronts(placed) == (b2, trade);
    assert Settle(placed) == Settled(b2, [trade]);
    assert Add(b1, buy) == Settled(b2, [trade]);
    assert b2.Resting() == [];
    assert Place(b2, next) == Book([Level(10, [next])], [Level(10, [])]);
    assert Add(b2, next).Spins?;
    var calls := [AddCall(sell), AddCall(buy)];
    assert calls[1..] == [AddCall(buy)];
    assert Execute(b1, [AddCall(buy)]) == Settled(b2, [trade]);
    assert Execute(EmptyBook(), calls).book == b2;
    ExecuteConcat(EmptyBook(), calls, [AddCall(next)]);
  }

  /** A sell that takes exactly the best bid level while the next one still crosses. Nothing in
      the book was unusual before it, and one share more is answered. */
  lemma {:induction false} ExactSellTraps()
    ensures var x, y := Gtc(1, Buy, 10, 5), Gtc(2, Buy, 9, 5);
      var r := Execute(EmptyBook(), [AddCall(x), AddCall(y)]);
      && r.Settled? && r.book.Quotes() == PriceTime.Quotes([x, y], [])
      && Add(r.book, Gtc(3, Sell, 9, 5)).Spins?
      && Add(r.book, Gtc(3, Sell, 9, 6)).Settled?
  {
    var x, y := Gtc(1, Buy, 10, 5), Gtc(2, Buy, 9, 5);
    var b := TwoBids(x, y);
    FiveSnags(b, x, y);
    SixDoesNot(b, x, y);
  }

  lemma {:induction false} FiveSnags(b: Book, x: Order, y: Order)
    requires Invariant(b) && b.Quotes() == PriceTime.Quotes([x, y], [])
    requires x == Gtc(1, Buy, 10, 5) && y == Gtc(2, Buy, 9, 5)
    ensures Add(b, Gtc(3, Sell, 9, 5)).Spins?
  {
    var o := Gtc(3, Sell, 9, 5);
    BestBid(b, x, y, o);
    assert ExactFillAt(o, [x, y], 1) by {
      assert [x, y][..1] == [x] && [x][1..] == [];
      assert Volume([x]) == 5;
    }
    AddIsPriceTime(b, o);
  }

  lemma {:induction false} SixDoesNot(b: Book, x: Order, y: Order)
    requires Invariant(b) && b.Quotes() == PriceTime.Quotes([x, y], [])
    requires x == Gtc(1, Buy, 10, 5) && y == Gtc(2, Buy, 9, 5)
    ensures Add(b, Gtc(3, Sell, 9, 6)).Settled?
  {
    var o := Gtc(3, Sell, 9, 6);
    BestBid(b, x, y, o);
    assert [x, y][..1] == [x] && [x][1..] == [];
    assert Volume([x]) == 5;
    assert !SellSnags(o, [x, y]);
    AddIsPriceTime(b, o);
  }

  lemma {:induction false} BestBid(b: Book, x: Order, y: Order, o: Order)
    requires Invariant(b) && b.Quotes() == PriceTime.Quotes([x, y], []) && x.id != o.id && y.id != o.id
    requires o.side.Sell? && o.price <= x.price
    ensures !b.Live(o.id) && CanMatch(b, Sell, o.price)
  {
    LiveAlike(b, o.id);
    assert [x, y][1..] == [y] && [y][1..] == [];
    FlatHead(b.bids);
    assert b.bids[0].queue[0].price == b.bids[0].price;
  }

  lemma {:induction false} OneBid(x: Order) returns (b: Book)
    requires x.side.Buy? && Rests(x)
    ensures Invariant(b) && b.Quotes() == PriceTime.Quotes([x], [])
    ensures Add(EmptyBook(), x) == Settled(b, [])
  {
    EmptyBookIsSafe();
    assert !EmptyBook().Live(x.id);
    AddRests(EmptyBook(), x);
    b := Add(EmptyBook(), x).book;
    RefersToOne(x);
  }

  lemma {:induction false} RefersToOne(x: Order)
    requires x.side.Buy? && x.kind.GoodTillCancel?
    ensures EmptyBook().Quotes() == PriceTime.Quotes([], [])
    ensures PriceTime.Add(PriceTime.Quotes([], []), x) == (PriceTime.Quotes([x], []), [])
  {
    assert PriceTime.Insert(Buy, [], x) == [x];
  }

  lemma {:induction false} RefersToTwo(x: Order, y: Order)
    requires x.side.Buy? && y.side.Buy? && y.kind.GoodTillCancel? && x.id != y.id && x.price > y.price
    ensures PriceTime.Add(PriceTime.Quotes([x], []), y) == (PriceTime.Quotes([x, y], []), [])
  {
    assert [x][1..] == [];
    assert PriceTime.Insert(Buy, [x], y) == [x, y];
  }

  lemma {:induction false} TwoBids(x: Order, y: Order) returns (b: Book)
    requires x.side.Buy? && y.side.Buy? && Rests(x) && Rests(y) && x.id != y.id && x.price > y.price
    ensures Invariant(b) && b.Quotes() == PriceTime.Quotes([x, y], [])
    ensures Execute(EmptyBook(), [AddCall(x), AddCall(y)]) == Settled(b, [])
  {
    var c := OneBid(x);
    assert !c.Live(y.id) && !CanMatch(c, Buy, y.price) by {
      assert [x][1..] == [];
      LiveAlike(c, y.id);
      FlatHead(c.bids);
    }
    AddRests(c, y);
    RefersToTwo(x, y);
    b := Add(c, y).book;
    TwoCalls(x, y, c, b);
  }

  lemma {:induction false} TwoCalls(x: Order, y: Order, c: Book, b: Book)
    requires Add(EmptyBook(), x) == Settled(c, []) && Add(c, y) == Settled(b, [])
    ensures Execute(EmptyBook(), [AddCall(x), AddCall(y)]) == Settled(b, [])
  {
    assert [AddCall(x), AddCall(y)][1..] == [AddCall(y)];
    assert [AddCall(y)][1..] == [];
    assert Execute(b, []) == Settled(b, []);
    assert Execute(c, [AddCall(y)]) == Settled(b, []);
  }
}
