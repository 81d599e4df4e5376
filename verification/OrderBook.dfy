/** The order book as the class it is: two ladders of lists of order pointers, and an index from
    id to the order and its place in its list, all updated in place. Each public call is one
    atomic step; a call the original never returns from is answered `NeverReturns`. */
module OrderBook {
  import opened Numbers
  import opened Orders
  import opened PriceLadder
  import opened Matching
  import opened Refinement
  import opened AddOrder
  import opened CancelModify
  import opened Pointers
  import MarketMaking
  import PriceTime

  datatype Answer = Returned(trades: seq<Trade>) | NeverReturns

  datatype LevelInfo = LevelInfo(price: int, quantity: nat)

  /** What the market-making strategy answers; `Stuck` when its order is never answered. */
  datatype Advice = Held | Bought(price: real) | Sold(price: real) | Stuck

  /** A signed counter stored as an unsigned 64-bit id. */
  function OrderIdOf(counter: int): nat {
    counter % TWO_TO_THE_64
  }

  function Moved(side: Side, position: int, quantity: nat): int {
    if side.Buy? then MarketMaking.AfterBuying(position, quantity) else MarketMaking.AfterSelling(position, quantity)
  }

  /** A good-till-cancel order under the counter modulo 2^64, at the whole part of the price, for the
      quantity but at most 100. */
  ghost predicate IsQuote(o: Order, side: Side, counter: int, price: real, quantity: nat) {
    && o.kind.GoodTillCancel? && o.side == side
    && o.id == counter % 0x1_0000_0000_0000_0000
    && IsTruncated(o.price, price)
    && o.initial == o.remaining == if quantity < 100 then quantity else 100
  }

  function QuoteOrder(side: Side, counter: int, price: real, quantity: nat): Order {
    var clip := MarketMaking.Clip(quantity);
    Order(GoodTillCancel, OrderIdOf(counter), side, Truncate(price), clip, clip)
  }

  lemma {:induction false} QuoteOrderIsQuote(side: Side, counter: int, price: real, quantity: nat)
    ensures IsQuote(QuoteOrder(side, counter, price, quantity), side, counter, price, quantity)
  {
    TruncatesTowardZero(price);
  }

  /** The order was added to the book `was`: nothing is told if that call never returns, and otherwise
      the book is as it leaves it and the price is told. */
  ghost predicate Advised(advice: Advice, was: Book, now: Book, o: Order, price: real) {
    match Add(was, o)
    case Spins => advice == Stuck
    case Settled(b, _) => now == b && advice == if o.side.Buy? then Bought(price) else Sold(price)
  }

  ghost predicate Reports(infos: seq<LevelInfo>, vs: seq<Level<Order>>) {
    && |infos| == |vs|
    && forall k :: 0 <= k < |vs| ==> infos[k] == LevelInfo(vs[k].price, Volume(vs[k].queue) % TWO_TO_THE_32)
  }

  lemma {:induction false} VolumeNext(f: seq<Order>, j: nat)
    requires j < |f|
    ensures Volume(f[..j + 1]) == Volume(f[..j]) + f[j].remaining
  {
    assert f[..j + 1] == f[..j] + [f[j]];
    VolumeConcat(f[..j], [f[j]]);
    assert [f[j]][1..] == [];
  }

  function Ids(f: seq<Order>): set<nat> {
    set o | o in f :: o.id
  }

  lemma {:induction false} IdsCount(f: seq<Order>)
    requires DistinctIds(f)
    ensures |Ids(f)| == |f|
  {
    if f != [] {
      IdsCount(f[1..]);
      assert f == [f[0]] + f[1..];
      assert Ids(f) == {f[0].id} + Ids(f[1..]);
      assert f[0].id !in Ids(f[1..]);
    }
  }

  class Orderbook {
    var bids: Ladder
    var asks: Ladder
    var index: map<nat, OrderEntry>

    var spreadThreshold: real
    var positionLimit: int
    var currentPosition: int

    ghost var view: Book
    ghost var values: map<Order_, Order>

    ghost predicate Wired()
      reads this, values.Keys
    {
      && Holds(bids, asks, index, view, values)
      && Current(values)
    }

    ghost predicate Valid()
      reads this, values.Keys
    {
      Wired() && Invariant(view)
    }

    constructor ()
      ensures Valid() && view == EmptyBook() && values == map[]
      ensures spreadThreshold == 0.02 && positionLimit == 1000 && currentPosition == 0
    {
      bids, asks, index := [], [], map[];
      spreadThreshold, positionLimit, currentPosition := 0.02, 1000, 0;
      view, values := EmptyBook(), map[];
      new;
      EmptyBookIsSafe();
      NothingHolds();
    }

    /** A front bid that has been filled leaves the index and the front of its list. */
    method PopBidIfFilled()
      requires bids != [] && bids[0].queue != []
      modifies this`bids, this`index
      ensures var order := old(bids[0].queue[0].order);
        && bids == Trim(old(bids), order.IsFilled())
        && index == if order.IsFilled() then old(index) - {order.id} else old(index)
    {
      if bids[0].queue[0].order.IsFilled() {
        index := index - {bids[0].queue[0].order.id};
        bids := [Level(bids[0].price, bids[0].queue[1..])] + bids[1..];
      }
    }

    method PopAskIfFilled()
      requires asks != [] && asks[0].queue != []
      modifies this`asks, this`index
      ensures var order := old(asks[0].queue[0].order);
        && asks == Trim(old(asks), order.IsFilled())
        && index == if order.IsFilled() then old(index) - {order.id} else old(index)
    {
      if asks[0].queue[0].order.IsFilled() {
        index := index - {asks[0].queue[0].order.id};
        asks := [Level(asks[0].price, asks[0].queue[1..])] + asks[1..];
      }
    }

    /** Erase the best bid level if it is empty, or else the best ask level if that is. Either
        way the inner loop breaks. */
    method EraseEmptyLevel() returns (erased: bool)
      requires bids != [] && asks != []
      modifies this`bids, this`asks
      ensures bids == if old(bids)[0].queue == [] then old(bids)[1..] else old(bids)
      ensures asks == if old(bids)[0].queue != [] && old(asks)[0].queue == [] then old(asks)[1..] else old(asks)
      ensures erased <==> old(bids)[0].queue == [] || old(asks)[0].queue == []
    {
      if bids[0].queue == [] {
        bids := bids[1..];
        return true;
      }
      if asks[0].queue == [] {
        asks := asks[1..];
        return true;
      }
      return false;
    }

    /** Body of the inner loop when it trades: fill the two front orders, take the filled ones
        off the index and the lists, and erase a level left empty. */
    method TradeFronts(ghost v: map<Order_, Order>) returns (trade: Trade, erased: bool)
      requires bids != [] && asks != [] && bids[0].queue != [] && asks[0].queue != []
      requires bids[0].queue[0].order != asks[0].queue[0].order
      requires Current(v) && bids[0].queue[0].order in v && asks[0].queue[0].order in v
      modifies this`bids, this`asks, this`index, bids[0].queue[0].order, asks[0].queue[0].order
      ensures var x, y := old(bids[0].queue[0].order), old(asks[0].queue[0].order);
        var q := Min(old(x.remainingQuantity), old(y.remainingQuantity));
        var b, a := Trim(old(bids), old(x.remainingQuantity) == q), Trim(old(asks), old(y.remainingQuantity) == q);
        && x.Value() == old(x.Value()).Fill(q) && y.Value() == old(y.Value()).Fill(q)
        && trade == Trade(TradeInfo(x.id, q, x.price), TradeInfo(y.id, q, y.price))
        && index == IndexAfter(old(index), x.id, old(x.remainingQuantity) == q, y.id, old(y.remainingQuantity) == q)
        && bids == (if b[0].queue == [] then b[1..] else b)
        && asks == (if b[0].queue != [] && a[0].queue == [] then a[1..] else a)
        && (erased <==> b[0].queue == [] || a[0].queue == [])
        && Current(ValuesAfter(v, x, y, q))
    {
      var bid, ask := bids[0].queue[0].order, asks[0].queue[0].order;
      var quantity := Min(bid.remainingQuantity, ask.remainingQuantity);
      bid.Fill(quantity);
      ask.Fill(quantity);
      assert Current(ValuesAfter(v, bid, ask, quantity));
      trade := Trade(TradeInfo(bid.id, quantity, bid.price), TradeInfo(ask.id, quantity, ask.price));
      PopBidIfFilled();
      PopAskIfFilled();
      erased := EraseEmptyLevel();
    }

    ghost method Track(v: Book, contents: map<Order_, Order>)
      requires Holds(bids, asks, index, v, contents) && Current(contents)
      modifies this`view, this`values
      ensures Wired() && view == v && values == contents
    {
      view, values := v, contents;
    }

    static lemma {:induction false} LoopEnds(trades: seq<Trade>, b: Book)
      ensures Exits(b) ==> Following(trades, Settle(b)) == Settled(b, trades)
      ensures !Exits(b) && Idles(b) ==> Following(trades, Settle(b)).Spins?
    {
      assert trades + [] == trades;
    }

    static lemma {:induction false} FollowingSettle(trades: seq<Trade>, b: Book)
      requires !Exits(b) && !Idles(b)
      ensures var (next, trade) := FillFronts(b);
        Following(trades, Settle(b)) == Following(trades + [trade], Settle(next))
    {
      var (next, trade) := FillFronts(b);
      FollowingAssociates(trades, [trade], Settle(next));
    }

    /** The trade on the maps is the trade on the view. */
    method TradeAndTrack() returns (trade: Trade, erased: bool)
      requires Wired() && !Exits(view) && !Idles(view)
      modifies `bids, `asks, `index, `view, `values, values.Keys
      ensures Wired() && (view, trade) == FillFronts(old(view)) && values.Keys <= old(values.Keys)
      ensures !erased ==> !Exits(view) && bids != [] && asks != [] && bids[0].queue != [] && asks[0].queue != []
    {
      ghost var after := FillFronts(view);
      ghost var x, y, q, values' := PlanTrade(bids, asks, index, view, values);
      trade, erased := TradeFronts(values);
      assert Holds(bids, asks, index, after.0, values') && Current(values');
      Track(after.0, values');
    }

    /** Whether the best opposite level, with or without orders in it, crosses `price`. */
    method CanMatch(side: Side, price: int) returns (can: bool)
      requires Wired()
      ensures can <==> Matching.CanMatch(view, side, price)
    {
      Tops();
      if side.Buy? {
        can := asks != [] && price >= asks[0].price;
      } else {
        can := bids != [] && price <= bids[0].price;
      }
    }

    /** Reject a live id and a fill-and-kill order that crosses nothing; otherwise append the
        order to the list at its price, enter it in the index, and match. The call returns
        exactly when the order does not snag, and then trades and book are price-time priority's. */
    method AddOrder(order: Order_) returns (answer: Answer)
      requires Valid() && order.remainingQuantity <= order.initialQuantity
      modifies `bids, `asks, `index, `view, `values, values.Keys, order
      ensures answer.NeverReturns? <==> !old(view).Live(order.id) && Snags(old(view), old(order.Value()))
      ensures answer.Returned? ==>
        && Valid() && Add(old(view), old(order.Value())) == Settled(view, answer.trades)
        && (view.Quotes(), answer.trades) == PriceTime.Add(old(view).Quotes(), old(order.Value()))
    {
      ghost var v := order.Value();
      AddIsPriceTime(view, v);
      if order.id in index {
        return Returned([]);
      }
      if order.kind.FillAndKill? {
        var can := CanMatch(order.side, order.price);
        if !can {
          return Returned([]);
        }
      }
      answer := TakeIn(order);
    }

    method TakeIn(order: Order_) returns (answer: Answer)
      requires Wired() && order.id !in index
      modifies `bids, `asks, `index, `view, `values, values.Keys, order
      ensures answer.NeverReturns? <==> Matching.MatchOrders(Place(old(view), old(order.Value()))).Spins?
      ensures answer.Returned? ==>
        Wired() && Matching.MatchOrders(Place(old(view), old(order.Value()))) == Settled(view, answer.trades)
    {
      PushBack(order);
      answer := MatchOrders();
    }

    /** Append the order to the list at its price, on its side, and enter it in the index. */
    method PushNode(order: Order_, node: ListNode)
      modifies `bids, `asks, `index
      ensures bids == if order.side.Buy? then Enqueue(Buy, old(bids), order.price, node) else old(bids)
      ensures asks == if order.side.Buy? then old(asks) else Enqueue(Sell, old(asks), order.price, node)
      ensures index == old(index)[order.id := OrderEntry(order, node)]
    {
      if order.side.Buy? {
        bids := Enqueue(Buy, bids, order.price, node);
      } else {
        asks := Enqueue(Sell, asks, order.price, node);
      }
      index := index[order.id := OrderEntry(order, node)];
    }

    /** The same on the book that is held. */
    method PushBack(order: Order_)
      requires Wired() && order.id !in index
      modifies `bids, `asks, `index, `view, `values
      ensures Wired() && view == Place(old(view), order.Value()) && values.Keys == old(values.Keys) + {order}
    {
      ghost var v := order.Value();
      var node := new ListNode(order);
      PlaceWires(bids, asks, index, view, values, node, v);
      PushNode(order, node);
      Track(Place(view, v), values[order := v]);
    }

    /** Nothing for an unknown id; otherwise cancel the order and add the new one. */
    method ModifyOrder(order: Order_) returns (answer: Answer)
      requires Valid() && order.remainingQuantity <= order.initialQuantity
      modifies `bids, `asks, `index, `view, `values, values.Keys, order
      ensures answer.NeverReturns? <==>
        old(view).Live(order.id) && Snags(Cancel(old(view), order.id), old(order.Value()))
      ensures answer.Returned? ==>
        && Valid() && Modify(old(view), old(order.Value())) == Settled(view, answer.trades)
        && (view.Quotes(), answer.trades) == PriceTime.Modify(old(view).Quotes(), old(order.Value()))
    {
      ModifyIsReplacement(view, order.Value());
      CancelIsRemoval(view, order.id);
      if order.id !in index {
        return Returned([]);
      }
      CancelOrder(order.id);
      answer := AddOrder(order);
    }

    /** Look the id up, erase the node its entry points to, and its level if that empties it. */
    method CancelOrder(orderId: nat)
      requires Wired()
      modifies `bids, `asks, `index, `view, `values
      ensures Wired() && view == Cancel(old(view), orderId)
      ensures values.Keys <= old(values.Keys) && forall x :: x in values ==> x.id != orderId
    {
      if orderId !in index {
        assert !view.Live(orderId);
        return;
      }
      var entry := index[orderId];
      var order := entry.order;
      if order.side.Buy? {
        CancelBidWires(orderId);
        bids := Withdraw(bids, order.price, entry.location);
      } else {
        CancelAskWires(orderId);
        asks := Withdraw(asks, order.price, entry.location);
      }
      index := index - {orderId};
      Track(Cancel(view, orderId), values - {order});
    }

    /** The tops of the two maps are the tops of the view. */
    lemma {:induction false} Tops()
      requires Wired()
      ensures (bids == [] <==> view.bids == []) && (asks == [] <==> view.asks == [])
      ensures bids != [] ==> bids[0].price == view.bids[0].price && (bids[0].queue == [] <==> view.bids[0].queue == [])
      ensures asks != [] ==> asks[0].price == view.asks[0].price && (asks[0].queue == [] <==> view.asks[0].queue == [])
      ensures bids != [] && bids[0].queue != [] ==> bids[0].queue[0].order.Value() == view.bids[0].queue[0]
      ensures asks != [] && asks[0].queue != [] ==> asks[0].queue[0].order.Value() == view.asks[0].queue[0]
    {
      if bids != [] {
        assert LinkedLevel(bids[0], view.bids[0], values);
      }
      if asks != [] {
        assert LinkedLevel(asks[0], view.asks[0], values);
      }
    }

    /** The inner loop, on two crossing levels that are both not empty: it ends when it erases a
        level, or finds a front order with nothing left, and then would turn for ever. */
    method MatchLevels(trades: seq<Trade>, ghost start: Book) returns (answer: Answer)
      requires Wired() && !Exits(view) && bids[0].queue != [] && asks[0].queue != []
      requires Settle(start) == Following(trades, Settle(view))
      modifies `bids, `asks, `index, `view, `values, values.Keys
      ensures answer.NeverReturns? ==> Settle(start).Spins?
      ensures answer.Returned? ==>
        && Wired() && values.Keys <= old(values.Keys)
        && Open(view) < old(Open(view)) && Settle(start) == Following(answer.trades, Settle(view))
    {
      ghost var atTop := Open(view);
      var ts := trades;
      while bids[0].queue != [] && asks[0].queue != []
        invariant Wired() && values.Keys <= old(values.Keys)
        invariant Settle(start) == Following(ts, Settle(view))
        invariant !Exits(view) && bids[0].queue != [] && asks[0].queue != [] && Open(view) <= atTop
        decreases Open(view)
      {
        Tops();
        LoopEnds(ts, view);
        if Min(bids[0].queue[0].order.remainingQuantity, asks[0].queue[0].order.remainingQuantity) == 0 {
          return NeverReturns;
        }
        FollowingSettle(ts, view);
        var trade, erased := TradeAndTrack();
        ts := ts + [trade];
        if erased {
          break;
        }
      }
      answer := Returned(ts);
    }

    /** The matching loops. Where the loops of the original would turn without changing anything,
        this answers `NeverReturns`. */
    method RunLoops() returns (answer: Answer)
      requires Wired()
      modifies `bids, `asks, `index, `view, `values, values.Keys
      ensures answer.NeverReturns? <==> Settle(old(view)).Spins?
      ensures answer.Returned? ==>
        Wired() && values.Keys <= old(values.Keys) && Settle(old(view)) == Settled(view, answer.trades)
    {
      answer := Returned([]);
      FollowingNothing(Settle(view));
      while bids != [] && asks != []
        invariant answer.Returned? && Wired() && values.Keys <= old(values.Keys)
        invariant Settle(old(view)) == Following(answer.trades, Settle(view))
        decreases Open(view)
      {
        Tops();
        LoopEnds(answer.trades, view);
        if bids[0].price < asks[0].price {
          break;
        }
        if bids[0].queue == [] || asks[0].queue == [] {
          return NeverReturns;
        }
        answer := MatchLevels(answer.trades, old(view));
        if answer.NeverReturns? {
          return;
        }
      }
      Tops();
      LoopEnds(answer.trades, view);
    }

    method MatchOrders() returns (answer: Answer)
      requires Wired()
      modifies `bids, `asks, `index, `view, `values, values.Keys
      ensures answer.NeverReturns? <==> Matching.MatchOrders(old(view)).Spins?
      ensures answer.Returned? ==> Wired() && Matching.MatchOrders(old(view)) == Settled(view, answer.trades)
      ensures answer.Returned? ==> values.Keys <= old(values.Keys)
    {
      answer := RunLoops();
      if answer.NeverReturns? {
        return;
      }
      CancelFrontFak(Buy);
      CancelFrontFak(Sell);
    }

    /** `cancel_fak`: only the front order of the best level is looked at. */
    method CancelFrontFak(side: Side)
      requires Wired()
      modifies `bids, `asks, `index, `view, `values
      ensures Wired() && view == KillFront(old(view), if side.Buy? then old(view).bids else old(view).asks)
      ensures values.Keys <= old(values.Keys)
    {
      Tops();
      var levels := if side.Buy? then bids else asks;
      if levels != [] {
        var orders := levels[0].queue;
        if orders != [] && orders[0].order.kind.FillAndKill? {
          CancelOrder(orders[0].order.id);
        }
      }
    }

    /** The index holds each resting order exactly once. */
    method Size() returns (size: nat)
      requires Wired()
      ensures size == |view.Resting()|
    {
      IdsCount(view.Resting());
      assert index.Keys == Ids(view.Resting());
      size := |index|;
    }

    /** Price and total remaining quantity of every level, best first; the totals are 32-bit sums,
        and a level left empty is reported with quantity 0. */
    method GetOrderInfos() returns (bidInfos: seq<LevelInfo>, askInfos: seq<LevelInfo>)
      requires Wired()
      ensures Reports(bidInfos, view.bids) && Reports(askInfos, view.asks)
    {
      bidInfos := LevelInfos(bids, view.bids);
      askInfos := LevelInfos(asks, view.asks);
    }

    method TotalOf(queue: seq<ListNode>, ghost orders: seq<Order>) returns (total: nat)
      requires |queue| == |orders| && forall j :: 0 <= j < |queue| ==>
          queue[j].order.remainingQuantity == orders[j].remaining
      ensures total == Volume(orders) % TWO_TO_THE_32
    {
      total := 0;
      for j := 0 to |queue|
        invariant total == Volume(orders[..j]) % TWO_TO_THE_32
      {
        VolumeNext(orders, j);
        total := (total + queue[j].order.remainingQuantity) % TWO_TO_THE_32;
      }
      assert orders[..|queue|] == orders;
    }

    method LevelInfos(ls: Ladder, ghost vs: seq<Level<Order>>) returns (infos: seq<LevelInfo>)
      requires Wired() && Linked(ls, vs, values)
      ensures Reports(infos, vs)
    {
      infos := [];
      for i := 0 to |ls|
        invariant |infos| == i
        invariant forall k :: 0 <= k < i ==> infos[k] == LevelInfo(vs[k].price, Volume(vs[k].queue) % TWO_TO_THE_32)
      {
        assert LinkedLevel(ls[i], vs[i], values);
        var total := TotalOf(ls[i].queue, vs[i].queue);
        infos := infos + [LevelInfo(ls[i].price, total)];
      }
    }

    /** Make a new order of these contents and add it. */
    method SubmitNew(o: Order) returns (answered: bool)
      requires Valid() && o.remaining == o.initial
      modifies `bids, `asks, `index, `view, `values, values.Keys
      ensures match Add(old(view), o)
        case Spins => !answered
        case Settled(b, _) => answered && view == b && Valid()
    {
      var order := new Order_(o.kind, o.id, o.side, o.price, o.initial);
      assert order.Value() == o;
      AddIsPriceTime(view, o);
      var answer := AddOrder(order);
      answered := answer.Returned?;
    }

    method MovePosition(side: Side, quantity: nat)
      requires Valid()
      modifies `currentPosition
      ensures Valid() && currentPosition == Moved(side, old(currentPosition), quantity)
    {
      if side.Buy? {
        currentPosition := MarketMaking.AfterBuying(currentPosition, quantity);
      } else {
        currentPosition := MarketMaking.AfterSelling(currentPosition, quantity);
      }
    }

    /** Submit an order of the quote, and if the call returns, book its clipped size on the position,
        whatever became of the order, and tell the untruncated price. */
    method Quote(side: Side, counter: int, price: real, quantity: nat) returns (advice: Advice, ghost order: Order)
      requires Valid()
      modifies `bids, `asks, `index, `view, `values, `currentPosition, values.Keys
      ensures IsQuote(order, side, counter, price, quantity)
      ensures Advised(advice, old(view), view, order, price)
      ensures advice != Stuck ==> Valid() && currentPosition == Moved(side, old(currentPosition), quantity)
    {
      QuoteOrderIsQuote(side, counter, price, quantity);
      order := QuoteOrder(side, counter, price, quantity);
      var answered := SubmitNew(QuoteOrder(side, counter, price, quantity));
      if !answered {
        return Stuck, order;
      }
      MovePosition(side, quantity);
      advice := if side.Buy? then Bought(price) else Sold(price);
    }

    /** Inside a wide spread: buy while below the position limit, else sell while above its
        negative, at most 100 at a time. `order` is the order added, if any is. */
    method ExecuteMarketMakingStrategy(counterId: int, bidPrice: real, askPrice: real, bidQuantity: nat,
                                       askQuantity: nat)
      returns (advice: Advice, ghost order: Order)
      requires Valid()
      modifies `bids, `asks, `index, `view, `values, `currentPosition, values.Keys
      ensures advice != Stuck ==> Valid()
      ensures
        var wide, below := askPrice - bidPrice > old(spreadThreshold), old(currentPosition) < old(positionLimit);
        var buyPrice := bidPrice + old(spreadThreshold) / 2.0;
        var sellPrice := askPrice - old(spreadThreshold) / 2.0;
        if wide && below then
          && IsQuote(order, Buy, counterId, buyPrice, askQuantity)
          && Advised(advice, old(view), view, order, buyPrice)
        else if wide && old(currentPosition) > -old(positionLimit) then
          && IsQuote(order, Sell, counterId + 1, sellPrice, bidQuantity)
          && Advised(advice, old(view), view, order, sellPrice)
        else advice == Held && view == old(view)
      ensures
        var quote := MarketMaking.Quote(askPrice - bidPrice > old(spreadThreshold), bidQuantity, askQuantity);
        advice != Stuck ==> currentPosition == MarketMaking.Move(old(currentPosition), old(positionLimit), quote)
    {
      order := QuoteOrder(Buy, 0, 0.0, 0);
      if currentPosition >= positionLimit && currentPosition <= -positionLimit {
        return Held, order;
      }
      var spread := askPrice - bidPrice;
      if spread > spreadThreshold {
        if currentPosition < positionLimit {
          var buyPrice := bidPrice + spreadThreshold / 2.0;
          advice, order := Quote(Buy, counterId, buyPrice, askQuantity);
          return;
        }
        if currentPosition > -positionLimit {
          var sellPrice := askPrice - spreadThreshold / 2.0;
          advice, order := Quote(Sell, counterId + 1, sellPrice, bidQuantity);
          return;
        }
      }
      return Held, order;
    }

    lemma {:induction false} CancelBidWires(id: nat)
      requires Wired() && id in index && index[id].order.side.Buy?
      ensures var entry, v := index[id], Cancel(view, id);
        && Holds(Withdraw(bids, entry.order.price, entry.location), asks, index - {id}, v, values - {entry.order})
        && forall x :: x in values - {entry.order} ==> x.id != id
    {
      var entry, v := index[id], Cancel(view, id);
      var o := Lookup(id);
      assert
        && Coherent(v) && (forall i :: v.Live(i) <==> view.Live(i) && i != id)
        && (forall x :: x in Flat(v.bids) || x in Flat(v.asks) ==> x.id != id)
      by {
        CancelRemoves(view, id);
        LiveAfter(view, v, id);
        Split(v);
      }
      CancelWiresSide(bids, view.bids, v.bids, entry, o);
      Forgotten(asks, v.asks, values, index, entry.order);
      Unindexed(index, view, v, values, id);
    }

    lemma {:induction false} CancelAskWires(id: nat)
      requires Wired() && id in index && index[id].order.side.Sell?
      ensures var entry, v := index[id], Cancel(view, id);
        && Holds(bids, Withdraw(asks, entry.order.price, entry.location), index - {id}, v, values - {entry.order})
        && forall x :: x in values - {entry.order} ==> x.id != id
    {
      var entry, v := index[id], Cancel(view, id);
      var o := Lookup(id);
      assert
        && Coherent(v) && (forall i :: v.Live(i) <==> view.Live(i) && i != id)
        && (forall x :: x in Flat(v.bids) || x in Flat(v.asks) ==> x.id != id)
      by {
        CancelRemoves(view, id);
        LiveAfter(view, v, id);
        Split(v);
      }
      CancelWiresSide(asks, view.asks, v.asks, entry, o);
      Forgotten(bids, v.bids, values, index, entry.order);
      Unindexed(index, view, v, values, id);
    }

    lemma {:induction false} CancelWiresSide(ls: Ladder, vs: seq<Level<Order>>, left: seq<Level<Order>>,
                                             entry: OrderEntry, o: Order)
      requires Linked(ls, vs, values) && Indexed(ls, index) && Faces(values) && entry.order in values &&
          values[entry.order] == o
      requires forall i, j :: 0 <= i < |ls| && 0 <= j < |ls[i].queue| ==>
        (ls[i].queue[j] == entry.location <==> vs[i].queue[j] == o)
      requires left == Withdraw(vs, o.price, o) && forall x :: x in Flat(left) ==> x.id != o.id
      ensures Linked(Withdraw(ls, o.price, entry.location), left, values - {entry.order})
      ensures Indexed(Withdraw(ls, o.price, entry.location), index - {o.id})
    {
      WithdrawLinked(ls, vs, values, o.price, entry.location, o);
      WithdrawIndexed(ls, index, o.price, entry.location);
      Forgotten(Withdraw(ls, o.price, entry.location), left, values, index, entry.order);
    }

    /** What the index finds for a live id is the order resting in the view, and its node is
        the only one that holds it. */
    lemma {:induction false} Lookup(id: nat) returns (o: Order)
      requires Wired() && id in index
      ensures Find(view.Resting(), id) == Some(o) && index[id].order in values && values[index[id].order] == o
      ensures o.side.Buy? ==> forall i, j :: 0 <= i < |bids| && 0 <= j < |bids[i].queue| ==>
        (bids[i].queue[j] == index[id].location <==> view.bids[i].queue[j] == o)
      ensures o.side.Sell? ==> forall i, j :: 0 <= i < |asks| && 0 <= j < |asks[i].queue| ==>
        (asks[i].queue[j] == index[id].location <==> view.asks[i].queue[j] == o)
    {
      o := Find(view.Resting(), id).value;
      FindConcat(Flat(view.bids), Flat(view.asks), id);
      DistinctConcat(Flat(view.bids), Flat(view.asks));
      if o in Flat(view.bids) {
        ProperFlat(Buy, view.bids, o);
        LookupIn(bids, view.bids, id, o);
      } else {
        ProperFlat(Sell, view.asks, o);
        LookupIn(asks, view.asks, id, o);
      }
    }

    lemma {:induction false} LookupIn(ls: Ladder, vs: seq<Level<Order>>, id: nat, o: Order)
      requires Linked(ls, vs, values) && Indexed(ls, index) && Faces(values)
      requires DistinctIds(Flat(vs)) && o in Flat(vs) && o.id == id
      ensures id in index && index[id].order in values && values[index[id].order] == o
      ensures forall i, j :: 0 <= i < |ls| && 0 <= j < |ls[i].queue| ==>
        (ls[i].queue[j] == index[id].location <==> vs[i].queue[j] == o)
    {
      var i, j := Located(vs, o);
      assert LinkedLevel(ls[i], vs[i], values);
      var node := ls[i].queue[j];
      assert index[id] == OrderEntry(node.order, node);
      forall i', j' | 0 <= i' < |ls| && 0 <= j' < |ls[i'].queue|
        ensures ls[i'].queue[j'] == node <==> vs[i'].queue[j'] == o
      {
        assert LinkedLevel(ls[i'], vs[i'], values);
        if vs[i'].queue[j'].id == o.id {
          SameIdSamePosition(vs, i, j, i', j');
        }
      }
    }
  }
}
