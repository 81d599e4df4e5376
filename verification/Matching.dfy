/** The matching engine exactly as written, on the contents of its two maps: levels are
    created, emptied and erased as the loops do it, including the ask level that is left
    behind empty when one fill exhausts both best levels. A state in which the loops go
    round without changing anything is reported as `Spins`. */
module Matching {
  import opened Orders
  import opened PriceLadder
  import opened Sequences
  import PriceTime

  datatype Book = Book(bids: seq<Level<Order>>, asks: seq<Level<Order>>)
  {
    function Resting(): seq<Order> {
      Flat(bids) + Flat(asks)
    }

    predicate Live(id: nat) {
      Find(Resting(), id).Some?
    }

    /** What the outside can see of the book: who rests, in which order. */
    function Quotes(): PriceTime.Quotes {
      PriceTime.Quotes(Flat(bids), Flat(asks))
    }
  }

  datatype Outcome = Settled(book: Book, trades: seq<Trade>) | Spins

  /** What an outcome becomes behind `trades` already made. */
  function Following(trades: seq<Trade>, rest: Outcome): Outcome {
    match rest
    case Spins => Spins
    case Settled(b, ts) => Settled(b, trades + ts)
  }

  lemma {:induction false} FollowingAssociates(ts: seq<Trade>, us: seq<Trade>, r: Outcome)
    ensures Following(ts, Following(us, r)) == Following(ts + us, r)
  {
    if r.Settled? {
      ConcatAssociates(ts, us, r.trades);
    }
  }

  lemma {:induction false} FollowingNothing(r: Outcome)
    ensures Following([], r) == r
  {
    if r.Settled? {
      assert [] + r.trades == r.trades;
    }
  }

  // ----- The loops of MatchOrders -----

  /** The outer loop ends: a side has no levels, or the best levels do not cross. */
  predicate Exits(b: Book) {
    b.bids == [] || b.asks == [] || b.bids[0].price < b.asks[0].price
  }

  /** Neither loop changes anything: a best level is empty, so the inner loop is skipped, or a
      front order has nothing left, so the inner loop trades nothing and removes nothing. */
  predicate Idles(b: Book)
    requires !Exits(b)
  {
    b.bids[0].queue == [] || b.asks[0].queue == [] ||
    b.bids[0].queue[0].remaining == 0 || b.asks[0].queue[0].remaining == 0
  }

  function PopIfFilled(queue: seq<Order>, quantity: nat): seq<Order>
    requires queue != []
  {
    var o := queue[0].Fill(quantity);
    if o.remaining == 0 then queue[1..] else [o] + queue[1..]
  }

  /** One pass of the inner loop that trades. The ask level is tested for emptiness only when
      the bid level was not empty. */
  function FillFronts(b: Book): (r: (Book, Trade))
    requires !Exits(b) && !Idles(b)
    ensures Open(r.0) < Open(b)
  {
    var x, y := b.bids[0].queue[0], b.asks[0].queue[0];
    var q := Min(x.remaining, y.remaining);
    var trade := Trade(TradeInfo(x.id, q, x.price), TradeInfo(y.id, q, y.price));
    var bids := PopIfFilled(b.bids[0].queue, q);
    var asks := PopIfFilled(b.asks[0].queue, q);
    FillFrontsShrinks(b);
    if bids == [] then
      (Book(b.bids[1..], [Level(b.asks[0].price, asks)] + b.asks[1..]), trade)
    else if asks == [] then
      (Book([Level(b.bids[0].price, bids)] + b.bids[1..], b.asks[1..]), trade)
    else
      (Book([Level(b.bids[0].price, bids)] + b.bids[1..], [Level(b.asks[0].price, asks)] + b.asks[1..]), trade)
  }

  /** Total quantity resting: the measure the trading passes use up. */
  function Open(b: Book): nat {
    Volume(Flat(b.bids)) + Volume(Flat(b.asks))
  }

  lemma PopVolume(level: Level<Order>, rest: seq<Level<Order>>, quantity: nat)
    requires level.queue != [] && quantity <= level.queue[0].remaining
    ensures var q := PopIfFilled(level.queue, quantity);
      && Volume(Flat([Level(level.price, q)] + rest)) + quantity == Volume(Flat([level] + rest))
      && (q == [] ==> Volume(Flat(rest)) + quantity == Volume(Flat([level] + rest)))
  {
    var q := PopIfFilled(level.queue, quantity);
    VolumeConcat(q, Flat(rest));
    VolumeConcat(level.queue, Flat(rest));
    assert ([Level(level.price, q)] + rest)[1..] == rest;
    assert ([level] + rest)[1..] == rest;
    assert level.queue == [level.queue[0]] + level.queue[1..];
    if q != [] && q != level.queue[1..] {
      assert q[1..] == level.queue[1..];
    }
  }

  lemma FillFrontsShrinks(b: Book)
    requires !Exits(b) && !Idles(b)
    ensures var x, y := b.bids[0].queue[0], b.asks[0].queue[0];
      var q := Min(x.remaining, y.remaining);
      var bids, asks := PopIfFilled(b.bids[0].queue, q), PopIfFilled(b.asks[0].queue, q);
      && q > 0
      && Volume(Flat([Level(b.bids[0].price, bids)] + b.bids[1..])) + q == Volume(Flat(b.bids))
      && (bids == [] ==> Volume(Flat(b.bids[1..])) + q == Volume(Flat(b.bids)))
      && Volume(Flat([Level(b.asks[0].price, asks)] + b.asks[1..])) + q == Volume(Flat(b.asks))
      && (asks == [] ==> Volume(Flat(b.asks[1..])) + q == Volume(Flat(b.asks)))
  {
    var q := Min(b.bids[0].queue[0].remaining, b.asks[0].queue[0].remaining);
    PopVolume(b.bids[0], b.bids[1..], q);
    PopVolume(b.asks[0], b.asks[1..], q);
    assert [b.bids[0]] + b.bids[1..] == b.bids;
    assert [b.asks[0]] + b.asks[1..] == b.asks;
  }

  /** The loops run to their end, or to a state they cannot leave. */
  function Settle(b: Book): Outcome
    decreases Open(b)
  {
    if Exits(b) then Settled(b, [])
    else if Idles(b) then Spins
    else
      var (next, trade) := FillFronts(b);
      Following([trade], Settle(next))
  }

  /** One turn of the loops as written, in any state. */
  function Turn(b: Book): Book {
    if Exits(b) || Idles(b) then b else FillFronts(b).0
  }

  function Turns(b: Book, n: nat): Book
    decreases n
  {
    if n == 0 then b else Turns(Turn(b), n - 1)
  }

  /** Some number of turns brings the loops to their exit. */
  ghost predicate Leaves(b: Book) {
    exists n: nat :: Exits(Turns(b, n))
  }

  /** `Spins` is non-termination, and a settled book is where the turns arrive. */
  lemma {:induction false} SpinsMeansForever(b: Book)
    ensures Settle(b).Spins? <==> !Leaves(b)
    ensures Settle(b).Settled? ==> exists n: nat :: Exits(Turns(b, n)) && Settle(b).book == Turns(b, n)
    decreases Open(b)
  {
    if Exits(b) {
      assert Exits(Turns(b, 0));
    } else if Idles(b) {
      forall n: nat ensures !Exits(Turns(b, n)) {
        IdleTurns(b, n);
      }
    } else {
      var next := FillFronts(b).0;
      SpinsMeansForever(next);
      LeavesLater(b);
      if Settle(b).Settled? {
        var n: nat :| Exits(Turns(next, n)) && Settle(next).book == Turns(next, n);
        var m: nat := n + 1;
        assert Exits(Turns(b, m)) && Settle(b).book == Turns(b, m);
      }
    }
  }

  lemma {:induction false} LeavesLater(b: Book)
    requires !Exits(b) && !Idles(b)
    ensures Leaves(b) <==> Leaves(FillFronts(b).0)
  {
    var next := FillFronts(b).0;
    assert Turn(b) == next;
    if n: nat :| Exits(Turns(b, n)) {
      assert n > 0;
      assert Exits(Turns(next, n - 1));
    }
    if n: nat :| Exits(Turns(next, n)) {
      var m: nat := n + 1;
      assert Exits(Turns(b, m));
    }
  }

  lemma {:induction false} IdleTurns(b: Book, n: nat)
    requires !Exits(b) && Idles(b)
    ensures Turns(b, n) == b
    decreases n
  {
    if n > 0 {
      IdleTurns(b, n - 1);
    }
  }

  // ----- The public operations -----

  /** Remove the order the index finds under `id`, and its level if that empties it. */
  function Cancel(b: Book, id: nat): Book {
    match Find(b.Resting(), id)
    case None => b
    case Some(o) =>
      if o.side.Buy? then Book(Withdraw(b.bids, o.price, o), b.asks)
      else Book(b.bids, Withdraw(b.asks, o.price, o))
  }

  /** Kill a fill-and-kill order, but only at the front of the best level. */
  function KillFront(b: Book, levels: seq<Level<Order>>): Book {
    if levels != [] && levels[0].queue != [] && levels[0].queue[0].kind.FillAndKill?
    then Cancel(b, levels[0].queue[0].id)
    else b
  }

  function KillFronts(b: Book): Book {
    var c := KillFront(b, b.bids);
    KillFront(c, c.asks)
  }

  function MatchOrders(b: Book): Outcome {
    match Settle(b)
    case Spins => Spins
    case Settled(c, ts) => Settled(KillFronts(c), ts)
  }

  /** Whether the best opposite level, even an empty one, crosses `price`. */
  predicate CanMatch(b: Book, side: Side, price: int) {
    if side.Buy? then b.asks != [] && b.asks[0].price <= price
    else b.bids != [] && price <= b.bids[0].price
  }

  function Place(b: Book, o: Order): Book {
    if o.side.Buy? then Book(Enqueue(Buy, b.bids, o.price, o), b.asks)
    else Book(b.bids, Enqueue(Sell, b.asks, o.price, o))
  }

  function Add(b: Book, o: Order): Outcome {
    if b.Live(o.id) || (o.kind.FillAndKill? && !CanMatch(b, o.side, o.price)) then Settled(b, [])
    else MatchOrders(Place(b, o))
  }

  function Modify(b: Book, o: Order): Outcome {
    if b.Live(o.id) then Add(Cancel(b, o.id), o) else Settled(b, [])
  }

  // ----- The invariant of every state between public calls -----

  ghost predicate Peopled(ls: seq<Level<Order>>) {
    forall i :: 0 <= i < |ls| ==> ls[i].queue != []
  }

  /** An order resting between calls is good till cancelled and no larger than it was. */
  ghost predicate Rests(o: Order) {
    o.kind.GoodTillCancel? && o.remaining <= o.initial
  }

  /** Each ladder is sorted and holds its own side's orders at their own prices; only ask levels
      may be empty. */
  ghost predicate WellShaped(b: Book) {
    && Sorted(Buy, b.bids) && Sorted(Sell, b.asks)
    && Proper(Buy, b.bids) && Proper(Sell, b.asks)
    && Peopled(b.bids)
  }

  ghost predicate Coherent(b: Book) {
    WellShaped(b) && DistinctIds(b.Resting())
  }

  /** What holds of the book between public calls: besides being coherent it is uncrossed, and
      nothing that was to be killed is resting. */
  ghost predicate Invariant(b: Book) {
    && Coherent(b)
    && Exits(b)
    && (forall o :: o in b.Resting() ==> Rests(o))
  }

  function EmptyBook(): Book {
    Book([], [])
  }

  lemma {:induction false} EmptyBookIsSafe()
    ensures EmptyBook().Resting() == [] && Invariant(EmptyBook())
  {
    var b := EmptyBook();
    assert Flat(b.bids) == [] && Flat(b.asks) == [] && b.Resting() == [];
    assert WellShaped(b);
  }
}
