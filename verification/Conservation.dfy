/** Quantity over whole runs: what was submitted under an id is what rests, what traded and what
    was withdrawn; every trade is fair; and no call makes more trades than there are orders. */
module Conservation {
  import opened Orders
  import opened PriceLadder
  import opened Matching
  import opened Refinement
  import opened AddOrder
  import opened CancelModify
  import opened Runs
  import PriceTime

  /** Quantity traded under `id`, on whichever side. */
  function VolumeFor(ts: seq<Trade>, id: nat): nat {
    if ts == [] then 0
    else
      (if ts[0].bid.id == id then ts[0].bid.quantity else 0) +
      (if ts[0].ask.id == id then ts[0].ask.quantity else 0) + VolumeFor(ts[1..], id)
  }

  /** Quantity resting under `id`. */
  function Left(f: seq<Order>, id: nat): nat {
    match Find(f, id)
    case None => 0
    case Some(o) => o.remaining
  }

  function LeftIn(v: PriceTime.Quotes, id: nat): nat {
    Left(v.bids, id) + Left(v.asks, id)
  }

  /** Both sides trade the same positive quantity, and the bid's limit is not below the ask's. */
  ghost predicate Fair(t: Trade) {
    t.bid.quantity == t.ask.quantity > 0 && t.bid.price >= t.ask.price
  }

  lemma {:induction false} VolumeForConcat(a: seq<Trade>, b: seq<Trade>, id: nat)
    ensures VolumeFor(a + b, id) == VolumeFor(a, id) + VolumeFor(b, id)
  {
    if a == [] {
      assert a + b == b;
    } else {
      VolumeForConcat(a[1..], b, id);
      assert (a + b)[1..] == a[1..] + b;
    }
  }

  /** A sweep neither creates nor destroys quantity, order by order, and the taker can never be
      filled beyond what it had. */
  lemma {:induction false} SweepConserves(taker: Order, f: seq<Order>, id: nat)
    requires DistinctIds(f) && forall x :: x in f ==> x.id != taker.id
    ensures var s := PriceTime.Sweep(taker, f);
      && (id != taker.id ==> Left(s.rest, id) + VolumeFor(s.trades, id) == Left(f, id))
      && s.taker.remaining + VolumeFor(s.trades, taker.id) == taker.remaining
    decreases |f|
  {
    var s := PriceTime.Sweep(taker, f);
    if s.trades != [] {
      var q := Min(taker.remaining, f[0].remaining);
      assert f[0] in f;
      if q < f[0].remaining {
        assert s.trades[1..] == [];
        assert s.rest[1..] == f[1..];
      } else {
        var t := taker.Fill(q);
        forall x | x in f[1..] ensures x.id != t.id {
          assert x in f;
        }
        SweepConserves(t, f[1..], id);
        assert s.trades[1..] == PriceTime.Sweep(t, f[1..]).trades;
        if id == f[0].id {
          Absent(f[1..], id);
        }
      }
    }
  }

  lemma {:induction false} Absent(f: seq<Order>, id: nat)
    requires forall x :: x in f ==> x.id != id
    ensures Find(f, id).None? && Left(f, id) == 0
  {
  }

  lemma {:induction false} InsertLeft(side: Side, f: seq<Order>, o: Order, id: nat)
    requires forall x :: x in f ==> x.id != o.id
    ensures Left(PriceTime.Insert(side, f, o), id) == if id == o.id then o.remaining else Left(f, id)
  {
    if f == [] || Better(side, o.price, f[0].price) {
      assert ([o] + f)[1..] == f;
    } else {
      assert f[0] in f;
      forall x | x in f[1..] ensures x.id != o.id {
        assert x in f;
      }
      InsertLeft(side, f[1..], o, id);
    }
  }

  lemma {:induction false} DropLeft(f: seq<Order>, dropped: nat, id: nat)
    requires DistinctIds(f)
    ensures Left(PriceTime.Drop(f, dropped), id) == if id == dropped then 0 else Left(f, id)
  {
    PriceTime.DropMembers(f, dropped);
    var d := PriceTime.Drop(f, dropped);
    if id == dropped {
      Absent(d, id);
    } else {
      FoundAlike(f, d, id);
    }
  }

  lemma {:induction false} FoundAlike(f: seq<Order>, d: seq<Order>, id: nat)
    requires DistinctIds(f) && DistinctIds(d)
    requires forall x :: x in d && x.id == id <==> x in f && x.id == id
    ensures Find(f, id) == Find(d, id)
  {
    match Find(f, id)
    case None =>
    case Some(o) =>
      assert o in d;
  }

  // ----- One call -----

  predicate Accepted(v: PriceTime.Quotes, o: Order) {
    !v.Live(o.id) && (o.kind.GoodTillCancel? || PriceTime.CrossesFront(o, v.Opposite(o.side)))
  }

  /** Quantity that enters the book's care under `id` with this call. */
  function Submitted(v: PriceTime.Quotes, c: Call, id: nat): nat {
    match c
    case AddCall(o) => if o.id == id && Accepted(v, o) then o.remaining else 0
    case CancelCall(_) => 0
    case ModifyCall(o) => if o.id == id && v.Live(id) && Accepted(PriceTime.Cancel(v, id), o) then o.remaining else 0
  }

  /** Quantity under `id` that this call takes back untraded: the order a cancel or modify
      removes, or the part of a fill-and-kill order that found no match. */
  function Withdrawn(v: PriceTime.Quotes, c: Call, id: nat): nat {
    match c
    case AddCall(o) => if o.id == id && Accepted(v, o) then Killed(v, o) else 0
    case CancelCall(x) => if x == id then LeftIn(v, id) else 0
    case ModifyCall(o) =>
      if o.id == id && v.Live(id) then
        var w := PriceTime.Cancel(v, id);
        LeftIn(v, id) + (if Accepted(w, o) then Killed(w, o) else 0)
      else 0
  }

  /** What a fill-and-kill order may not take is the excess over the crossing volume. */
  function Killed(v: PriceTime.Quotes, o: Order): nat {
    var available := PriceTime.CrossingVolume(o, v.Opposite(o.side));
    if o.kind.FillAndKill? && available < o.remaining then o.remaining - available else 0
  }

  /** What the reference keeps of every book the calls can produce. */
  ghost predicate Orderly(v: PriceTime.Quotes) {
    PriceTime.Ranked(Buy, v.bids) && PriceTime.Ranked(Sell, v.asks) && DistinctIds(v.bids + v.asks)
  }

  lemma {:induction false} InvariantIsOrderly(b: Book)
    requires Invariant(b)
    ensures Orderly(b.Quotes())
  {
    FlatRanked(Buy, b.bids);
    FlatRanked(Sell, b.asks);
  }

  lemma {:induction false} Strangers(v: PriceTime.Quotes, o: Order)
    requires Orderly(v) && !v.Live(o.id)
    ensures (forall x :: x in v.bids ==> x.id != o.id) && (forall x :: x in v.asks ==> x.id != o.id)
    ensures DistinctIds(v.bids) && DistinctIds(v.asks) && LeftIn(v, o.id) == 0
  {
    DistinctConcat(v.bids, v.asks);
  }

  lemma {:induction false} AddConserves(v: PriceTime.Quotes, o: Order, id: nat)
    requires Orderly(v) && Accepted(v, o)
    ensures var (w, ts) := PriceTime.Add(v, o);
      LeftIn(w, id) + VolumeFor(ts, id) + (if id == o.id then Killed(v, o) else 0) ==
      LeftIn(v, id) + (if id == o.id then o.remaining else 0)
  {
    AddSides(v, o);
    if id == o.id {
      TakerConserves(v, o);
    } else {
      Strangers(v, o);
      var own, opp := v.Own(o.side), v.Opposite(o.side);
      SweepConserves(o, opp, id);
      SweepLeavesTail(o, opp);
      InsertLeft(o.side, own, PriceTime.Sweep(o, opp).taker, id);
    }
  }

  lemma {:induction false} AddSides(v: PriceTime.Quotes, o: Order)
    requires Accepted(v, o)
    ensures var (w, ts) := PriceTime.Add(v, o);
      var s := PriceTime.Sweep(o, v.Opposite(o.side));
      && ts == s.trades && w.Opposite(o.side) == s.rest
      && w.Own(o.side) == (if (s.trades != [] && s.taker.remaining == 0) || o.kind.FillAndKill? then v.Own(o.side)
                           else PriceTime.Insert(o.side, v.Own(o.side), s.taker))
      && forall id :: LeftIn(w, id) == Left(w.Own(o.side), id) + Left(w.Opposite(o.side), id)
  {
  }

  lemma {:induction false} TakerConserves(v: PriceTime.Quotes, o: Order)
    requires Orderly(v) && Accepted(v, o)
    ensures var (w, ts) := PriceTime.Add(v, o);
      LeftIn(w, o.id) + VolumeFor(ts, o.id) + Killed(v, o) == o.remaining
  {
    Strangers(v, o);
    AddSides(v, o);
    var own, opp := v.Own(o.side), v.Opposite(o.side);
    var s := PriceTime.Sweep(o, opp);
    SweepConserves(o, opp, o.id);
    SweepLeavesTail(o, opp);
    assert s.taker.remaining == o.remaining - Min(o.remaining, PriceTime.CrossingVolume(o, opp)) by {
      PriceTime.SweepIsWaterfall(o, opp);
    }
    InsertLeft(o.side, own, s.taker, o.id);
    Absent(own, o.id);
    RestStrangers(s.rest, opp, o.id);
    Absent(s.rest, o.id);
  }

  /** One call, one id: what rests afterwards, what traded and what was withdrawn is what rested
      before plus what was submitted. */
  lemma {:induction false} CallConserves(v: PriceTime.Quotes, c: Call, id: nat)
    requires Orderly(v)
    requires c.ModifyCall? ==>
      Orderly(PriceTime.Cancel(v, c.order.id)) && !PriceTime.Cancel(v, c.order.id).Live(c.order.id)
    ensures var (w, ts) := StepReference(v, c);
      LeftIn(w, id) + VolumeFor(ts, id) + Withdrawn(v, c, id) == LeftIn(v, id) + Submitted(v, c, id)
  {
    DistinctConcat(v.bids, v.asks);
    match c
    case AddCall(o) =>
      if Accepted(v, o) {
        AddConserves(v, o, id);
      }
    case CancelCall(x) =>
      DropLeft(v.bids, x, id);
      DropLeft(v.asks, x, id);
    case ModifyCall(o) =>
      if v.Live(o.id) {
        DropLeft(v.bids, o.id, id);
        DropLeft(v.asks, o.id, id);
        var w := PriceTime.Cancel(v, o.id);
        if Accepted(w, o) {
          AddConserves(w, o, id);
        }
      }
  }

  // ----- Whole runs -----

  function TotalSubmitted(v: PriceTime.Quotes, calls: seq<Call>, id: nat): nat
    decreases |calls|
  {
    if calls == [] then 0
    else Submitted(v, calls[0], id) + TotalSubmitted(StepReference(v, calls[0]).0, calls[1..], id)
  }

  function TotalWithdrawn(v: PriceTime.Quotes, calls: seq<Call>, id: nat): nat
    decreases |calls|
  {
    if calls == [] then 0
    else Withdrawn(v, calls[0], id) + TotalWithdrawn(StepReference(v, calls[0]).0, calls[1..], id)
  }

  /** Over any run that returns, under every id, also one that is used again and again. */
  lemma {:induction false} RunConserves(b: Book, calls: seq<Call>, id: nat)
    requires Invariant(b) && forall i :: 0 <= i < |calls| ==> Sound(calls[i])
    requires Execute(b, calls).Settled?
    ensures var r := Execute(b, calls);
      LeftIn(r.book.Quotes(), id) + VolumeFor(r.trades, id) + TotalWithdrawn(b.Quotes(), calls, id) ==
      LeftIn(b.Quotes(), id) + TotalSubmitted(b.Quotes(), calls, id)
    decreases |calls|
  {
    if calls != [] {
      var c := calls[0];
      StepIsReference(b, c);
      var s := Step(b, c);
      InvariantIsOrderly(b);
      if c.ModifyCall? {
        CancelIsRemoval(b, c.order.id);
        InvariantIsOrderly(Cancel(b, c.order.id));
        LiveAlike(Cancel(b, c.order.id), c.order.id);
      }
      CallConserves(b.Quotes(), c, id);
      RunConserves(s.book, calls[1..], id);
      VolumeForConcat(s.trades, Execute(s.book, calls[1..]).trades, id);
    }
  }

  // ----- Trades -----

  lemma {:induction false} FillIsFair(b: Book)
    requires Proper(Buy, b.bids) && Proper(Sell, b.asks) && !Exits(b) && !Idles(b)
    ensures var (next, trade) := FillFronts(b); Fair(trade) && Proper(Buy, next.bids) && Proper(Sell, next.asks)
  {
    var x, y := b.bids[0].queue[0], b.asks[0].queue[0];
    assert x.price == b.bids[0].price && y.price == b.asks[0].price;
    var q := Min(x.remaining, y.remaining);
    FillFrontsForm(b);
    ReducedProper(Buy, b.bids, q);
    ReducedProper(Sell, b.asks, q);
  }

  lemma {:induction false} SettleIsFair(b: Book)
    requires Proper(Buy, b.bids) && Proper(Sell, b.asks) && Settle(b).Settled?
    ensures forall t :: t in Settle(b).trades ==> Fair(t)
    decreases Open(b)
  {
    if !Exits(b) {
      FillIsFair(b);
      SettleIsFair(FillFronts(b).0);
    }
  }

  lemma {:induction false} CallIsFair(b: Book, c: Call)
    requires Invariant(b) && Sound(c) && Step(b, c).Settled?
    ensures forall t :: t in Step(b, c).trades ==> Fair(t)
    ensures |Step(b, c).trades| <= |b.Resting()|
  {
    match c
    case AddCall(o) => AddIsFair(b, o);
    case CancelCall(_) =>
    case ModifyCall(o) =>
      CancelIsRemoval(b, o.id);
      if b.Live(o.id) {
        AddIsFair(Cancel(b, o.id), o);
        CancelShrinks(b, o.id);
      }
  }

  lemma {:induction false} CancelShrinks(b: Book, id: nat)
    requires Invariant(b)
    ensures |Cancel(b, id).Resting()| <= |b.Resting()|
  {
    CancelIsRemoval(b, id);
    var i := PriceTime.DropRemovesOne(Flat(b.bids), id);
    var j := PriceTime.DropRemovesOne(Flat(b.asks), id);
  }

  /** The trades of one submission number no more than the orders that were resting before it:
      one less than the index holds when the trade list is reserved. */
  lemma {:induction false} AddIsFair(b: Book, o: Order)
    requires Invariant(b) && o.remaining <= o.initial && Add(b, o).Settled?
    ensures forall t :: t in Add(b, o).trades ==> Fair(t)
    ensures |Add(b, o).trades| <= |b.Resting()|
  {
    AddIsPriceTime(b, o);
    SweepLeavesTail(o, b.Quotes().Opposite(o.side));
    if Add(b, o).trades != [] {
      PlaceKeepsShape(b, o);
      SettleIsFair(Place(b, o));
    }
  }

  lemma {:induction false} RunIsFair(b: Book, calls: seq<Call>)
    requires Invariant(b) && forall i :: 0 <= i < |calls| ==> Sound(calls[i])
    requires Execute(b, calls).Settled?
    ensures forall t :: t in Execute(b, calls).trades ==> Fair(t)
    decreases |calls|
  {
    if calls != [] {
      StepIsReference(b, calls[0]);
      CallIsFair(b, calls[0]);
      RunIsFair(Step(b, calls[0]).book, calls[1..]);
    }
  }

  // ----- What an order object reports as filled -----

  predicate Names(c: Call, id: nat) {
    match c
    case AddCall(o) => o.id == id
    case CancelCall(x) => x == id
    case ModifyCall(o) => o.id == id
  }

  /** Whatever rests under `o.id` is what is left of `o`. */
  ghost predicate LeftoverOf(f: seq<Order>, o: Order) {
    forall x :: x in f && x.id == o.id ==> x == o.(remaining := x.remaining)
  }

  ghost predicate Leftovers(v: PriceTime.Quotes, o: Order) {
    LeftoverOf(v.bids, o) && LeftoverOf(v.asks, o)
  }

  lemma {:induction false} InsertedFrom(side: Side, f: seq<Order>, o: Order)
    ensures forall x :: x in PriceTime.Insert(side, f, o) ==> x in f || x == o
  {
    if f != [] {
      InsertedFrom(side, f[1..], o);
    }
  }

  lemma {:induction false} DroppedFrom(f: seq<Order>, id: nat)
    ensures forall x :: x in PriceTime.Drop(f, id) ==> x in f
  {
    if f != [] {
      DroppedFrom(f[1..], id);
    }
  }

  lemma {:induction false} TailLeftover(r: seq<Order>, f: seq<Order>, o: Order)
    requires TailOf(r, f) && LeftoverOf(f, o)
    ensures LeftoverOf(r, o)
  {
    forall x | x in r && x.id == o.id ensures x == o.(remaining := x.remaining) {
      var i :| 0 <= i < |r| && r[i] == x;
      assert f[|f| - |r| + i] in f;
    }
  }

  lemma {:induction false} AddLeavesLeftovers(v: PriceTime.Quotes, p: Order, o: Order)
    requires Leftovers(v, o) && (p.id == o.id ==> p == o)
    ensures Leftovers(PriceTime.Add(v, p).0, o)
  {
    var opp := v.Opposite(p.side);
    var s := PriceTime.Sweep(p, opp);
    SweepLeavesTail(p, opp);
    TailLeftover(s.rest, opp, o);
    InsertedFrom(p.side, v.Own(p.side), s.taker);
  }

  lemma {:induction false} CancelLeavesLeftovers(v: PriceTime.Quotes, id: nat, o: Order)
    requires Leftovers(v, o)
    ensures Leftovers(PriceTime.Cancel(v, id), o)
  {
    DroppedFrom(v.bids, id);
    DroppedFrom(v.asks, id);
  }

  lemma {:induction false} CallLeavesLeftovers(v: PriceTime.Quotes, c: Call, o: Order)
    requires Leftovers(v, o) && !Names(c, o.id)
    ensures Leftovers(StepReference(v, c).0, o)
  {
    match c
    case AddCall(p) => AddLeavesLeftovers(v, p, o);
    case CancelCall(id) => CancelLeavesLeftovers(v, id, o);
    case ModifyCall(p) =>
      CancelLeavesLeftovers(v, p.id, o);
      AddLeavesLeftovers(PriceTime.Cancel(v, p.id), p, o);
  }

  lemma {:induction false} RunLeavesLeftovers(v: PriceTime.Quotes, calls: seq<Call>, o: Order)
    requires Leftovers(v, o) && forall i :: 0 <= i < |calls| ==> !Names(calls[i], o.id)
    ensures Leftovers(ExecuteReference(v, calls).0, o)
    ensures TotalSubmitted(v, calls, o.id) == 0 && TotalWithdrawn(v, calls, o.id) == 0
    decreases |calls|
  {
    if calls != [] {
      CallLeavesLeftovers(v, calls[0], o);
      RunLeavesLeftovers(StepReference(v, calls[0]).0, calls[1..], o);
    }
  }

  lemma {:induction false} LeftOf(v: PriceTime.Quotes, x: Order)
    requires Orderly(v) && (x in v.bids || x in v.asks)
    ensures LeftIn(v, x.id) == x.remaining
  {
    DistinctConcat(v.bids, v.asks);
    FindConcat(v.bids, v.asks, x.id);
  }

  /** A new order is added under a fresh id and later calls do not name it. As long as it rests, it
      still knows the quantity it was made with, and what it reports as filled is exactly what has
      traded under its id. */
  lemma {:induction false} FilledIsTraded(b: Book, o: Order, calls: seq<Call>, x: Order)
    requires Invariant(b) && !b.Live(o.id) && o.remaining == o.initial
    requires forall i :: 0 <= i < |calls| ==> Sound(calls[i]) && !Names(calls[i], o.id)
    requires Execute(b, [AddCall(o)] + calls).Settled?
    requires x in Execute(b, [AddCall(o)] + calls).book.Resting() && x.id == o.id
    ensures x.initial == o.initial
    ensures x.FilledQuantity() == VolumeFor(Execute(b, [AddCall(o)] + calls).trades, o.id)
  {
    var run := [AddCall(o)] + calls;
    var v, r := b.Quotes(), Execute(b, run);
    assert run[0] == AddCall(o) && run[1..] == calls;
    RunIsReference(b, run);
    RunConserves(b, run, o.id);
    InvariantIsOrderly(b);
    InvariantIsOrderly(r.book);
    LiveAlike(b, o.id);
    Strangers(v, o);
    AddLeavesLeftovers(v, o, o);
    RunLeavesLeftovers(PriceTime.Add(v, o).0, calls, o);
    LeftOf(r.book.Quotes(), x);
    assert x.kind.GoodTillCancel? && Accepted(v, o);
  }
}
