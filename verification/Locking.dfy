/** The book's mutex is not recursive, yet `CanMatch`, `CancelOrder` and `AddOrder` take it while
    their callers hold it. This counts how often a public call does so. Elsewhere a public call is
    one step, as if the mutex could be taken again. */
module Locking {
  import opened Orders
  import opened PriceLadder
  import opened Matching
  import opened AddOrder
  import opened Refinement
  import opened Runs
  import Pointers

  /** `cancel_fak` goes through `CancelOrder` for a fill-and-kill order at the front. */
  function KillLocks(levels: seq<Level<Order>>): nat {
    if levels != [] && levels[0].queue != [] && levels[0].queue[0].kind.FillAndKill? then 1 else 0
  }

  function MatchLocks(b: Book): nat {
    match Settle(b)
    case Spins => 0
    case Settled(c, _) => KillLocks(c.bids) + KillLocks(KillFront(c, c.bids).asks)
  }

  /** `CanMatch` is asked about every fill-and-kill order with a fresh id. */
  function AddLocks(b: Book, o: Order): nat {
    if b.Live(o.id) then 0
    else if o.kind.FillAndKill? then 1 + (if CanMatch(b, o.side, o.price) then MatchLocks(Place(b, o)) else 0)
    else MatchLocks(Place(b, o))
  }

  /** How often a call takes the mutex while it already holds it. */
  function Relocks(b: Book, c: Call): nat {
    match c
    case AddCall(o) => AddLocks(b, o)
    case CancelCall(_) => 0
    case ModifyCall(o) => if b.Live(o.id) then 2 + AddLocks(Cancel(b, o.id), o) else 0
  }

  ghost predicate Lasting(b: Book) {
    forall o :: o in Flat(b.bids) || o in Flat(b.asks) ==> o.kind.GoodTillCancel?
  }

  lemma {:induction false} SettleKeepsLasting(b: Book)
    requires Lasting(b) && Settle(b).Settled?
    ensures Lasting(Settle(b).book)
    decreases Open(b)
  {
    if !Exits(b) {
      var c := FillFronts(b).0;
      Pointers.FillFrontsFlat(b);
      assert Flat(b.bids)[0] in Flat(b.bids) && Flat(b.asks)[0] in Flat(b.asks);
      SettleKeepsLasting(c);
    }
  }

  lemma {:induction false} NoKillLock(b: Book)
    requires Lasting(b)
    ensures KillLocks(b.bids) == 0 && KillLocks(KillFront(b, b.bids).asks) == 0
  {
    if b.bids != [] && b.bids[0].queue != [] {
      FlatHead(b.bids);
      assert b.bids[0].queue[0] in Flat(b.bids);
    }
    if b.asks != [] && b.asks[0].queue != [] {
      FlatHead(b.asks);
      assert b.asks[0].queue[0] in Flat(b.asks);
    }
  }

  lemma {:induction false} PlacedLasts(b: Book, o: Order)
    requires Invariant(b) && !b.Live(o.id) && o.kind.GoodTillCancel?
    ensures Lasting(Place(b, o))
  {
    PlaceMembers(b, o);
    forall x | x in Flat(Place(b, o).bids) || x in Flat(Place(b, o).asks) ensures x.kind.GoodTillCancel? {
      assert x in Place(b, o).Resting();
    }
  }

  /** Between calls nothing that could be killed is resting, so that of all calls exactly these
      take the mutex twice: submitting a fill-and-kill order under a fresh id, and modifying an order
      that is live. */
  lemma {:induction false} RelocksExactly(b: Book, c: Call)
    requires Invariant(b)
    ensures Relocks(b, c) > 0 <==>
      match c
      case AddCall(o) => !b.Live(o.id) && o.kind.FillAndKill?
      case CancelCall(_) => false
      case ModifyCall(o) => b.Live(o.id)
  {
    if c.AddCall? && !b.Live(c.order.id) && c.order.kind.GoodTillCancel? {
      PlacedLasts(b, c.order);
      var r := Settle(Place(b, c.order));
      if r.Settled? {
        SettleKeepsLasting(Place(b, c.order));
        NoKillLock(r.book);
      }
    }
  }
}
