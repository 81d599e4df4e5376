/** Orders and trades as values. */
module Orders {

  datatype Side = Buy | Sell

  datatype OrderType = GoodTillCancel | FillAndKill

  /** What an order object holds at one moment. Ids and quantities are unsigned in the
      original and only ever compared, subtracted from above or added under an explicit
      modulus, so `nat` loses nothing. */
  datatype Order = Order(kind: OrderType, id: nat, side: Side, price: int, initial: nat, remaining: nat)
  {
    /** A fill larger than what is left is ignored. */
    function Fill(quantity: nat): Order {
      if quantity > remaining then this else this.(remaining := remaining - quantity)
    }

    function FilledQuantity(): int {
      initial - remaining
    }
  }

  datatype TradeInfo = TradeInfo(id: nat, quantity: nat, price: int)

  datatype Trade = Trade(bid: TradeInfo, ask: TradeInfo)

  datatype Option<+T> = None | Some(value: T)

  function Min(a: nat, b: nat): nat {
    if a < b then a else b
  }

  /** `p` is served strictly before `q`: the highest bid, the lowest ask. */
  predicate Better(side: Side, p: int, q: int) {
    if side.Buy? then p > q else p < q
  }

  /** An order of `side` limited to `price` may trade against an opposite quote at `quote`. */
  predicate Crosses(side: Side, price: int, quote: int) {
    if side.Buy? then quote <= price else price <= quote
  }

  /** The trade of `quantity` between `taker` and `maker`, each at its own limit. */
  function TradeOf(taker: Order, maker: Order, quantity: nat): Trade {
    var t := TradeInfo(taker.id, quantity, taker.price);
    var m := TradeInfo(maker.id, quantity, maker.price);
    if taker.side.Buy? then Trade(t, m) else Trade(m, t)
  }

  /** Quantity still open in a run of orders. */
  function Volume(f: seq<Order>): nat {
    if f == [] then 0 else f[0].remaining + Volume(f[1..])
  }

  /** No two orders share an id. */
  ghost predicate DistinctIds(f: seq<Order>) {
    forall i, j :: 0 <= i < j < |f| ==> f[i].id != f[j].id
  }

  function Find(f: seq<Order>, id: nat): (r: Option<Order>)
    ensures r.Some? ==> r.value in f && r.value.id == id
    ensures r.None? ==> forall o :: o in f ==> o.id != id
  {
    if f == [] then None
    else if f[0].id == id then Some(f[0])
    else Find(f[1..], id)
  }

  lemma {:induction false} VolumePrefix(f: seq<Order>, k: nat)
    requires 0 < k <= |f|
    ensures Volume(f[..k]) == f[0].remaining + Volume(f[1..][..k - 1])
  {
    assert f[..k][1..] == f[1..][..k - 1];
  }

  lemma {:induction false} VolumeConcat(a: seq<Order>, b: seq<Order>)
    ensures Volume(a + b) == Volume(a) + Volume(b)
  {
    if a == [] {
      assert a + b == b;
    } else {
      VolumeConcat(a[1..], b);
      assert (a + b)[1..] == a[1..] + b;
    }
  }
}
