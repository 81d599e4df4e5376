/** The values an order book is made of: orders, list nodes, the ladders of pointers to them and
    the index, and what it means for these to hold a book of values. */
module Pointers {
  import opened Orders
  import opened PriceLadder
  import opened Matching
  import opened Refinement
  import opened AddOrder
  import PriceTime

  class Order_ {
    const kind: OrderType
    const id: nat
    const side: Side
    const price: int
    const initialQuantity: nat
    var remainingQuantity: nat

    constructor (kind: OrderType, id: nat, side: Side, price: int, quantity: nat)
      ensures Value() == Order(kind, id, side, price, quantity, quantity)
    {
      this.kind, this.id, this.side, this.price := kind, id, side, price;
      initialQuantity, remainingQuantity := quantity, quantity;
    }

    ghost function Value(): Order
      reads this
    {
      Order(kind, id, side, price, initialQuantity, remainingQuantity)
    }

    predicate IsFilled()
      reads this
    {
      remainingQuantity == 0
    }

    method Fill(quantity: nat)
      modifies this
      ensures Value() == old(Value()).Fill(quantity)
    {
      if quantity > remainingQuantity {
        return;
      }
      remainingQuantity := remainingQuantity - quantity;
    }
  }

  /** A node of one of the lists; a list iterator is the node it designates. */
  class ListNode {
    const order: Order_

    constructor (order: Order_)
      ensures this.order == order
    {
      this.order := order;
    }
  }

  datatype OrderEntry = OrderEntry(order: Order_, location: ListNode)

  type Ladder = seq<Level<ListNode>>

  /** The ladder of pointers `ls` holds, position by position, the orders of `vs`, when the order
      objects have the contents `values`. */
  ghost predicate Linked(ls: Ladder, vs: seq<Level<Order>>, values: map<Order_, Order>)
  {
    && |ls| == |vs|
    && forall i :: 0 <= i < |ls| ==> LinkedLevel(ls[i], vs[i], values)
  }

  ghost predicate LinkedLevel(l: Level<ListNode>, v: Level<Order>, values: map<Order_, Order>)
  {
    && l.price == v.price && |l.queue| == |v.queue|
    && forall j :: 0 <= j < |l.queue| ==> l.queue[j].order in values && values[l.queue[j].order] == v.queue[j]
  }

  /** Only the remaining quantity of an order object ever changes. */
  ghost predicate Faces(values: map<Order_, Order>) {
    forall x :: x in values ==>
      values[x] == Order(x.kind, x.id, x.side, x.price, x.initialQuantity, values[x].remaining)
  }

  /** The order objects have these contents now. */
  ghost predicate Current(values: map<Order_, Order>)
    reads values.Keys
  {
    forall x :: x in values ==> x.Value() == values[x]
  }

  /** Every node of the ladder is where the index says its order is. */
  ghost predicate Indexed(ls: Ladder, index: map<nat, OrderEntry>) {
    forall i, j :: 0 <= i < |ls| && 0 <= j < |ls[i].queue| ==>
      var node := ls[i].queue[j];
      node.order.id in index && index[node.order.id] == OrderEntry(node.order, node)
  }

  lemma {:induction false} EnqueueLinked(side: Side, ls: Ladder, vs: seq<Level<Order>>, values: map<Order_, Order>,
                                         price: int, node: ListNode)
    requires Linked(ls, vs, values) && node.order in values
    ensures Linked(Enqueue(side, ls, price, node), Enqueue(side, vs, price, values[node.order]), values)
  {
    if ls != [] && !Better(side, price, ls[0].price) && ls[0].price != price {
      EnqueueLinked(side, ls[1..], vs[1..], values, price, node);
    }
  }

  lemma {:induction false} EnqueueIndexed(side: Side, ls: Ladder, index: map<nat, OrderEntry>, price: int,
                                          node: ListNode)
    requires Indexed(ls, index) && node.order.id in index && index[node.order.id] == OrderEntry(node.order, node)
    ensures Indexed(Enqueue(side, ls, price, node), index)
  {
    if ls != [] && !Better(side, price, ls[0].price) && ls[0].price != price {
      EnqueueIndexed(side, ls[1..], index, price, node);
    }
  }

  lemma {:induction false} WithoutLinked(q: seq<ListNode>, v: seq<Order>, values: map<Order_, Order>, node: ListNode,
                                         o: Order)
    requires |q| == |v|
    requires forall j :: 0 <= j < |q| ==>
      (q[j] == node <==> v[j] == o) && q[j].order in values && values[q[j].order] == v[j]
    ensures var q', v' := Without(q, node), Without(v, o);
      |q'| == |v'| && (forall j :: 0 <= j < |q'| ==> q'[j].order in values && values[q'[j].order] == v'[j])
  {
    if q != [] && q[0] != node {
      WithoutLinked(q[1..], v[1..], values, node, o);
    }
  }

  lemma {:induction false} WithdrawLinked(ls: Ladder, vs: seq<Level<Order>>, values: map<Order_, Order>, price: int,
                                          node: ListNode, o: Order)
    requires Linked(ls, vs, values)
    requires forall i, j :: 0 <= i < |ls| && 0 <= j < |ls[i].queue| ==>
        (ls[i].queue[j] == node <==> vs[i].queue[j] == o)
    ensures Linked(Withdraw(ls, price, node), Withdraw(vs, price, o), values)
  {
    if ls != [] {
      assert LinkedLevel(ls[0], vs[0], values);
      if ls[0].price == price {
        WithoutLinked(ls[0].queue, vs[0].queue, values, node, o);
      } else {
        WithdrawLinked(ls[1..], vs[1..], values, price, node, o);
      }
    }
  }

  lemma {:induction false} WithoutNodes(q: seq<ListNode>, node: ListNode)
    ensures forall j :: 0 <= j < |Without(q, node)| ==> Without(q, node)[j] in q
  {
    if q != [] && q[0] != node {
      WithoutNodes(q[1..], node);
    }
  }

  lemma {:induction false} WithdrawIndexed(ls: Ladder, index: map<nat, OrderEntry>, price: int, node: ListNode)
    requires Indexed(ls, index)
    ensures Indexed(Withdraw(ls, price, node), index)
  {
    if ls != [] {
      if ls[0].price == price {
        WithoutNodes(ls[0].queue, node);
      } else {
        WithdrawIndexed(ls[1..], index, price, node);
      }
    }
  }

  /** A ladder that does not hold `order.id` does without that id in the index and without that
      object. */
  lemma {:induction false} Forgotten(ls: Ladder, vs: seq<Level<Order>>, values: map<Order_, Order>,
                                     index: map<nat, OrderEntry>, order: Order_)
    requires Linked(ls, vs, values) && Indexed(ls, index) && Faces(values)
    requires forall x :: x in Flat(vs) ==> x.id != order.id
    ensures Indexed(ls, index - {order.id}) && Linked(ls, vs, values - {order})
  {
    forall i, j | 0 <= i < |ls| && 0 <= j < |ls[i].queue| ensures ls[i].queue[j].order.id != order.id {
      assert LinkedLevel(ls[i], vs[i], values);
      FlatAt(vs, i, j);
      assert vs[i].queue[j] in Flat(vs);
    }
    forall i | 0 <= i < |ls| ensures LinkedLevel(ls[i], vs[i], values - {order}) {
      assert LinkedLevel(ls[i], vs[i], values);
    }
  }

  lemma {:induction false} Split(b: Book)
    ensures forall x :: x in Flat(b.bids) || x in Flat(b.asks) <==> x in b.Resting()
  {
  }

  lemma {:induction false} LiveAfter(b: Book, c: Book, id: nat)
    requires forall x :: x in c.Resting() <==> x in b.Resting() && x.id != id
    ensures forall i :: c.Live(i) <==> b.Live(i) && i != id
  {
  }

  /** The two maps hold `view` when their orders have the contents `values`, and the index is exactly
      the resting orders, each at its node. */
  ghost predicate Holds(bids: Ladder, asks: Ladder, index: map<nat, OrderEntry>, view: Book, values: map<Order_, Order>)
  {
    && Linked(bids, view.bids, values) && Linked(asks, view.asks, values)
    && Indexed(bids, index) && Indexed(asks, index)
    && (forall id :: id in index <==> view.Live(id))
    && Faces(values) && (forall x :: x in values ==> x.id in index && index[x.id].order == x)
    && Coherent(view)
  }

  lemma {:induction false} NothingHolds()
    ensures Holds([], [], map[], EmptyBook(), map[])
  {
    EmptyBookIsSafe();
  }

  lemma {:induction false} Unindexed(index: map<nat, OrderEntry>, view: Book, v: Book, values: map<Order_, Order>,
                                     id: nat)
    requires id in index && index[id].order in values && Faces(values)
    requires forall i :: i in index <==> view.Live(i)
    requires forall i :: v.Live(i) <==> view.Live(i) && i != id
    requires forall x :: x in values ==> x.id in index && index[x.id].order == x
    ensures var index', left := index - {id}, values - {index[id].order};
      && (forall i :: i in index' <==> v.Live(i)) && Faces(left)
      && (forall x :: x in left ==> x.id != id && x.id in index' && index'[x.id].order == x)
  {
  }

  // ----- One trade between the two front orders -----

  /** The ladder after its front node has been popped, if its order was filled. */
  function Trim(ls: Ladder, filled: bool): Ladder
    requires ls != [] && ls[0].queue != []
  {
    [Level(ls[0].price, if filled then ls[0].queue[1..] else ls[0].queue)] + ls[1..]
  }

  /** The index entry of `id` and the contents of its object are the same in both worlds. */
  ghost predicate Kept(id: nat, index: map<nat, OrderEntry>, index': map<nat, OrderEntry>, values: map<Order_, Order>,
                       values': map<Order_, Order>) {
    && id in index && id in index' && index'[id] == index[id]
    && index[id].order in values && index[id].order in values' && values'[index[id].order] == values[index[id].order]
  }

  /** A node holds `o` now, and the index points back at it. */
  ghost predicate Stands(node: ListNode, o: Order, index: map<nat, OrderEntry>, values: map<Order_, Order>) {
    && node.order in values && values[node.order] == o
    && node.order.id in index && index[node.order.id] == OrderEntry(node.order, node)
  }

  /** Everything but the front node of a ladder stands as it did. */
  lemma {:induction false} OthersStand(ls: Ladder, vs: seq<Level<Order>>, index: map<nat, OrderEntry>,
                                       index': map<nat, OrderEntry>, values: map<Order_, Order>,
                                       values': map<Order_, Order>, i: nat, j: nat)
    requires Linked(ls, vs, values) && Indexed(ls, index) && Faces(values) && DistinctIds(Flat(vs))
    requires i < |ls| && j < |ls[i].queue| && ls[0].queue != [] && !(i == 0 && j == 0)
    requires forall z :: z in Flat(vs) && z.id != vs[0].queue[0].id ==> Kept(z.id, index, index', values, values')
    ensures j < |vs[i].queue| && Stands(ls[i].queue[j], vs[i].queue[j], index', values')
  {
    assert LinkedLevel(ls[i], vs[i], values) && LinkedLevel(ls[0], vs[0], values);
    FlatAt(vs, i, j);
    assert vs[i].queue[j] in Flat(vs);
    if vs[i].queue[j].id == vs[0].queue[0].id {
      SameIdSamePosition(vs, i, j, 0, 0);
    }
  }

  lemma {:induction false} FrontWires(ls: Ladder, vs: seq<Level<Order>>, index: map<nat, OrderEntry>,
                                      index': map<nat, OrderEntry>, values: map<Order_, Order>,
                                      values': map<Order_, Order>, q: nat)
    requires Linked(ls, vs, values) && Indexed(ls, index) && Faces(values) && DistinctIds(Flat(vs))
    requires ls != [] && ls[0].queue != [] && vs[0].queue != []
    requires vs[0].queue[0].Fill(q).remaining > 0 ==> Stands(ls[0].queue[0], vs[0].queue[0].Fill(q), index', values')
    requires forall z :: z in Flat(vs) && z.id != vs[0].queue[0].id ==> Kept(z.id, index, index', values, values')
    ensures var t := Trim(ls, vs[0].queue[0].Fill(q).remaining == 0);
      Linked(t, Reduced(vs, q), values') && Indexed(t, index')
  {
    var filled := vs[0].queue[0].Fill(q).remaining == 0;
    var t, r := Trim(ls, filled), Reduced(vs, q);
    assert LinkedLevel(ls[0], vs[0], values);
    forall i, j | 0 <= i < |t| && 0 <= j < |t[i].queue|
      ensures j < |r[i].queue| && Stands(t[i].queue[j], r[i].queue[j], index', values')
    {
      var j' := if i == 0 && filled then j + 1 else j;
      assert t[i].queue[j] == ls[i].queue[j'];
      if !(i == 0 && j' == 0) {
        OthersStand(ls, vs, index, index', values, values', i, j');
        assert r[i].queue[j] == vs[i].queue[j'];
      }
    }
    forall i | 0 <= i < |t| ensures LinkedLevel(t[i], r[i], values') {
      assert LinkedLevel(ls[i], vs[i], values);
      forall j | 0 <= j < |t[i].queue| ensures Stands(t[i].queue[j], r[i].queue[j], index', values') {
      }
    }
    forall i, j | 0 <= i < |t| && 0 <= j < |t[i].queue|
      ensures var node := t[i].queue[j];
        node.order.id in index' && index'[node.order.id] == OrderEntry(node.order, node)
    {
      assert Stands(t[i].queue[j], r[i].queue[j], index', values');
    }
  }

  /** Tails of both sides keep the ids apart. */
  lemma {:induction false} TailsDistinct(a: seq<Order>, a': seq<Order>, b: seq<Order>, b': seq<Order>)
    requires DistinctIds(a + b) && TailOf(a', a) && TailOf(b', b)
    ensures DistinctIds(a' + b')
  {
    DistinctConcat(a, b);
    DistinctConcat(a', b');
  }

  lemma {:induction false} FillFrontsCoherent(b: Book)
    requires Coherent(b) && !Exits(b) && !Idles(b)
    ensures Coherent(FillFronts(b).0)
  {
    var q := Min(b.bids[0].queue[0].remaining, b.asks[0].queue[0].remaining);
    var c := FillFronts(b).0;
    FillFrontsShape(b);
    assert DistinctIds(c.Resting()) by {
      FillFrontsFlat(b);
      ReducedTail(Flat(b.bids), q);
      ReducedTail(Flat(b.asks), q);
      TailsDistinct(Flat(b.bids), Flat(c.bids), Flat(b.asks), Flat(c.asks));
    }
  }

  lemma {:induction false} FillFrontsShape(b: Book)
    requires WellShaped(b) && !Exits(b) && !Idles(b)
    ensures WellShaped(FillFronts(b).0)
  {
    var q := Min(b.bids[0].queue[0].remaining, b.asks[0].queue[0].remaining);
    FillFrontsForm(b);
    ReducedKeepsOrder(Buy, b.bids, q);
    ReducedKeepsOrder(Sell, b.asks, q);
  }

  lemma {:induction false} FillFrontsFlat(b: Book)
    requires !Exits(b) && !Idles(b)
    ensures Flat(b.bids) != [] && Flat(b.asks) != []
    ensures var c, f, g := FillFronts(b).0, Flat(b.bids), Flat(b.asks);
      var q := Min(f[0].remaining, g[0].remaining);
      && f[0] == b.bids[0].queue[0] && g[0] == b.asks[0].queue[0]
      && Flat(c.bids) == (if q < f[0].remaining then [f[0].Fill(q)] else []) + f[1..]
      && Flat(c.asks) == (if q < g[0].remaining then [g[0].Fill(q)] else []) + g[1..]
  {
    var q := Min(b.bids[0].queue[0].remaining, b.asks[0].queue[0].remaining);
    ReducedFlat(b.bids, q);
    ReducedFlat(b.asks, q);
  }

  lemma {:induction false} FillFrontsLiveAt(b: Book, id: nat)
    requires Coherent(b) && !Exits(b) && !Idles(b)
    ensures var x, y := b.bids[0].queue[0], b.asks[0].queue[0];
      var q := Min(x.remaining, y.remaining);
      FillFronts(b).0.Live(id) <==>
      b.Live(id) && !(id == x.id && x.remaining == q) && !(id == y.id && y.remaining == q)
  {
    var c := FillFronts(b).0;
    var f, g := Flat(b.bids), Flat(b.asks);
    FillFrontsFlat(b);
    var q := Min(f[0].remaining, g[0].remaining);
    DistinctConcat(f, g);
    LiveAlike(b, id);
    LiveAlike(c, id);
    HeadGone(f, Flat(c.bids), q, id);
    HeadGone(g, Flat(c.asks), q, id);
    HeadElsewhere(f, g, id);
  }

  /** A trade takes exactly the filled orders off the book. */
  lemma {:induction false} FillFrontsLive(b: Book)
    requires Coherent(b) && !Exits(b) && !Idles(b)
    ensures var x, y := b.bids[0].queue[0], b.asks[0].queue[0];
      var q := Min(x.remaining, y.remaining);
      forall id :: FillFronts(b).0.Live(id) <==>
        b.Live(id) && !(id == x.id && x.remaining == q) && !(id == y.id && y.remaining == q)
  {
    forall id {
      FillFrontsLiveAt(b, id);
    }
  }

  lemma {:induction false} HeadGone(f: seq<Order>, r: seq<Order>, q: nat, id: nat)
    requires f != [] && DistinctIds(f) && q <= f[0].remaining
    requires r == (if q < f[0].remaining then [f[0].Fill(q)] else []) + f[1..]
    ensures Find(r, id).Some? <==> Find(f, id).Some? && !(id == f[0].id && f[0].remaining == q)
  {
    if q < f[0].remaining {
      assert r[1..] == f[1..];
    } else {
      assert r == f[1..];
    }
  }

  lemma {:induction false} HeadElsewhere(f: seq<Order>, g: seq<Order>, id: nat)
    requires f != [] && g != [] && forall i, j :: 0 <= i < |f| && 0 <= j < |g| ==> f[i].id != g[j].id
    ensures id == f[0].id ==> Find(f, id).Some? && Find(g, id).None?
    ensures id == g[0].id ==> Find(g, id).Some? && Find(f, id).None?
  {
  }

  function IndexAfter(index: map<nat, OrderEntry>, bid: nat, bidFilled: bool, ask: nat, askFilled: bool): map<nat,
          OrderEntry> {
    var i := if bidFilled then index - {bid} else index;
    if askFilled then i - {ask} else i
  }

  ghost function ValuesAfter(values: map<Order_, Order>, bid: Order_, ask: Order_, q: nat): map<Order_, Order>
    requires bid in values && ask in values
  {
    var filled := values[bid := values[bid].Fill(q)][ask := values[ask].Fill(q)];
    var v := if filled[bid].remaining == 0 then filled - {bid} else filled;
    if filled[ask].remaining == 0 then v - {ask} else v
  }

  lemma {:induction false} FewerValues(values: map<Order_, Order>, bid: Order_, ask: Order_, q: nat)
    requires bid in values && ask in values
    ensures ValuesAfter(values, bid, ask, q).Keys <= values.Keys
  {
  }

  /** The front nodes are where the fronts of the view say, and are two different orders. */
  lemma {:induction false} FrontsApart(bids: Ladder, asks: Ladder, index: map<nat, OrderEntry>, view: Book,
                                       values: map<Order_, Order>)
    requires Holds(bids, asks, index, view, values) && !Exits(view) && !Idles(view)
    ensures bids != [] && asks != [] && bids[0].queue != [] && asks[0].queue != []
    ensures bids[0].price == view.bids[0].price && asks[0].price == view.asks[0].price
    ensures var x, y := bids[0].queue[0], asks[0].queue[0];
      && Stands(x, view.bids[0].queue[0], index, values) && Stands(y, view.asks[0].queue[0], index, values)
      && x.order.id == view.bids[0].queue[0].id && y.order.id == view.asks[0].queue[0].id
      && x.order.id != y.order.id
  {
    assert LinkedLevel(bids[0], view.bids[0], values) && LinkedLevel(asks[0], view.asks[0], values);
    FillFrontsFlat(view);
    DistinctConcat(Flat(view.bids), Flat(view.asks));
  }

  lemma {:induction false} OthersKept(f: seq<Order>, ls: Ladder, vs: seq<Level<Order>>, index: map<nat, OrderEntry>,
                                      values: map<Order_, Order>, x: Order_, y: Order_, q: nat)
    requires f == Flat(vs) && Linked(ls, vs, values) && Indexed(ls, index) && Faces(values)
    requires x in values && y in values && x.id != y.id
    ensures forall z :: z in f && z.id != x.id && z.id != y.id ==>
      Kept(z.id, index, IndexAfter(index, x.id, values[x].Fill(q).remaining == 0, y.id, values[y].Fill(q).remaining ==
          0),
           values, ValuesAfter(values, x, y, q))
  {
    forall z | z in f && z.id != x.id && z.id != y.id
      ensures Kept(z.id, index,
          IndexAfter(index, x.id, values[x].Fill(q).remaining == 0, y.id, values[y].Fill(q).remaining == 0),
                   values, ValuesAfter(values, x, y, q))
    {
      var i, j := Located(vs, z);
      assert LinkedLevel(ls[i], vs[i], values);
      var node := ls[i].queue[j];
      assert node.order.id == z.id;
    }
  }

  /** After the fills, the pops and the erasures the maps hold the traded book. */
  lemma {:induction false} TradeWires(bids: Ladder, asks: Ladder, index: map<nat, OrderEntry>, view: Book,
                                      values: map<Order_, Order>, x: Order_, y: Order_, q: nat,
                                      index': map<nat, OrderEntry>, values': map<Order_, Order>)
    requires Trades(bids, asks, index, view, values, x, y, q, index', values')
    ensures var b, a := Trim(bids, values[x].remaining == q), Trim(asks, values[y].remaining == q);
      Holds(if b[0].queue == [] then b[1..] else b, if b[0].queue != [] && a[0].queue == [] then a[1..] else a,
            index', FillFronts(view).0, values')
    ensures FillFronts(view).1 == Trade(TradeInfo(x.id, q, x.price), TradeInfo(y.id, q, y.price))
  {
    BidsWire(bids, asks, index, view, values, x, y, q, index', values');
    AsksWire(bids, asks, index, view, values, x, y, q, index', values');
    LeftWires(index, index', values, values', x, y, q);
    FillFrontsCoherent(view);
    IndexIsLive(index, view, q, index');
    Erased(Trim(bids, values[x].remaining == q), Trim(asks, values[y].remaining == q), index', view, values', q);
  }

  lemma {:induction false} IndexIsLive(index: map<nat, OrderEntry>, view: Book, q: nat, index': map<nat, OrderEntry>)
    requires Coherent(view) && !Exits(view) && !Idles(view)
    requires forall id :: id in index <==> view.Live(id)
    requires var x, y := view.bids[0].queue[0], view.asks[0].queue[0];
      q == Min(x.remaining, y.remaining) && index' == IndexAfter(index, x.id, x.remaining == q, y.id, y.remaining == q)
    ensures forall id :: id in index' <==> FillFronts(view).0.Live(id)
  {
    FillFrontsLive(view);
  }

  /** The two front orders trade `q`, and `index'` and `values'` are what that leaves. */
  ghost predicate Trades(bids: Ladder, asks: Ladder, index: map<nat, OrderEntry>, view: Book,
                         values: map<Order_, Order>, x: Order_, y: Order_, q: nat, index': map<nat, OrderEntry>,
                         values': map<Order_, Order>) {
    && Holds(bids, asks, index, view, values) && !Exits(view) && !Idles(view)
    && bids != [] && asks != [] && bids[0].queue != [] && asks[0].queue != []
    && x == bids[0].queue[0].order && y == asks[0].queue[0].order
    && Stands(bids[0].queue[0], view.bids[0].queue[0], index, values)
    && Stands(asks[0].queue[0], view.asks[0].queue[0], index, values)
    && x.id == view.bids[0].queue[0].id && y.id == view.asks[0].queue[0].id
    && x.id != y.id && q == Min(values[x].remaining, values[y].remaining)
    && index' == IndexAfter(index, x.id, values[x].remaining == q, y.id, values[y].remaining == q)
    && values' == ValuesAfter(values, x, y, q)
  }

  /** Both ladders lose their best level if it is empty, the asks only if the bids do not. */
  lemma {:induction false} Erased(b: Ladder, a: Ladder, index: map<nat, OrderEntry>, view: Book,
                                  values: map<Order_, Order>, q: nat)
    requires !Exits(view) && !Idles(view) && q == Min(view.bids[0].queue[0].remaining, view.asks[0].queue[0].remaining)
    requires b != [] && Linked(b, Reduced(view.bids, q), values) && Indexed(b, index)
    requires a != [] && Linked(a, Reduced(view.asks, q), values) && Indexed(a, index)
    requires Coherent(FillFronts(view).0) && forall id :: id in index <==> FillFronts(view).0.Live(id)
    requires Faces(values) && forall z :: z in values ==> z.id in index && index[z.id].order == z
    ensures Holds(if b[0].queue == [] then b[1..] else b, if b[0].queue != [] && a[0].queue == [] then a[1..] else a,
                  index, FillFronts(view).0, values)
  {
    LevelErased(b, Reduced(view.bids, q), index, values);
    LevelErased(a, Reduced(view.asks, q), index, values);
  }

  lemma {:induction false} LevelErased(ls: Ladder, vs: seq<Level<Order>>, index: map<nat, OrderEntry>,
                                       values: map<Order_, Order>)
    requires ls != [] && Linked(ls, vs, values) && Indexed(ls, index)
    ensures vs != [] && (ls[0].queue == [] <==> vs[0].queue == [])
    ensures Linked(ls[1..], vs[1..], values) && Indexed(ls[1..], index)
  {
    assert LinkedLevel(ls[0], vs[0], values);
  }

  lemma {:induction false} LeftWires(index: map<nat, OrderEntry>, index': map<nat, OrderEntry>,
                                     values: map<Order_, Order>, values': map<Order_, Order>, x: Order_, y: Order_,
                                     q: nat)
    requires Faces(values) && x in values && y in values && x.id != y.id
    requires forall z :: z in values ==> z.id in index && index[z.id].order == z
    requires index' == IndexAfter(index, x.id, values[x].Fill(q).remaining == 0, y.id, values[y].Fill(q).remaining == 0)
    requires values' == ValuesAfter(values, x, y, q)
    ensures Faces(values') && (forall z :: z in values' ==> z.id in index' && index'[z.id].order == z)
  {
  }

  lemma {:induction false} BidsWire(bids: Ladder, asks: Ladder, index: map<nat, OrderEntry>, view: Book,
                                    values: map<Order_, Order>, x: Order_, y: Order_, q: nat,
                                    index': map<nat, OrderEntry>, values': map<Order_, Order>)
    requires Trades(bids, asks, index, view, values, x, y, q, index', values')
    ensures var t := Trim(bids, values[x].remaining == q);
      Linked(t, Reduced(view.bids, q), values') && Indexed(t, index')
  {
    FrontIsApart(view);
    FrontFills(bids[0].queue[0], view.bids[0].queue[0], index, index', values, values', x, y, q);
    OthersKept(Flat(view.bids), bids, view.bids, index, values, x, y, q);
    FrontWires(bids, view.bids, index, index', values, values', q);
  }

  lemma {:induction false} AsksWire(bids: Ladder, asks: Ladder, index: map<nat, OrderEntry>, view: Book,
                                    values: map<Order_, Order>, x: Order_, y: Order_, q: nat,
                                    index': map<nat, OrderEntry>, values': map<Order_, Order>)
    requires Trades(bids, asks, index, view, values, x, y, q, index', values')
    ensures var t := Trim(asks, values[y].remaining == q);
      Linked(t, Reduced(view.asks, q), values') && Indexed(t, index')
  {
    FrontIsApart(view);
    FrontFills(asks[0].queue[0], view.asks[0].queue[0], index, index', values, values', x, y, q);
    OthersKept(Flat(view.asks), asks, view.asks, index, values, x, y, q);
    FrontWires(asks, view.asks, index, index', values, values', q);
  }

  lemma {:induction false} FrontIsApart(view: Book)
    requires Coherent(view) && !Exits(view) && !Idles(view)
    ensures DistinctIds(Flat(view.bids)) && DistinctIds(Flat(view.asks))
    ensures forall z :: z in Flat(view.bids) ==> z.id != view.asks[0].queue[0].id
    ensures forall z :: z in Flat(view.asks) ==> z.id != view.bids[0].queue[0].id
  {
    FillFrontsFlat(view);
    DistinctConcat(Flat(view.bids), Flat(view.asks));
  }

  lemma {:induction false} FrontFills(node: ListNode, o: Order, index: map<nat, OrderEntry>,
                                      index': map<nat, OrderEntry>, values: map<Order_, Order>,
                                      values': map<Order_, Order>, x: Order_, y: Order_, q: nat)
    requires Stands(node, o, index, values) && (node.order == x || node.order == y) && x in values && y in values &&
        x.id != y.id
    requires q == Min(values[x].remaining, values[y].remaining)
    requires index' == IndexAfter(index, x.id, values[x].remaining == q, y.id, values[y].remaining == q)
    requires values' == ValuesAfter(values, x, y, q)
    ensures o.Fill(q).remaining > 0 ==> Stands(node, o.Fill(q), index', values')
  {
  }

  /** Everything the matching loop has to know about the trade it is about to make. */
  lemma {:induction false} PlanTrade(bids: Ladder, asks: Ladder, index: map<nat, OrderEntry>, view: Book,
                                     values: map<Order_, Order>)
    returns (x: Order_, y: Order_, q: nat, values': map<Order_, Order>)
    requires Holds(bids, asks, index, view, values) && !Exits(view) && !Idles(view)
    ensures bids != [] && asks != [] && bids[0].queue != [] && asks[0].queue != [] && bids[0].price >= asks[0].price
    ensures x == bids[0].queue[0].order && y == asks[0].queue[0].order && x != y && x in values && y in values
    ensures q == Min(values[x].remaining, values[y].remaining)
    ensures values' == ValuesAfter(values, x, y, q) && values'.Keys <= values.Keys
    ensures FillFronts(view).1 == Trade(TradeInfo(x.id, q, x.price), TradeInfo(y.id, q, y.price))
    ensures var b, a := Trim(bids, values[x].remaining == q), Trim(asks, values[y].remaining == q);
      Holds(if b[0].queue == [] then b[1..] else b, if b[0].queue != [] && a[0].queue == [] then a[1..] else a,
            IndexAfter(index, x.id, values[x].remaining == q, y.id, values[y].remaining == q), FillFronts(view).0,
                values')
  {
    FrontsApart(bids, asks, index, view, values);
    x, y := bids[0].queue[0].order, asks[0].queue[0].order;
    q := Min(values[x].remaining, values[y].remaining);
    var index' := IndexAfter(index, x.id, values[x].remaining == q, y.id, values[y].remaining == q);
    values' := ValuesAfter(values, x, y, q);
    TradeWires(bids, asks, index, view, values, x, y, q, index', values');
    FewerValues(values, x, y, q);
  }

  // ----- Placing one order -----

  lemma {:induction false} ValuesGrow(ls: Ladder, vs: seq<Level<Order>>, values: map<Order_, Order>, order: Order_,
                                      v: Order)
    requires Linked(ls, vs, values) && order !in values
    ensures Linked(ls, vs, values[order := v])
  {
    forall i | 0 <= i < |ls| ensures LinkedLevel(ls[i], vs[i], values[order := v]) {
      assert LinkedLevel(ls[i], vs[i], values);
    }
  }

  lemma {:induction false} IndexGrows(ls: Ladder, index: map<nat, OrderEntry>, id: nat, entry: OrderEntry)
    requires Indexed(ls, index) && id !in index
    ensures Indexed(ls, index[id := entry])
  {
  }

  lemma {:induction false} PlaceWires(bids: Ladder, asks: Ladder, index: map<nat, OrderEntry>, view: Book,
                                      values: map<Order_, Order>, node: ListNode, v: Order)
    requires Holds(bids, asks, index, view, values) && node.order.id !in index
    requires v == Order(node.order.kind, node.order.id, node.order.side, node.order.price, node.order.initialQuantity,
        v.remaining)
    ensures Holds(if v.side.Buy? then Enqueue(Buy, bids, v.price, node) else bids,
                  if v.side.Buy? then asks else Enqueue(Sell, asks, v.price, node),
                  index[v.id := OrderEntry(node.order, node)], Place(view, v), values[node.order := v])
  {
    var order, entry := node.order, OrderEntry(node.order, node);
    ValuesGrow(bids, view.bids, values, order, v);
    ValuesGrow(asks, view.asks, values, order, v);
    IndexGrows(bids, index, v.id, entry);
    IndexGrows(asks, index, v.id, entry);
    PlaceIsLive(index, view, values, node, v);
    if v.side.Buy? {
      EnqueueLinked(Buy, bids, view.bids, values[order := v], v.price, node);
      EnqueueIndexed(Buy, bids, index[v.id := entry], v.price, node);
    } else {
      EnqueueLinked(Sell, asks, view.asks, values[order := v], v.price, node);
      EnqueueIndexed(Sell, asks, index[v.id := entry], v.price, node);
    }
  }

  lemma {:induction false} PlacedValues(index: map<nat, OrderEntry>, values: map<Order_, Order>, node: ListNode,
                                        v: Order)
    requires Faces(values) && (forall x :: x in values ==> x.id in index && index[x.id].order == x)
    requires node.order.id !in index
    requires v == Order(node.order.kind, node.order.id, node.order.side, node.order.price,
                        node.order.initialQuantity, v.remaining)
    ensures var index', values' := index[v.id := OrderEntry(node.order, node)], values[node.order := v];
      Faces(values') && (forall x :: x in values' ==> x.id in index' && index'[x.id].order == x)
  {
  }

  lemma {:induction false} PlaceIsLive(index: map<nat, OrderEntry>, view: Book, values: map<Order_, Order>,
                                       node: ListNode, v: Order)
    requires Coherent(view) && Faces(values) && (forall id :: id in index <==> view.Live(id))
    requires forall x :: x in values ==> x.id in index && index[x.id].order == x
    requires node.order.id !in index
    requires v == Order(node.order.kind, node.order.id, node.order.side, node.order.price,
                        node.order.initialQuantity, v.remaining)
    ensures var index', values' := index[v.id := OrderEntry(node.order, node)], values[node.order := v];
      && Coherent(Place(view, v)) && (forall id :: id in index' <==> Place(view, v).Live(id))
      && Faces(values') && (forall x :: x in values' ==> x.id in index' && index'[x.id].order == x)
  {
    PlaceMembers(view, v);
    LiveGrows(view, Place(view, v), v);
    PlacedValues(index, values, node, v);
  }

  lemma {:induction false} LiveGrows(b: Book, c: Book, o: Order)
    requires forall x :: x in c.Resting() <==> x in b.Resting() || x == o
    ensures forall id :: c.Live(id) <==> b.Live(id) || id == o.id
  {
  }
}
