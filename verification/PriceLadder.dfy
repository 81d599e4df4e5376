/** The sorted map from price to FIFO list that each side of the book is kept in. The map is
    a sequence of levels in the map's own order, so that its first entry is the best level. */
module PriceLadder {
  import opened Orders
  import opened Sequences

  datatype Level<T> = Level(price: int, queue: seq<T>)

  ghost predicate Sorted<T>(side: Side, ls: seq<Level<T>>) {
    forall i, j :: 0 <= i < j < |ls| ==> Better(side, ls[i].price, ls[j].price)
  }

  /** All elements in priority order: level by level, oldest first. */
  function Flat<T>(ls: seq<Level<T>>): seq<T> {
    if ls == [] then [] else ls[0].queue + Flat(ls[1..])
  }

  /** Index the map at `price`, creating the level if it is missing, and append to its list. */
  function Enqueue<T>(side: Side, ls: seq<Level<T>>, price: int, x: T): seq<Level<T>> {
    if ls == [] || Better(side, price, ls[0].price) then [Level(price, [x])] + ls
    else if ls[0].price == price then [Level(price, ls[0].queue + [x])] + ls[1..]
    else [ls[0]] + Enqueue(side, ls[1..], price, x)
  }

  /** `s` without its first occurrence of `x`. */
  function Without<T(==)>(s: seq<T>, x: T): seq<T> {
    if s == [] then [] else if s[0] == x then s[1..] else [s[0]] + Without(s[1..], x)
  }

  /** Erase `x` from the list at `price`, and the level itself if that leaves it empty. */
  function Withdraw<T(==)>(ls: seq<Level<T>>, price: int, x: T): seq<Level<T>> {
    if ls == [] then []
    else if ls[0].price == price then
      var rest := Without(ls[0].queue, x);
      if rest == [] then ls[1..] else [Level(price, rest)] + ls[1..]
    else [ls[0]] + Withdraw(ls[1..], price, x)
  }

  /** Where the queue of level `i` starts in the flattened ladder. */
  function Offset<T>(ls: seq<Level<T>>, i: nat): nat
    requires i <= |ls|
  {
    |Flat(ls[..i])|
  }

  /** Every order stands at its own side and price. */
  ghost predicate Proper(side: Side, ls: seq<Level<Order>>) {
    forall i, j :: 0 <= i < |ls| && 0 <= j < |ls[i].queue| ==>
      ls[i].queue[j].side == side && ls[i].queue[j].price == ls[i].price
  }

  lemma {:induction false} FlatConcat<T>(a: seq<Level<T>>, b: seq<Level<T>>)
    ensures Flat(a + b) == Flat(a) + Flat(b)
  {
    if a == [] {
      assert a + b == b;
    } else {
      FlatConcat(a[1..], b);
      ConcatTail(a, b);
      ConcatAssociates(a[0].queue, Flat(a[1..]), Flat(b));
    }
  }

  /** A position in the ladder is an index in its flattening. */
  lemma {:induction false} FlatAt<T>(ls: seq<Level<T>>, i: nat, j: nat)
    requires i < |ls| && j < |ls[i].queue|
    ensures Offset(ls, i) + j < Offset(ls, i + 1) <= |Flat(ls)|
    ensures Flat(ls)[Offset(ls, i) + j] == ls[i].queue[j]
  {
    assert ls == ls[..i] + ls[i..];
    FlatConcat(ls[..i], ls[i..]);
    assert ls[..i + 1] == ls[..i] + [ls[i]];
    FlatConcat(ls[..i], [ls[i]]);
    assert Flat([ls[i]]) == ls[i].queue;
    FlatConcat(ls[..i + 1], ls[i + 1..]);
    assert ls == ls[..i + 1] + ls[i + 1..];
  }

  lemma {:induction false} OffsetMonotone<T>(ls: seq<Level<T>>, i: nat, j: nat)
    requires i <= j <= |ls|
    ensures Offset(ls, i) <= Offset(ls, j)
  {
    assert ls[..j] == ls[..i] + ls[i..j];
    FlatConcat(ls[..i], ls[i..j]);
  }

  /** Every element of the flattening stands at some position. */
  lemma {:induction false} Located<T>(ls: seq<Level<T>>, x: T) returns (i: nat, j: nat)
    requires x in Flat(ls)
    ensures i < |ls| && j < |ls[i].queue| && ls[i].queue[j] == x
  {
    if x in ls[0].queue {
      i := 0;
      j :| j < |ls[0].queue| && ls[0].queue[j] == x;
    } else {
      i, j := Located(ls[1..], x);
      i := i + 1;
    }
  }

  /** On a ladder with distinct ids the id determines the position. */
  lemma {:induction false} SameIdSamePosition(ls: seq<Level<Order>>, i: nat, j: nat, i': nat, j': nat)
    requires DistinctIds(Flat(ls))
    requires i < |ls| && j < |ls[i].queue| && i' < |ls| && j' < |ls[i'].queue|
    requires ls[i].queue[j].id == ls[i'].queue[j'].id
    ensures i == i' && j == j'
  {
    FlatAt(ls, i, j);
    FlatAt(ls, i', j');
    if i < i' {
      OffsetMonotone(ls, i + 1, i');
    } else if i' < i {
      OffsetMonotone(ls, i' + 1, i);
    }
  }

  lemma {:induction false} ProperFlat(side: Side, ls: seq<Level<Order>>, o: Order)
    requires Proper(side, ls) && o in Flat(ls)
    ensures o.side == side
    ensures exists i :: 0 <= i < |ls| && ls[i].price == o.price && o in ls[i].queue
  {
    var i, j := Located(ls, o);
  }
}
