/** The thread-safe queue and the scheduler's policies as objects. A policy method is one pass of
    the endless outer loop: it empties the order queue, batch by batch. */
module Scheduler {
  import opened Orders
  import opened Messages
  import opened Numbers
  import opened Sequences
  import Dispatch
  import Equalizer
  import Latency
  import Streams

  /** Under its mutex every operation is one step. */
  class TSQueue<T> {
    var items: seq<T>

    constructor ()
      ensures items == []
    {
      items := [];
    }

    method Push(item: T)
      modifies this
      ensures items == old(items) + [item]
    {
      items := items + [item];
    }

    /** `None` is the caller left waiting for the queue to hold something. */
    method Pop() returns (item: Option<T>)
      modifies this
      ensures old(items) == [] ==> item == None && items == []
      ensures old(items) != [] ==> item == Some(old(items)[0]) && items == old(items)[1..]
    {
      if items == [] {
        return None;
      }
      item := Some(items[0]);
      items := items[1..];
    }

    method Empty() returns (empty: bool)
      ensures empty <==> items == []
    {
      empty := items == [];
    }

    method Size() returns (size: nat)
      ensures size == |items|
    {
      size := |items|;
    }
  }

  /** Batching is invisible: dealing on from where an earlier deal stopped is one deal. */
  lemma {:induction false} DealGoesOn<M>(first: nat, a: seq<M>, b: seq<M>, i: nat)
    ensures Dispatch.Deal(first, a + b, i) == Dispatch.Deal(first, a, i) + Dispatch.Deal(Turn(first + |a|), b, i)
    decreases |b|
  {
    if b == [] {
      assert a + b == a;
    } else {
      var n := |b| - 1;
      DealGoesOn(first, a, b[..n], i);
      assert a + b == (a + b[..n]) + [b[n]];
      Dispatch.DealOne(first, a + b[..n], b[n], i);
      TurnsAdd(first + |a|, n);
      var one := if (first + |a| + n) % Dispatch.PROVIDERS == i then [b[n]] else [];
      ConcatAssociates(Dispatch.Deal(first, a, i), Dispatch.Deal(Turn(first + |a|), b[..n], i), one);
    }
  }

  lemma {:induction false} TurnsAdd(a: nat, n: nat)
    ensures (a % Dispatch.PROVIDERS + n) % Dispatch.PROVIDERS == (a + n) % Dispatch.PROVIDERS
  {
    var k := a / Dispatch.PROVIDERS;
    assert a == Dispatch.PROVIDERS * k + a % Dispatch.PROVIDERS;
    assert (a + n) / Dispatch.PROVIDERS == k + (a % Dispatch.PROVIDERS + n) / Dispatch.PROVIDERS;
  }

  /** Whose turn it is at the n-th message. */
  function Turn(n: nat): nat {
    n % Dispatch.PROVIDERS
  }

  lemma {:induction false} TurnPasses(n: nat)
    ensures Turn(n) < Dispatch.PROVIDERS && (Turn(n) + 1) % Dispatch.PROVIDERS == Turn(n + 1)
  {
    TurnsAdd(n, 1);
  }

  /** The message asks for a quantity that is split. */
  predicate Splits(parse: string -> OrderDetails, message: string) {
    Equalizer.Atoi(parse(message).qty) >= Equalizer.SHARES
  }

  /** On the text of a message: its fifth word, if it has one, reads as a number of three or more. */
  lemma {:induction false} SplitsByItsFifthWord(words: seq<string>, gaps: seq<string>)
    requires Streams.Separates(gaps, words)
    ensures Splits(ParseOrder, Streams.Layout(words, gaps)) <==>
            |words| >= 5 && Equalizer.Atoi(words[4]) >= Equalizer.SHARES
  {
    MessageReadsBack(words, gaps);
    assert Streams.SkipSpace([]) == [] && Equalizer.DigitRun([]) == [];
  }

  /** And if that word is a number, with or without sign and leading zeros, and with anything but a
      digit behind it: exactly if the number is at least three and not negated. */
  lemma {:induction false} SplitsByItsNumber(words: seq<string>, gaps: seq<string>, sign: string, zeros: string, n: nat,
                                             rest: string)
    requires Streams.Separates(gaps, words) && |words| >= 5
    requires Equalizer.IsSign(sign) && Equalizer.EndsNumber(rest)
    requires forall i :: 0 <= i < |zeros| ==> zeros[i] == '0'
    requires words[4] == sign + (zeros + Equalizer.ToText(n) + rest)
    ensures Splits(ParseOrder, Streams.Layout(words, gaps)) <==> sign != "-" && n >= 3
  {
    SplitsByItsFifthWord(words, gaps);
    Equalizer.NumberReads("", sign, zeros, n, rest);
    assert "" + words[4] == words[4];
  }

  /** A word without a digit behind its sign is never split. */
  lemma {:induction false} NoNumberNoSplit(words: seq<string>, gaps: seq<string>, sign: string, rest: string)
    requires Streams.Separates(gaps, words) && |words| >= 5
    requires Equalizer.IsSign(sign) && Equalizer.EndsNumber(rest) && words[4] == sign + rest
    requires sign == "" ==> rest == [] || (rest[0] != '+' && rest[0] != '-')
    ensures !Splits(ParseOrder, Streams.Layout(words, gaps))
  {
    SplitsByItsFifthWord(words, gaps);
    if sign == "" {
      assert words[4] == rest;
    }
    Equalizer.NothingReads("", sign, rest);
    assert "" + words[4] == words[4];
  }

  /** What of a run of pushes goes to provider `i`. */
  function PushedTo(ps: seq<Equalizer.Push>, i: nat): seq<OrderDetails> {
    if ps == [] then []
    else
      var n := |ps| - 1;
      PushedTo(ps[..n], i) + (if ps[n].provider == i then [ps[n].order] else [])
  }

  class Scheduler {
    const orderQueue: TSQueue<string>
    const providers: seq<TSQueue<OrderDetails>>
    /** How a message is read. The policies need nothing of it. */
    const parse: string -> OrderDetails

    constructor (orderQueue: TSQueue<string>, providers: seq<TSQueue<OrderDetails>>)
      ensures this.orderQueue == orderQueue && this.providers == providers && this.parse == ParseOrder
    {
      this.orderQueue, this.providers, this.parse := orderQueue, providers, ParseOrder;
    }

    /** The registered queues are different objects. */
    ghost predicate Apart() {
      && (forall i, j :: 0 <= i < j < |providers| ==> providers[i] != providers[j])
    }

    /** Body of the batch loop: pop an order, parse it, push it to the provider whose turn it is. */
    method DealNext(current: nat)
      requires Apart() && current < |providers| && orderQueue.items != []
      modifies orderQueue, providers
      ensures orderQueue.items == old(orderQueue.items)[1..]
      ensures forall i :: 0 <= i < |providers| ==>
        providers[i].items == old(providers[i].items) + (if i == current then [parse(old(orderQueue.items)[0])] else [])
    {
      var order := orderQueue.Pop();
      providers[current].Push(parse(order.value));
    }

    /** One batch, after `taken` has been dealt from provider `first` on. */
    method RoundRobinBatch(current: nat, ghost first: nat, ghost taken: seq<string>, ghost base: seq<seq<OrderDetails>>)
      returns (next: nat)
      requires Apart() && |providers| >= Dispatch.PROVIDERS && |base| == |providers|
      requires current == Turn(first + |taken|)
      requires forall i :: 0 <= i < |providers| ==> providers[i].items == base[i] + Share(parse, first, taken, i)
      modifies orderQueue, providers
      ensures orderQueue.items == [] && next == Turn(first + |taken + old(orderQueue.items)|)
      ensures forall i :: 0 <= i < |providers| ==>
        providers[i].items == base[i] + Share(parse, first, taken + old(orderQueue.items), i)
    {
      next := current;
      var left := orderQueue.Size();
      ghost var done := taken;
      while left > 0
        invariant left == |orderQueue.items| && done + orderQueue.items == taken + old(orderQueue.items)
        invariant next == Turn(first + |done|)
        invariant forall i :: 0 <= i < |providers| ==> providers[i].items == base[i] + Share(parse, first, done, i)
      {
        left := left - 1;
        ghost var order := orderQueue.items[0];
        DealNext(next);
        forall i | 0 <= i < |providers| ensures providers[i].items == base[i] + Share(parse, first, done + [order], i) {
          ShareGrows(parse, first, done, order, i);
          ConcatAssociates(base[i], Share(parse, first, done, i), if next == i then [parse(order)] else []);
        }
        TurnPasses(first + |done|);
        next := (next + 1) % Dispatch.PROVIDERS;
        done := done + [order];
      }
      assert done + [] == done;
    }

    /** Pop, parse, push to the provider whose turn it is, pass the turn on. */
    method RoundRobin(current: nat) returns (next: nat)
      requires Apart() && |providers| >= Dispatch.PROVIDERS && current < Dispatch.PROVIDERS
      modifies orderQueue, providers
      ensures orderQueue.items == [] && next == (current + |old(orderQueue.items)|) % 3
      ensures forall i :: 0 <= i < |providers| ==>
        providers[i].items == old(providers[i].items) + Share(parse, current, old(orderQueue.items), i)
    {
      next := current;
      ghost var taken: seq<string> := [];
      ghost var base := seq(|providers|, i requires 0 <= i < |providers| => old(providers[i].items));
      NothingShared(parse, current);
      var empty := orderQueue.Empty();
      while !empty
        invariant empty <==> orderQueue.items == []
        invariant taken + orderQueue.items == old(orderQueue.items) && next == Turn(current + |taken|)
        invariant forall i :: 0 <= i < |providers| ==> providers[i].items == base[i] + Share(parse, current, taken, i)
        decreases |orderQueue.items|
      {
        next := RoundRobinBatch(next, current, taken, base);
        taken := old(orderQueue.items);
        empty := orderQueue.Empty();
      }
      assert taken + [] == taken;
    }

    /** Body of the batch loop of the splitting policy. `fault` is the push through an index past
        the registered providers. */
    method EqualizeNext() returns (fault: bool)
      requires Apart() && |providers| >= Equalizer.SHARES && orderQueue.items != []
      modifies orderQueue, providers
      ensures orderQueue.items == old(orderQueue.items)[1..]
      ensures fault <==> Splits(parse, old(orderQueue.items)[0]) && |providers| == Equalizer.SHARES
      ensures !fault ==> forall i :: 0 <= i < |providers| ==>
        providers[i].items == old(providers[i].items) + SplitOf(parse, old(orderQueue.items)[0], i)
    {
      var order := orderQueue.Pop();
      var details := parse(order.value);
      var qty := Equalizer.Atoi(details.qty);
      fault := false;
      if qty >= Equalizer.SHARES {
        var share := details.(qty := Equalizer.ToText(qty / Equalizer.SHARES));
        providers[0].Push(share);
        providers[1].Push(share);
        if |providers| <= Equalizer.SHARES {
          return true;
        }
        var last := details.(qty := Equalizer.ToText(qty / Equalizer.SHARES + qty % Equalizer.SHARES));
        providers[Equalizer.SHARES].Push(last);
        forall i: nat {
          PushedToThree(Equalizer.Push(0, share), Equalizer.Push(1, share), Equalizer.Push(Equalizer.SHARES, last), i);
        }
      } else {
        providers[0].Push(details);
        forall i: nat {
          PushedToOne(Equalizer.Push(0, details), i);
        }
      }
    }

    /** One batch of the splitting policy, after `taken` has been split. */
    method EqualizeBatch(ghost taken: seq<string>, ghost base: seq<seq<OrderDetails>>) returns (fault: bool)
      requires Apart() && |providers| >= Equalizer.SHARES && |base| == |providers|
      requires forall i :: 0 <= i < |providers| ==> providers[i].items == base[i] + SplitShare(parse, taken, i)
      modifies orderQueue, providers
      ensures fault <==> |providers| == Equalizer.SHARES && exists m :: m in old(orderQueue.items) && Splits(parse, m)
      ensures !fault ==> orderQueue.items == [] && forall i :: 0 <= i < |providers| ==>
        providers[i].items == base[i] + SplitShare(parse, taken + old(orderQueue.items), i)
    {
      var left := orderQueue.Size();
      ghost var done: seq<string> := [];
      assert taken + [] == taken;
      while left > 0
        invariant left == |orderQueue.items| && done + orderQueue.items == old(orderQueue.items)
        invariant |providers| == Equalizer.SHARES ==> forall m :: m in done ==> !Splits(parse, m)
        invariant forall i :: 0 <= i < |providers| ==>
            providers[i].items == base[i] + SplitShare(parse, taken + done, i)
      {
        left := left - 1;
        ghost var order := orderQueue.items[0];
        fault := EqualizeNext();
        if fault {
          assert order in old(orderQueue.items);
          return;
        }
        ConcatAssociates(taken, done, [order]);
        forall i | 0 <= i < |providers|
          ensures providers[i].items == base[i] + SplitShare(parse, taken + (done + [order]), i)
        {
          SplitShareGrows(parse, taken + done, order, i);
          ConcatAssociates(base[i], SplitShare(parse, taken + done, i), SplitOf(parse, order, i));
        }
        done := done + [order];
      }
      assert done + [] == done;
      fault := false;
    }

    /** One pass of the splitting policy. It faults exactly when some order of three or more meets
        three providers; otherwise every provider has been pushed what is planned for it. */
    method Equalize() returns (fault: bool)
      requires Apart() && |providers| >= Equalizer.SHARES
      modifies orderQueue, providers
      ensures fault <==> |providers| == Equalizer.SHARES && exists m :: m in old(orderQueue.items) && Splits(parse, m)
      ensures !fault ==> orderQueue.items == [] && forall i :: 0 <= i < |providers| ==>
        providers[i].items == old(providers[i].items) + SplitShare(parse, old(orderQueue.items), i)
      ensures !fault ==> SplitTotal(parse, old(orderQueue.items), |providers|) ==
                         Equalizer.Ordered(Dispatch.ParseAll(parse, old(orderQueue.items)))
    {
      fault := false;
      var empty := orderQueue.Empty();
      while !empty
        invariant !fault && (empty <==> orderQueue.items == [])
        invariant orderQueue.items == [] || orderQueue.items == old(orderQueue.items)
        invariant orderQueue.items == [] && |providers| == Equalizer.SHARES ==>
          forall m :: m in old(orderQueue.items) ==> !Splits(parse, m)
        invariant forall i :: 0 <= i < |providers| ==>
          providers[i].items == old(providers[i].items) +
            (if orderQueue.items == [] then SplitShare(parse, old(orderQueue.items), i) else [])
        decreases |orderQueue.items|
      {
        ghost var base := seq(|providers|, i requires 0 <= i < |providers| => old(providers[i].items));
        NothingSplit(parse);
        fault := EqualizeBatch([], base);
        if fault {
          return;
        }
        assert [] + old(orderQueue.items) == old(orderQueue.items);
        empty := orderQueue.Empty();
      }
      QueuesHoldWhatWasOrdered(parse, old(orderQueue.items), |providers|);
    }

    /** What is in the queues together with what is still to be routed to them is `goal`, and their
        sizes will be `sizes`. */
    ghost predicate OnTheWay(goal: seq<seq<OrderDetails>>, sizes: Latency.Sizes)
      requires |providers| >= 3
      reads orderQueue, providers
    {
      && |goal| == |providers|
      && Latency.Fill(QueueSizes(), |orderQueue.items|) == sizes
      && forall i :: 0 <= i < |providers| ==>
           providers[i].items + Routed(parse, QueueSizes(), orderQueue.items, i) == goal[i]
    }

    method LatencyBatch(ghost goal: seq<seq<OrderDetails>>, ghost sizes: Latency.Sizes)
      requires Apart() && |providers| >= 3 && OnTheWay(goal, sizes)
      modifies orderQueue, providers
      ensures orderQueue.items == [] && OnTheWay(goal, sizes)
    {
      var left := orderQueue.Size();
      while left > 0
        invariant left == |orderQueue.items| && OnTheWay(goal, sizes)
      {
        left := left - 1;
        RouteNext(goal, sizes);
      }
    }

    /** One pass of the latency policy: it routes each order on the sizes of the moment. */
    method LatencyBased()
      requires Apart() && |providers| >= 3
      modifies orderQueue, providers
      ensures orderQueue.items == []
      ensures QueueSizes() == Latency.Fill(old(QueueSizes()), |old(orderQueue.items)|)
      ensures forall i :: 0 <= i < |providers| ==>
        providers[i].items == old(providers[i].items) + Routed(parse, old(QueueSizes()), old(orderQueue.items), i)
    {
      ghost var sizes := Latency.Fill(QueueSizes(), |orderQueue.items|);
      ghost var goal := seq(|providers|, i requires 0 <= i < |providers| =>
        old(providers[i].items) + Routed(parse, old(QueueSizes()), old(orderQueue.items), i));
      var empty := orderQueue.Empty();
      while !empty
        invariant empty <==> orderQueue.items == []
        invariant OnTheWay(goal, sizes)
        decreases |orderQueue.items|
      {
        LatencyBatch(goal, sizes);
        empty := orderQueue.Empty();
      }
    }

    ghost function QueueSizes(): Latency.Sizes
      requires |providers| >= 3
      reads providers
    {
      Latency.Sizes(|providers[0].items|, |providers[1].items|, |providers[2].items|)
    }

    /** Body of the batch loop of the latency policy. */
    method RouteNext(ghost goal: seq<seq<OrderDetails>>, ghost sizes: Latency.Sizes)
      requires Apart() && |providers| >= 3 && orderQueue.items != [] && OnTheWay(goal, sizes)
      modifies orderQueue, providers
      ensures orderQueue.items == old(orderQueue.items)[1..]
      ensures OnTheWay(goal, sizes)
    {
      ghost var before, ms := QueueSizes(), orderQueue.items;
      RouteOne();
      forall i | 0 <= i < |providers|
        ensures providers[i].items + Routed(parse, QueueSizes(), orderQueue.items, i) == goal[i]
      {
        RoutedOn(parse, before, ms, i, old(providers[i].items), goal[i]);
      }
    }

    /** Pop, parse, read the sizes, push. */
    method RouteOne()
      requires Apart() && |providers| >= 3 && orderQueue.items != []
      modifies orderQueue, providers
      ensures orderQueue.items == old(orderQueue.items)[1..]
      ensures var s := old(QueueSizes());
        var chosen := Latency.Choose(s.q0, s.q1, s.q2);
        && QueueSizes() == s.Grow(chosen)
        && forall i :: 0 <= i < |providers| ==>
             providers[i].items == old(providers[i].items) + (if i == chosen then [parse(old(orderQueue.items)[0])]
                 else [])
    {
      var order := orderQueue.Pop();
      var details := parse(order.value);
      var size0 := providers[0].Size();
      if size0 <= 7 {
        providers[0].Push(details);
        return;
      }
      var size2 := providers[2].Size();
      var size1 := providers[1].Size();
      if (size2 - size1) % TWO_TO_THE_64 >= 10 {
        providers[1].Push(details);
      } else {
        providers[2].Push(details);
      }
    }
  }

  lemma {:induction false} PushedToConcat(a: seq<Equalizer.Push>, b: seq<Equalizer.Push>, i: nat)
    ensures PushedTo(a + b, i) == PushedTo(a, i) + PushedTo(b, i)
    decreases |b|
  {
    if b == [] {
      assert a + b == a;
    } else {
      var n := |b| - 1;
      PushedToConcat(a, b[..n], i);
      assert (a + b)[..|a| + n] == a + b[..n];
    }
  }

  // ----- The quantities in the provider queues -----

  /** What a run of pushes brings to the first `n` providers together: the sum of what is pushed to each. */
  function Brought(ps: seq<Equalizer.Push>, n: nat): int {
    if n == 0 then 0 else Brought(ps, n - 1) + Equalizer.Ordered(PushedTo(ps, n - 1))
  }

  lemma {:induction false} OrderedOne(d: OrderDetails)
    ensures Equalizer.Ordered([d]) == Equalizer.Atoi(d.qty) && Equalizer.Ordered([]) == 0
  {
    assert [d][1..] == [];
  }

  lemma {:induction false} PushBrings(ps: seq<Equalizer.Push>, p: Equalizer.Push, i: nat, qty: int)
    requires qty == Equalizer.Atoi(p.order.qty)
    ensures Equalizer.Ordered(PushedTo(ps + [p], i)) ==
            Equalizer.Ordered(PushedTo(ps, i)) + (if p.provider == i then qty else 0)
  {
    PushedToConcat(ps, [p], i);
    PushedToOne(p, i);
    Equalizer.OrderedConcat(PushedTo(ps, i), PushedTo([p], i));
    OrderedOne(p.order);
  }

  lemma {:induction false} BroughtGrows(ps: seq<Equalizer.Push>, all: seq<Equalizer.Push>, provider: nat, qty: int,
                                        n: nat)
    requires forall i :: 0 <= i < n ==>
      Equalizer.Ordered(PushedTo(all, i)) == Equalizer.Ordered(PushedTo(ps, i)) + (if provider == i then qty else 0)
    ensures Brought(all, n) == Brought(ps, n) + (if provider < n then qty else 0)
  {
    if n > 0 {
      BroughtGrows(ps, all, provider, qty, n - 1);
    }
  }

  lemma {:induction false} BroughtNothing(n: nat)
    ensures Brought([], n) == 0
  {
    if n > 0 {
      BroughtNothing(n - 1);
    }
  }

  /** Pushes that stay within the providers bring them all of their quantity, each once. */
  lemma {:induction false} BroughtIsQuantity(ps: seq<Equalizer.Push>, n: nat)
    requires Equalizer.InRange(ps, n)
    ensures Brought(ps, n) == Equalizer.Quantity(ps)
    decreases |ps|
  {
    if ps == [] {
      BroughtNothing(n);
    } else {
      var m := |ps| - 1;
      BroughtIsQuantity(ps[..m], n);
      assert ps == ps[..m] + [ps[m]];
      var qty := Equalizer.Atoi(ps[m].order.qty);
      forall i | 0 <= i < n
        ensures Equalizer.Ordered(PushedTo(ps, i)) ==
                Equalizer.Ordered(PushedTo(ps[..m], i)) + (if ps[m].provider == i then qty else 0)
      {
        PushBrings(ps[..m], ps[m], i, qty);
      }
      BroughtGrows(ps[..m], ps, ps[m].provider, qty, n);
      Equalizer.QuantityConcat(ps[..m], [ps[m]]);
      Equalizer.QuantityOfOne(ps[m]);
    }
  }

  /** What the messages order is what the splitting policy brings to the provider queues, whenever it
      does not run off their end. */
  lemma {:induction false} QueuesHoldWhatWasOrdered(parse: string -> OrderDetails, messages: seq<string>, n: nat)
    requires n >= Equalizer.SHARES
    requires n == Equalizer.SHARES ==> forall m :: m in messages ==> !Splits(parse, m)
    ensures SplitTotal(parse, messages, n) == Equalizer.Ordered(Dispatch.ParseAll(parse, messages))
  {
    var ds := Dispatch.ParseAll(parse, messages);
    if n == Equalizer.SHARES {
      forall d | d in ds ensures Equalizer.Atoi(d.qty) < Equalizer.SHARES {
        var k :| 0 <= k < |ds| && ds[k] == d;
        assert !Splits(parse, messages[k]);
      }
    }
    Equalizer.AllInRange(ds, n);
    BroughtIsQuantity(Equalizer.PlanAll(ds), n);
    Equalizer.RunsAddUp(ds);
  }

  lemma {:induction false} PushedToOne(a: Equalizer.Push, i: nat)
    ensures PushedTo([a], i) == if a.provider == i then [a.order] else []
  {
    assert [a][..0] == [];
  }

  lemma {:induction false} PushedToThree(a: Equalizer.Push, b: Equalizer.Push, c: Equalizer.Push, i: nat)
    requires a.provider < b.provider < c.provider
    ensures PushedTo([a, b, c], i) ==
      if a.provider == i then [a.order] else if b.provider == i then [b.order] else if c.provider == i then [c.order]
          else []
  {
    assert [a, b, c] == [a] + [b] + [c];
    PushedToConcat([a] + [b], [c], i);
    PushedToConcat([a], [b], i);
    PushedToOne(a, i);
    PushedToOne(b, i);
    PushedToOne(c, i);
  }

  lemma {:induction false} PlanAllConcat(ds: seq<OrderDetails>, d: OrderDetails)
    ensures Equalizer.PlanAll(ds + [d]) == Equalizer.PlanAll(ds) + Equalizer.Plan(d)
  {
    if ds == [] {
      assert ([] + [d])[1..] == [] && [] + [d] == [d];
      assert Equalizer.Plan(d) + [] == Equalizer.Plan(d);
    } else {
      assert (ds + [d])[1..] == ds[1..] + [d];
      PlanAllConcat(ds[1..], d);
    }
  }

  /** What the splitting policy has pushed to provider `i` for these messages. */
  function SplitShare(parse: string -> OrderDetails, messages: seq<string>, i: nat): seq<OrderDetails> {
    PushedTo(Equalizer.PlanAll(Dispatch.ParseAll(parse, messages)), i)
  }

  /** The quantity in all that it has pushed to the first `n` providers. */
  function SplitTotal(parse: string -> OrderDetails, messages: seq<string>, n: nat): int {
    Brought(Equalizer.PlanAll(Dispatch.ParseAll(parse, messages)), n)
  }

  /** What it pushes there for one message. */
  function SplitOf(parse: string -> OrderDetails, message: string, i: nat): seq<OrderDetails> {
    PushedTo(Equalizer.Plan(parse(message)), i)
  }

  lemma {:induction false} NothingSplit(parse: string -> OrderDetails)
    ensures forall i: nat :: SplitShare(parse, [], i) == []
  {
  }

  lemma {:induction false} SplitShareGrows(parse: string -> OrderDetails, taken: seq<string>, order: string, i: nat)
    ensures SplitShare(parse, taken + [order], i) == SplitShare(parse, taken, i) + SplitOf(parse, order, i)
  {
    Dispatch.ParseOne(parse, taken, order);
    var ds := Dispatch.ParseAll(parse, taken);
    PlanAllConcat(ds, parse(order));
    PushedToConcat(Equalizer.PlanAll(ds), Equalizer.Plan(parse(order)), i);
  }

  /** What the latency policy routes to provider `i`, from these queue sizes on. */
  function Routed(parse: string -> OrderDetails, s: Latency.Sizes, messages: seq<string>, i: nat): seq<OrderDetails>
    decreases |messages|
  {
    if messages == [] then []
    else
      var chosen := Latency.Choose(s.q0, s.q1, s.q2);
      (if chosen == i then [parse(messages[0])] else []) + Routed(parse, s.Grow(chosen), messages[1..], i)
  }

  /** Routing one message moves it from what is still to come to what the queue holds. */
  lemma {:induction false} RoutedOn(parse: string -> OrderDetails, s: Latency.Sizes, messages: seq<string>, i: nat,
                                    had: seq<OrderDetails>, goal: seq<OrderDetails>)
    requires messages != [] && had + Routed(parse, s, messages, i) == goal
    ensures var chosen := Latency.Choose(s.q0, s.q1, s.q2);
      had + (if i == chosen then [parse(messages[0])] else []) + Routed(parse, s.Grow(chosen), messages[1..], i) == goal
  {
    var chosen := Latency.Choose(s.q0, s.q1, s.q2);
    ConcatAssociates(had, if i == chosen then [parse(messages[0])]
        else [], Routed(parse, s.Grow(chosen), messages[1..], i));
  }

  /** The parsed share of provider `i`. */
  function Share(parse: string -> OrderDetails, current: nat, messages: seq<string>, i: nat): seq<OrderDetails> {
    Dispatch.ParseAll(parse, Dispatch.Deal(current, messages, i))
  }

  lemma {:induction false} NothingShared(parse: string -> OrderDetails, current: nat)
    ensures forall i: nat :: Share(parse, current, [], i) == []
  {
  }

  lemma {:induction false} ShareGrows(parse: string -> OrderDetails, current: nat, taken: seq<string>, order: string,
                                      i: nat)
    ensures Share(parse, current, taken + [order], i) == Share(parse, current, taken, i) +
      (if Turn(current + |taken|) == i then [parse(order)] else [])
  {
    Dispatch.DealOne(current, taken, order, i);
    Dispatch.ParseOne(parse, Dispatch.Deal(current, taken, i), order);
    assert Dispatch.Deal(current, taken, i) + [] == Dispatch.Deal(current, taken, i);
  }
}
