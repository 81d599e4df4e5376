/** Ingress, the round-robin scheduler and the three executors as one interleaved system. Every
    step is one operation on one thread-safe queue, or the completion of one order; the
    scheduler and the executors take a size, and then pop that often. Messages are of any type `M`,
    and `parse` is whatever turns one into the order details `D` that a provider is given. */
module Dispatch {

  const PROVIDERS := 3

  /** Where the scheduler's loops are: testing the queue for emptiness, about to take its size, with
      `left` more pops to do in this batch, or with a popped message in hand. */
  datatype SchedulerAt<M> = Polling | Sizing | Batch(left: nat) | Holding(message: M, left: nat)

  datatype ExecutorAt<D> = Waiting | Counting | Draining(left: nat) | Executing(order: D, left: nat)

  /** `received` and `dealt` record what has come in and what has been passed on. */
  datatype System<M, D> = System(
    received: seq<M>, pending: seq<M>, scheduler: SchedulerAt<M>, current: nat, dealt: seq<M>,
    queues: seq<seq<D>>, executors: seq<ExecutorAt<D>>, executed: seq<seq<D>>)

  datatype Step<M> =
    | Receive(message: M)
    | SchedulerSeesOrders
    | SchedulerSizes
    | SchedulerPops
    | SchedulerPushes
    | ExecutorSeesOrders(i: nat)
    | ExecutorSizes(i: nat)
    | ExecutorPops(i: nat)
    | ExecutorFinishes(i: nat)

  function Start<M, D>(): System<M, D> {
    System([], [], Polling, 0, [], seq(PROVIDERS, i => []), seq(PROVIDERS, i => Waiting), seq(PROVIDERS, i => []))
  }

  ghost predicate Shaped<M, D>(s: System<M, D>) {
    |s.queues| == PROVIDERS && |s.executors| == PROVIDERS && |s.executed| == PROVIDERS && s.current < PROVIDERS
  }

  ghost predicate Enabled<M, D>(s: System<M, D>, step: Step<M>)
    requires Shaped(s)
  {
    match step
    case Receive(_) => true
    case SchedulerSeesOrders => s.scheduler.Polling? && s.pending != []
    case SchedulerSizes => s.scheduler.Sizing?
    case SchedulerPops => s.scheduler.Batch? && s.scheduler.left > 0 && s.pending != []
    case SchedulerPushes => s.scheduler.Holding?
    case ExecutorSeesOrders(i) => i < PROVIDERS && s.executors[i].Waiting? && s.queues[i] != []
    case ExecutorSizes(i) => i < PROVIDERS && s.executors[i].Counting?
    case ExecutorPops(i) => i < PROVIDERS && s.executors[i].Draining? && s.executors[i].left > 0 && s.queues[i] != []
    case ExecutorFinishes(i) => i < PROVIDERS && s.executors[i].Executing?
  }

  /** The countdown: another pop, or back to testing the queue for emptiness. */
  function NextBatch<M>(left: nat): SchedulerAt<M> {
    if left == 0 then Polling else Batch(left)
  }

  function NextDrain<D>(left: nat): ExecutorAt<D> {
    if left == 0 then Waiting else Draining(left)
  }

  ghost function Next<M, D>(parse: M -> D, s: System<M, D>, step: Step<M>): System<M, D>
    requires Shaped(s) && Enabled(s, step)
  {
    match step
    case Receive(m) => s.(received := s.received + [m], pending := s.pending + [m])
    case SchedulerSeesOrders => s.(scheduler := Sizing)
    case SchedulerSizes => s.(scheduler := NextBatch(|s.pending|))
    case SchedulerPops => s.(scheduler := Holding(s.pending[0], s.scheduler.left - 1), pending := s.pending[1..])
    case SchedulerPushes =>
      s.(scheduler := NextBatch(s.scheduler.left),
         dealt := s.dealt + [s.scheduler.message],
         queues := s.queues[s.current := s.queues[s.current] + [parse(s.scheduler.message)]],
         current := (s.current + 1) % PROVIDERS)
    case ExecutorSeesOrders(i) => s.(executors := s.executors[i := Counting])
    case ExecutorSizes(i) => s.(executors := s.executors[i := NextDrain(|s.queues[i]|)])
    case ExecutorPops(i) =>
      s.(executors := s.executors[i := Executing(s.queues[i][0], s.executors[i].left - 1)],
         queues := s.queues[i := s.queues[i][1..]])
    case ExecutorFinishes(i) =>
      s.(executors := s.executors[i := NextDrain(s.executors[i].left)],
         executed := s.executed[i := s.executed[i] + [s.executors[i].order]])
  }

  function ParseAll<M, D>(parse: M -> D, ms: seq<M>): seq<D> {
    seq(|ms|, i requires 0 <= i < |ms| => parse(ms[i]))
  }

  /** Of messages dealt round from provider `first` on, those for provider `i`; from the start these
      are the messages numbered i, i + 3, i + 6, ... */
  function Deal<M>(first: nat, messages: seq<M>, i: nat): seq<M> {
    if messages == [] then []
    else
      var n := |messages| - 1;
      Deal(first, messages[..n], i) + (if (first + n) % PROVIDERS == i then [messages[n]] else [])
  }

  /** What the scheduler has taken out of the queue but not passed on. */
  function InHand<M>(at: SchedulerAt<M>): seq<M> {
    if at.Holding? then [at.message] else []
  }

  function BeingExecuted<D>(at: ExecutorAt<D>): seq<D> {
    if at.Executing? then [at.order] else []
  }

  function SchedulerOwes<M>(at: SchedulerAt<M>): nat {
    if at.Batch? || at.Holding? then at.left else 0
  }

  function ExecutorOwes<D>(at: ExecutorAt<D>): nat {
    if at.Draining? || at.Executing? then at.left else 0
  }

  /** Nothing is lost, doubled or reordered on the way to the provider it was dealt to, the deal
      goes round in turn, and no batch still wants more than its queue holds. */
  ghost predicate Delivered<M, D>(parse: M -> D, s: System<M, D>) {
    && Shaped(s)
    && s.received == s.dealt + InHand(s.scheduler) + s.pending
    && s.current == |s.dealt| % PROVIDERS
    && SchedulerOwes(s.scheduler) <= |s.pending|
    && (s.scheduler.Batch? ==> s.scheduler.left > 0)
    && (s.scheduler.Sizing? ==> s.pending != [])
    && (forall i :: 0 <= i < PROVIDERS ==> DeliveredTo(parse, s, i))
  }

  ghost predicate DeliveredTo<M, D>(parse: M -> D, s: System<M, D>, i: nat)
    requires Shaped(s) && i < PROVIDERS
  {
    && s.executed[i] + BeingExecuted(s.executors[i]) + s.queues[i] == ParseAll(parse, Deal(0, s.dealt, i))
    && ExecutorOwes(s.executors[i]) <= |s.queues[i]|
    && (s.executors[i].Draining? ==> s.executors[i].left > 0)
    && (s.executors[i].Counting? ==> s.queues[i] != [])
  }

  lemma {:induction false} StartIsDelivered<M, D>(parse: M -> D)
    ensures Delivered(parse, Start())
  {
    var s: System<M, D> := Start();
    forall i | 0 <= i < PROVIDERS ensures DeliveredTo(parse, s, i) {
    }
  }

  lemma {:induction false} DealOne<M>(first: nat, messages: seq<M>, m: M, i: nat)
    ensures Deal(first, messages + [m], i) ==
            Deal(first, messages, i) + (if (first + |messages|) % PROVIDERS == i then [m] else [])
  {
    assert (messages + [m])[..|messages|] == messages;
  }

  lemma {:induction false} ParseOne<M, D>(parse: M -> D, ms: seq<M>, m: M)
    ensures ParseAll(parse, ms + [m]) == ParseAll(parse, ms) + [parse(m)]
  {
  }

  lemma {:induction false} SchedulerKeeps<M, D>(parse: M -> D, s: System<M, D>, step: Step<M>)
    requires Delivered(parse, s) && Enabled(s, step)
    requires step.SchedulerSeesOrders? || step.SchedulerSizes? || step.SchedulerPops? || step.Receive?
    ensures Delivered(parse, Next(parse, s, step))
  {
    var t := Next(parse, s, step);
    if step.SchedulerPops? {
      assert s.pending == [s.pending[0]] + s.pending[1..];
    }
    assert t.received == t.dealt + InHand(t.scheduler) + t.pending;
    forall i | 0 <= i < PROVIDERS ensures DeliveredTo(parse, t, i) {
      assert DeliveredTo(parse, s, i);
    }
  }

  lemma {:induction false} PushKeepsSlot<M, D>(parse: M -> D, s: System<M, D>, i: nat)
    requires Delivered(parse, s) && Enabled(s, SchedulerPushes) && i < PROVIDERS
    ensures DeliveredTo(parse, Next(parse, s, SchedulerPushes), i)
  {
    assert DeliveredTo(parse, s, i);
    var m := s.scheduler.message;
    var done := s.executed[i] + BeingExecuted(s.executors[i]);
    DealOne(0, s.dealt, m, i);
    if i == s.current {
      ParseOne(parse, Deal(0, s.dealt, i), m);
      assert done + (s.queues[i] + [parse(m)]) == done + s.queues[i] + [parse(m)];
    } else {
      assert Deal(0, s.dealt, i) + [] == Deal(0, s.dealt, i);
    }
  }

  lemma {:induction false} PushKeeps<M, D>(parse: M -> D, s: System<M, D>)
    requires Delivered(parse, s) && Enabled(s, SchedulerPushes)
    ensures Delivered(parse, Next(parse, s, SchedulerPushes))
  {
    var t := Next(parse, s, SchedulerPushes);
    forall i | 0 <= i < PROVIDERS ensures DeliveredTo(parse, t, i) {
      PushKeepsSlot(parse, s, i);
    }
    assert t.received == t.dealt + InHand(t.scheduler) + t.pending;
  }

  lemma {:induction false} ExecutorKeepsSlot<M, D>(parse: M -> D, s: System<M, D>, step: Step<M>, i: nat)
    requires Delivered(parse, s) && Enabled(s, step) && i < PROVIDERS
    requires step.ExecutorSeesOrders? || step.ExecutorSizes? || step.ExecutorPops? || step.ExecutorFinishes?
    ensures DeliveredTo(parse, Next(parse, s, step), i)
  {
    assert DeliveredTo(parse, s, i);
    if step.ExecutorPops? && i == step.i {
      assert s.queues[i] == [s.queues[i][0]] + s.queues[i][1..];
    }
  }

  lemma {:induction false} ExecutorKeeps<M, D>(parse: M -> D, s: System<M, D>, step: Step<M>)
    requires Delivered(parse, s) && Enabled(s, step)
    requires step.ExecutorSeesOrders? || step.ExecutorSizes? || step.ExecutorPops? || step.ExecutorFinishes?
    ensures Delivered(parse, Next(parse, s, step))
  {
    forall i | 0 <= i < PROVIDERS ensures DeliveredTo(parse, Next(parse, s, step), i) {
      ExecutorKeepsSlot(parse, s, step, i);
    }
  }

  lemma {:induction false} StepKeeps<M, D>(parse: M -> D, s: System<M, D>, step: Step<M>)
    requires Delivered(parse, s) && Enabled(s, step)
    ensures Delivered(parse, Next(parse, s, step))
  {
    match step
    case SchedulerPushes => PushKeeps(parse, s);
    case Receive(_) => SchedulerKeeps(parse, s, step);
    case SchedulerSeesOrders => SchedulerKeeps(parse, s, step);
    case SchedulerSizes => SchedulerKeeps(parse, s, step);
    case SchedulerPops => SchedulerKeeps(parse, s, step);
    case ExecutorSeesOrders(_) => ExecutorKeeps(parse, s, step);
    case ExecutorSizes(_) => ExecutorKeeps(parse, s, step);
    case ExecutorPops(_) => ExecutorKeeps(parse, s, step);
    case ExecutorFinishes(_) => ExecutorKeeps(parse, s, step);
  }

  // ----- Runs -----

  /** `trace` takes `s` to `t`, every step being possible when it is taken. */
  ghost predicate Runs<M, D>(parse: M -> D, s: System<M, D>, trace: seq<Step<M>>, t: System<M, D>)
    decreases |trace|
  {
    Shaped(s) &&
    if trace == [] then s == t else Enabled(s, trace[0]) && Runs(parse, Next(parse, s, trace[0]), trace[1..], t)
  }

  lemma {:induction false} RunKeeps<M, D>(parse: M -> D, s: System<M, D>, trace: seq<Step<M>>, t: System<M, D>)
    requires Delivered(parse, s) && Runs(parse, s, trace, t)
    ensures Delivered(parse, t)
    decreases |trace|
  {
    if trace != [] {
      StepKeeps(parse, s, trace[0]);
      RunKeeps(parse, Next(parse, s, trace[0]), trace[1..], t);
    }
  }

  // ----- What every interleaving guarantees -----

  lemma {:induction false} DealConcat<M>(a: seq<M>, b: seq<M>, i: nat)
    ensures Deal(0, a, i) <= Deal(0, a + b, i)
    decreases |b|
  {
    if b == [] {
      assert a + b == a;
    } else {
      var n := |b| - 1;
      DealConcat(a, b[..n], i);
      assert a + b == (a + b[..n]) + [b[n]];
      DealOne(0, a + b[..n], b[n], i);
    }
  }

  lemma {:induction false} ParsePrefix<M, D>(parse: M -> D, a: seq<M>, b: seq<M>)
    requires a <= b
    ensures ParseAll(parse, a) <= ParseAll(parse, b)
  {
  }

  /** In every state of every run each provider has executed, in the order they came in, a first
      part of exactly the messages numbered i, i + 3, i + 6, ... of all that were received,
      whatever the batches and the interleaving. */
  lemma {:induction false} ExecutedInOrder<M, D>(parse: M -> D, trace: seq<Step<M>>, t: System<M, D>, i: nat)
    requires Runs(parse, Start(), trace, t) && i < PROVIDERS
    ensures Shaped(t) && t.executed[i] <= ParseAll(parse, Deal(0, t.received, i))
  {
    StartIsDelivered(parse);
    RunKeeps(parse, Start(), trace, t);
    assert DeliveredTo(parse, t, i);
    DealConcat(t.dealt, InHand(t.scheduler) + t.pending, i);
    assert t.dealt + (InHand(t.scheduler) + t.pending) == t.received;
    ParsePrefix(parse, Deal(0, t.dealt, i), Deal(0, t.received, i));
  }

  lemma {:induction false} ParseConcat<M, D>(parse: M -> D, a: seq<M>, b: seq<M>)
    ensures ParseAll(parse, a + b) == ParseAll(parse, a) + ParseAll(parse, b)
  {
  }

  /** What provider `i` has been dealt, read and counted. */
  ghost function HandOf<M, D>(parse: M -> D, messages: seq<M>, i: nat): multiset<D> {
    multiset(ParseAll(parse, Deal(0, messages, i)))
  }

  lemma {:induction false} HandOfNext<M, D>(parse: M -> D, before: seq<M>, last: M, i: nat)
    ensures HandOf(parse, before + [last], i) ==
            HandOf(parse, before, i) + (if |before| % PROVIDERS == i then multiset{parse(last)} else multiset{})
  {
    DealOne(0, before, last, i);
    if |before| % PROVIDERS == i {
      ParseOne(parse, Deal(0, before, i), last);
    } else {
      assert Deal(0, before, i) + [] == Deal(0, before, i);
    }
  }

  /** The three hands are the deck. */
  lemma {:induction false} DealSplits<M, D>(parse: M -> D, messages: seq<M>)
    ensures HandOf(parse, messages, 0) + HandOf(parse, messages, 1) + HandOf(parse, messages, 2) ==
            multiset(ParseAll(parse, messages))
    decreases |messages|
  {
    if messages != [] {
      var before, last := messages[..|messages| - 1], messages[|messages| - 1];
      assert messages == before + [last];
      DealSplits(parse, before);
      ParseOne(parse, before, last);
      HandOfNext(parse, before, last, 0);
      HandOfNext(parse, before, last, 1);
      HandOfNext(parse, before, last, 2);
    }
  }

  /** Exactly once: in every state of every run, what has been executed, is being executed or
      waits in a provider queue, together with what the scheduler holds and what is pending, is
      what was received. */
  lemma {:induction false} ExactlyOnce<M, D>(parse: M -> D, trace: seq<Step<M>>, t: System<M, D>)
    requires Runs(parse, Start(), trace, t)
    ensures Shaped(t)
    ensures multiset(ParseAll(parse, t.received)) ==
      multiset(t.executed[0] + BeingExecuted(t.executors[0]) + t.queues[0]) +
      multiset(t.executed[1] + BeingExecuted(t.executors[1]) + t.queues[1]) +
      multiset(t.executed[2] + BeingExecuted(t.executors[2]) + t.queues[2]) +
      multiset(ParseAll(parse, InHand(t.scheduler))) + multiset(ParseAll(parse, t.pending))
  {
    StartIsDelivered(parse);
    RunKeeps(parse, Start(), trace, t);
    assert DeliveredTo(parse, t, 0) && DeliveredTo(parse, t, 1) && DeliveredTo(parse, t, 2);
    DealSplits(parse, t.dealt);
    ParseConcat(parse, t.dealt + InHand(t.scheduler), t.pending);
    ParseConcat(parse, t.dealt, InHand(t.scheduler));
  }

  /** A batch never blocks: in every state of every run, whoever still has pops to do finds its
      queue not empty, because nobody else takes from it. */
  lemma {:induction false} BatchesNeverBlock<M, D>(parse: M -> D, trace: seq<Step<M>>, t: System<M, D>)
    requires Runs(parse, Start(), trace, t)
    ensures Shaped(t)
    ensures t.scheduler.Batch? ==> Enabled(t, SchedulerPops)
    ensures forall i :: 0 <= i < PROVIDERS && t.executors[i].Draining? ==> Enabled(t, ExecutorPops(i))
  {
    StartIsDelivered(parse);
    RunKeeps(parse, Start(), trace, t);
    forall i | 0 <= i < PROVIDERS && t.executors[i].Draining? ensures Enabled(t, ExecutorPops(i)) {
      assert DeliveredTo(parse, t, i);
    }
  }

  /** How many of `n` messages provider `i` is dealt. */
  function Hand(n: nat, i: nat): nat {
    if n <= i then 0 else (n - i - 1) / 3 + 1
  }

  lemma {:induction false} HandGrows(n: nat, i: nat)
    requires i < 3
    ensures Hand(n + 1, i) == Hand(n, i) + (if n % 3 == i then 1 else 0)
  {
    var q, r := n / 3, n % 3;
    assert n == 3 * q + r;
    if i <= n {
      assert (n - i) / 3 == if r >= i then q else q - 1;
      if i < n {
        assert (n - i - 1) / 3 == if r > i then q else q - 1;
      }
    }
  }

  lemma {:induction false} DealCounts<M>(messages: seq<M>, i: nat)
    requires i < PROVIDERS
    ensures |Deal(0, messages, i)| == Hand(|messages|, i)
    decreases |messages|
  {
    if messages != [] {
      DealCounts(messages[..|messages| - 1], i);
      HandGrows(|messages| - 1, i);
    }
  }

  /** Fair shares: at any time, over any run, the providers' totals differ by at most one. */
  lemma {:induction false} SharesDifferByOne<M, D>(parse: M -> D, trace: seq<Step<M>>, t: System<M, D>, i: nat, j: nat)
    requires Runs(parse, Start(), trace, t) && i < PROVIDERS && j < PROVIDERS
    ensures Shaped(t)
    ensures var a := |t.executed[i] + BeingExecuted(t.executors[i]) + t.queues[i]|;
      var b := |t.executed[j] + BeingExecuted(t.executors[j]) + t.queues[j]|;
      -1 <= a - b <= 1
  {
    StartIsDelivered(parse);
    RunKeeps(parse, Start(), trace, t);
    assert DeliveredTo(parse, t, i) && DeliveredTo(parse, t, j);
    DealCounts(t.dealt, i);
    DealCounts(t.dealt, j);
  }

  // ----- Progress -----

  function SchedulerRank<M>(at: SchedulerAt<M>): nat {
    match at
    case Polling => 2
    case Sizing => 1
    case Batch(_) => 0
    case Holding(_, _) => 7
  }

  function ExecutorRank<D>(at: ExecutorAt<D>): nat {
    match at
    case Waiting => 2
    case Counting => 1
    case Draining(_) => 0
    case Executing(_, _) => 3
  }

  /** Work left: each message weighs less at every place it moves on to. */
  function Work<M, D>(s: System<M, D>): nat
    requires |s.queues| == PROVIDERS && |s.executors| == PROVIDERS
  {
    10 * |s.pending| + SchedulerRank(s.scheduler)
    + 4 * |s.queues[0]| + 4 * |s.queues[1]| + 4 * |s.queues[2]|
    + ExecutorRank(s.executors[0]) + ExecutorRank(s.executors[1]) + ExecutorRank(s.executors[2])
  }

  ghost predicate Quiet<M, D>(s: System<M, D>)
    requires Shaped(s)
  {
    s.scheduler.Polling? && s.pending == [] &&
    forall i :: 0 <= i < PROVIDERS ==> s.executors[i].Waiting? && s.queues[i] == []
  }

  /** Every step but the arrival of a message uses up work. */
  lemma {:induction false} StepsUseWork<M, D>(parse: M -> D, s: System<M, D>, step: Step<M>)
    requires Delivered(parse, s) && Enabled(s, step) && !step.Receive?
    ensures Work(Next(parse, s, step)) < Work(s)
  {
    assert DeliveredTo(parse, s, 0) && DeliveredTo(parse, s, 1) && DeliveredTo(parse, s, 2);
  }

  /** As long as the system is not quiet, some thread can move. */
  lemma {:induction false} SomeoneCanMove<M, D>(parse: M -> D, s: System<M, D>) returns (step: Step<M>)
    requires Delivered(parse, s) && !Quiet(s)
    ensures Enabled(s, step) && !step.Receive?
  {
    match s.scheduler
    case Sizing => step := SchedulerSizes;
    case Batch(_) => step := SchedulerPops;
    case Holding(_, _) => step := SchedulerPushes;
    case Polling =>
      if s.pending != [] {
        step := SchedulerSeesOrders;
      } else {
        var i :| 0 <= i < PROVIDERS && !(s.executors[i].Waiting? && s.queues[i] == []);
        assert DeliveredTo(parse, s, i);
        match s.executors[i]
        case Waiting => step := ExecutorSeesOrders(i);
        case Counting => step := ExecutorSizes(i);
        case Draining(_) => step := ExecutorPops(i);
        case Executing(_, _) => step := ExecutorFinishes(i);
      }
  }

  /** When messages stop coming, every way of going on comes to rest within `Work` steps, and
      then each provider has executed exactly its share of all that was received. */
  lemma {:induction false} EveryRunDrains<M, D>(parse: M -> D, s: System<M, D>, trace: seq<Step<M>>, t: System<M, D>)
    requires Delivered(parse, s) && Runs(parse, s, trace, t) && forall k :: 0 <= k < |trace| ==> !trace[k].Receive?
    ensures Shaped(t) && |trace| + Work(t) <= Work(s) && t.received == s.received
    ensures Quiet(t) <==> forall step :: Enabled(t, step) ==> step.Receive?
    ensures Quiet(t) ==> forall i :: 0 <= i < PROVIDERS ==> t.executed[i] == ParseAll(parse, Deal(0, s.received, i))
    decreases |trace|
  {
    if trace == [] {
      Rest(parse, t);
    } else {
      StepKeeps(parse, s, trace[0]);
      StepsUseWork(parse, s, trace[0]);
      EveryRunDrains(parse, Next(parse, s, trace[0]), trace[1..], t);
    }
  }

  lemma {:induction false} Rest<M, D>(parse: M -> D, t: System<M, D>)
    requires Delivered(parse, t)
    ensures Quiet(t) <==> forall step :: Enabled(t, step) ==> step.Receive?
    ensures Quiet(t) ==> forall i :: 0 <= i < PROVIDERS ==> t.executed[i] == ParseAll(parse, Deal(0, t.received, i))
  {
    if !Quiet(t) {
      var step := SomeoneCanMove(parse, t);
    } else {
      assert t.received == t.dealt;
      forall i | 0 <= i < PROVIDERS ensures t.executed[i] == ParseAll(parse, Deal(0, t.received, i)) {
        assert DeliveredTo(parse, t, i);
        assert t.executed[i] + [] + [] == t.executed[i];
      }
    }
  }
}
