/** The latency-driven policy on queue sizes, with the unsigned subtraction it is written with. */
module Latency {
  import opened Numbers

  /** The fastest provider while it has at most 7 waiting; otherwise the second when the third is
      ahead of it by 10 in unsigned arithmetic; otherwise the third. */
  function Choose(size0: nat, size1: nat, size2: nat): nat {
    if size0 <= 7 then 0
    else if (size2 - size1) % TWO_TO_THE_64 >= 10 then 1
    else 2
  }

  datatype Sizes = Sizes(q0: nat, q1: nat, q2: nat)
  {
    function Grow(provider: nat): Sizes {
      if provider == 0 then this.(q0 := q0 + 1)
      else if provider == 1 then this.(q1 := q1 + 1)
      else this.(q2 := q2 + 1)
    }
  }

  /** Queue sizes that fit the platform's memory. */
  ghost predicate Real(s: Sizes) {
    s.q0 < TWO_TO_THE_64 / 2 && s.q1 < TWO_TO_THE_64 / 2 && s.q2 < TWO_TO_THE_64 / 2
  }

  /** An order is routed on sizes read earlier, since when executors may have taken orders away;
      or an executor takes one. */
  datatype Event = Route(read: Sizes) | Take(provider: nat)

  ghost predicate Possible(s: Sizes, e: Event) {
    match e
    case Route(r) => s.q0 <= r.q0 && s.q1 <= r.q1 && s.q2 <= r.q2
    case Take(0) => s.q0 > 0
    case Take(1) => s.q1 > 0
    case Take(i) => i == 2 && s.q2 > 0
  }

  ghost function After(s: Sizes, e: Event): Sizes
    requires Possible(s, e)
  {
    match e
    case Route(r) => s.Grow(Choose(r.q0, r.q1, r.q2))
    case Take(0) => s.(q0 := s.q0 - 1)
    case Take(1) => s.(q1 := s.q1 - 1)
    case Take(_) => s.(q2 := s.q2 - 1)
  }

  ghost predicate Runs(s: Sizes, events: seq<Event>, t: Sizes)
    decreases |events|
  {
    if events == [] then s == t
    else Possible(s, events[0]) && Runs(After(s, events[0]), events[1..], t)
  }

  /** However stale the sizes are and whatever the executors take, the fastest provider never
      has more than 8 orders waiting. */
  lemma {:induction false} FastestIsBounded(s: Sizes, events: seq<Event>, t: Sizes)
    requires s.q0 <= 8 && Runs(s, events, t)
    ensures t.q0 <= 8
    decreases |events|
  {
    if events != [] {
      FastestIsBounded(After(s, events[0]), events[1..], t);
    }
  }

  /** `n` orders routed with nobody taking any. */
  function Fill(s: Sizes, n: nat): Sizes
    decreases n
  {
    if n == 0 then s else Fill(s.Grow(Choose(s.q0, s.q1, s.q2)), n - 1)
  }

  /** Left alone from empty queues, the third provider's queue is never behind the second's and
      never more than 10 ahead of it. */
  lemma {:induction false} GapIsBounded(s: Sizes, n: nat)
    requires s.q0 <= 8 && 0 <= s.q2 - s.q1 <= 10
    ensures var t := Fill(s, n); t.q0 <= 8 && 0 <= t.q2 - t.q1 <= 10
    decreases n
  {
    if n > 0 {
      GapIsBounded(s.Grow(Choose(s.q0, s.q1, s.q2)), n - 1);
    }
  }

  /** What the policy says about the two slower providers. */
  function Intended(size0: nat, size1: nat, size2: nat): nat {
    if size0 <= 7 then 0 else if size2 - size1 >= 10 then 1 else 2
  }

  /** The unsigned subtraction does what the signed one says exactly unless the fastest provider
      is full and the third queue is shorter than the second: then the order goes to the longer
      of the two. */
  lemma {:induction false} UnsignedGapExactly(s: Sizes)
    requires Real(s)
    ensures Choose(s.q0, s.q1, s.q2) == Intended(s.q0, s.q1, s.q2) <==> s.q0 <= 7 || s.q1 <= s.q2
    ensures s.q0 > 7 && s.q2 < s.q1 ==> Choose(s.q0, s.q1, s.q2) == 1
    ensures Choose(s.q0, s.q1, s.q2) == 0 <==> s.q0 <= 7
    ensures Choose(s.q0, s.q1, s.q2) == 1 <==> s.q0 > 7 && (s.q2 < s.q1 || s.q2 - s.q1 >= 10)
    ensures Choose(s.q0, s.q1, s.q2) == 2 <==> s.q0 > 7 && 0 <= s.q2 - s.q1 < 10
  {
    if s.q2 < s.q1 {
      assert (s.q2 - s.q1) % TWO_TO_THE_64 == s.q2 - s.q1 + TWO_TO_THE_64;
    } else {
      assert (s.q2 - s.q1) % TWO_TO_THE_64 == s.q2 - s.q1;
    }
  }

  /** From there the imbalance only grows: until an executor takes an order, all further orders
      pile onto the longer queue and none reaches the shorter one. */
  lemma {:induction false} ImbalanceGrows(s: Sizes, n: nat)
    requires s.q0 > 7 && s.q2 < s.q1 && s.q1 + n < TWO_TO_THE_64 / 2
    ensures Fill(s, n) == s.(q1 := s.q1 + n)
    decreases n
  {
    if n > 0 {
      assert (s.q2 - s.q1) % TWO_TO_THE_64 == s.q2 - s.q1 + TWO_TO_THE_64;
      ImbalanceGrows(s.(q1 := s.q1 + 1), n - 1);
    }
  }
}
