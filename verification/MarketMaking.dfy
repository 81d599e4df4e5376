/** The position a market maker is driven to by its quotes: the decision of
    `executeMarketMakingStrategy` as a step on a 32-bit position. */
module MarketMaking {
  import opened Numbers

  const CLIP := 100

  /** What one call is told: whether the quoted spread exceeds the threshold, and the sizes. */
  datatype Quote = Quote(wide: bool, bidQuantity: nat, askQuantity: nat)

  datatype Decision = Hold | Buy | Sell

  function Decide(position: int, limit: int, wide: bool): Decision {
    if position >= limit && position <= -limit then Hold
    else if !wide then Hold
    else if position < limit then Buy
    else if position > -limit then Sell
    else Hold
  }

  function Clip(quantity: nat): nat {
    if quantity < CLIP then quantity else CLIP
  }

  function AfterBuying(position: int, askQuantity: nat): int {
    Wrap32(position + Clip(askQuantity))
  }

  function AfterSelling(position: int, bidQuantity: nat): int {
    Wrap32(position - Clip(bidQuantity))
  }

  function Move(position: int, limit: int, q: Quote): int {
    match Decide(position, limit, q.wide)
    case Hold => position
    case Buy => AfterBuying(position, q.askQuantity)
    case Sell => AfterSelling(position, q.bidQuantity)
  }

  /** Below the limit a wide quote is bought, and at or above it sold, unless the position is also at
      or below the negative limit; nothing else is traded. */
  lemma {:induction false} DecideExactly(position: int, limit: int, wide: bool)
    ensures Decide(position, limit, wide) == Buy <==> wide && position < limit
    ensures Decide(position, limit, wide) == Sell <==> wide && position >= limit && position > -limit
  {
  }

  /** A wide quote moves the position up below the limit, and down from it on, by the size quoted on
      the other side but at most 100, as far as 32 bits hold it. */
  lemma {:induction false} MoveExactly(position: int, limit: int, q: Quote)
    requires q.wide
    ensures position < limit ==>
      Move(position, limit, q) == Wrap32(position + if q.askQuantity < 100 then q.askQuantity else 100)
    ensures position >= limit && position > -limit ==>
      Move(position, limit, q) == Wrap32(position - if q.bidQuantity < 100 then q.bidQuantity else 100)
  {
    DecideExactly(position, limit, q.wide);
  }

  /** For a positive limit with room for a clip nothing wraps. */
  lemma {:induction false} WideQuotesMove(position: int, limit: int, q: Quote)
    requires q.wide && 0 < limit <= 0x8000_0000 - 100 && -0x8000_0000 <= position < 0x8000_0000
    ensures position < limit ==>
      Move(position, limit, q) == position + (if q.askQuantity < 100 then q.askQuantity else 100)
    ensures position >= limit ==>
      Move(position, limit, q) == position - (if q.bidQuantity < 100 then q.bidQuantity else 100)
  {
    MoveExactly(position, limit, q);
  }

  function Run(position: int, limit: int, qs: seq<Quote>): int
    decreases |qs|
  {
    if qs == [] then position else Run(Move(position, limit, qs[0]), limit, qs[1..])
  }

  function Floor(limit: int): int {
    if limit < CLIP then limit - CLIP else 0
  }

  ghost predicate InBand(position: int, limit: int) {
    Floor(limit) <= position < limit + CLIP
  }

  /** Once at or above the upper stretch of the band, a position never leaves it. */
  ghost predicate InUpperBand(position: int, limit: int) {
    limit - CLIP <= position < limit + CLIP
  }

  lemma {:induction false} MoveStaysInBand(position: int, limit: int, q: Quote)
    requires 0 < limit <= TWO_TO_THE_31 - CLIP
    ensures InBand(position, limit) ==> InBand(Move(position, limit, q), limit)
    ensures InUpperBand(position, limit) ==> InUpperBand(Move(position, limit, q), limit)
  {
  }

  /** For a positive limit, every run from a flat position stays in the band, and once it has
      come within one clip of the limit it stays within one clip of it. */
  lemma {:induction false} RunStaysInBand(position: int, limit: int, qs: seq<Quote>)
    requires 0 < limit <= TWO_TO_THE_31 - CLIP
    ensures InBand(position, limit) ==> InBand(Run(position, limit, qs), limit)
    ensures InUpperBand(position, limit) ==> InUpperBand(Run(position, limit, qs), limit)
    decreases |qs|
  {
    if qs != [] {
      MoveStaysInBand(position, limit, qs[0]);
      RunStaysInBand(Move(position, limit, qs[0]), limit, qs[1..]);
    }
  }

  lemma {:induction false} RunConcat(position: int, limit: int, a: seq<Quote>, b: seq<Quote>)
    ensures Run(position, limit, a + b) == Run(Run(position, limit, a), limit, b)
    decreases |a|
  {
    if a == [] {
      assert a + b == b;
    } else {
      assert (a + b)[1..] == a[1..] + b;
      RunConcat(Move(position, limit, a[0]), limit, a[1..], b);
    }
  }

  /** Every position below the limit is reached by some run of one-share buys. */
  lemma {:induction false} EveryPositionIsReached(target: int, limit: int) returns (qs: seq<Quote>)
    requires 0 <= target < limit < TWO_TO_THE_31
    ensures Run(0, limit, qs) == target
    decreases target
  {
    qs := [];
    if target > 0 {
      var before := EveryPositionIsReached(target - 1, limit);
      var last := [Quote(true, 0, 1)];
      qs := before + last;
      RunConcat(0, limit, before, last);
      assert last[1..] == [];
      assert Run(target - 1, limit, last) == Run(Move(target - 1, limit, last[0]), limit, []);
    }
  }

  /** From the limit every position down to one clip below it is reached by one sale. */
  lemma {:induction false} EveryPositionIsSoldTo(target: int, limit: int) returns (qs: seq<Quote>)
    requires 0 < limit <= TWO_TO_THE_31 - CLIP && limit - CLIP <= target <= limit
    ensures Run(limit, limit, qs) == target
  {
    qs := [Quote(true, limit - target, 0)];
    WideQuotesMove(limit, limit, qs[0]);
    assert qs[1..] == [];
    assert Run(limit, limit, qs) == Run(Move(limit, limit, qs[0]), limit, []);
  }

  /** The band holds on all runs exactly for the limits that leave room for one clip below the
      largest 32-bit position; any larger limit has a run that wraps to a negative position. */
  lemma {:induction false} BandHoldsExactly(limit: int)
    requires 0 < limit < TWO_TO_THE_31
    ensures (forall qs :: InBand(Run(0, limit, qs), limit)) <==> limit <= TWO_TO_THE_31 - CLIP
  {
    if limit <= TWO_TO_THE_31 - CLIP {
      forall qs ensures InBand(Run(0, limit, qs), limit) {
        RunStaysInBand(0, limit, qs);
      }
    } else {
      var qs := EveryPositionIsReached(limit - 1, limit);
      var last := [Quote(true, 0, CLIP)];
      RunConcat(0, limit, qs, last);
      assert last[1..] == [];
      assert Run(limit - 1, limit, last) == Run(Move(limit - 1, limit, last[0]), limit, []);
      assert !InBand(Run(0, limit, qs + last), limit);
    }
  }
}
