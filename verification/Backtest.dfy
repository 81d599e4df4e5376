/** The backtester's ledger: whole cash and whole shares, with every fraction truncated. */
module Backtest {
  import opened Numbers
  import opened Orders
  import opened Squares

  datatype Bar = Bar(price: real, shortEMA: real, longSMA: real)
  datatype Action = Hold | Bought | Sold
  datatype Ledger = Ledger(amount: int, holding: int, open: bool)

  /** One line of the trade log. */
  datatype Entry = Entry(action: Action, price: real, shares: int)

  function ActionOf(l: Ledger, bar: Bar): Action {
    if !l.open && bar.shortEMA > bar.longSMA then Bought
    else if l.open && bar.shortEMA < bar.longSMA then Sold
    else Hold
  }

  function Buy(l: Ledger, price: real): Ledger
    requires price != 0.0
  {
    var holding := Truncate(l.holding as real + Over(l.amount as real, price));
    Ledger(Truncate(l.amount as real - Times(price, holding as real)), holding, true)
  }

  function Sell(l: Ledger, price: real): Ledger {
    Ledger(Truncate(l.amount as real + Times(price, l.holding as real)), 0, false)
  }

  function React(l: Ledger, bar: Bar): Ledger
    requires bar.price != 0.0
  {
    match ActionOf(l, bar)
    case Bought => Buy(l, bar.price)
    case Sold => Sell(l, bar.price)
    case Hold => l
  }

  /** No price is zero: a purchase divides by it. */
  predicate Quoted(bars: seq<Bar>) {
    forall i :: 0 <= i < |bars| ==> bars[i].price != 0.0
  }

  predicate Priced(bars: seq<Bar>) {
    forall i :: 0 <= i < |bars| ==> bars[i].price > 0.0
  }

  function ReactAll(l: Ledger, bars: seq<Bar>): Ledger
    requires Quoted(bars)
    decreases bars
  {
    if bars == [] then l else ReactAll(React(l, bars[0]), bars[1..])
  }

  /** What one bar adds to the log: shares bought, or shares sold. */
  function EntryOf(l: Ledger, bar: Bar): seq<Entry>
    requires bar.price != 0.0
  {
    match ActionOf(l, bar)
    case Bought => [Entry(Bought, bar.price, Buy(l, bar.price).holding)]
    case Sold => [Entry(Sold, bar.price, l.holding)]
    case Hold => []
  }

  function Log(l: Ledger, bars: seq<Bar>): seq<Entry>
    requires Quoted(bars)
    decreases bars
  {
    if bars == [] then [] else EntryOf(l, bars[0]) + Log(React(l, bars[0]), bars[1..])
  }

  /** The chart row of one kind of action: the price at each bar that takes it. */
  function Marks(l: Ledger, bars: seq<Bar>, action: Action): seq<Option<real>>
    requires Quoted(bars)
    decreases bars
  {
    if bars == [] then []
    else
      [if ActionOf(l, bars[0]) == action then Some(bars[0].price)
          else None] + Marks(React(l, bars[0]), bars[1..], action)
  }

  lemma {:induction false} MarksNext(l: Ledger, bars: seq<Bar>, i: nat, action: Action, row: seq<Option<real>>)
    requires Quoted(bars) && i < |bars|
    ensures
      var mark := if ActionOf(l, bars[i]) == action then Some(bars[i].price) else None;
      row + Marks(l, bars[i..], action) == row + [mark] + Marks(React(l, bars[i]), bars[i + 1..], action)
  {
    assert bars[i..][1..] == bars[i + 1..];
  }

  /** Cash that the log moves, without any rounding. */
  function CashFlow(log: seq<Entry>): real {
    if log == [] then 0.0
    else
      var value := Times(log[0].price, log[0].shares as real);
      (if log[0].action == Sold then value else -value) + CashFlow(log[1..])
  }

  /** What the ledger is worth at a price. */
  function Wealth(l: Ledger, price: real): real {
    l.amount as real + Times(price, l.holding as real)
  }

  predicate Sound(l: Ledger) {
    l.amount >= 0 && l.holding >= 0 && (!l.open ==> l.holding == 0)
  }

  lemma {:induction false} Affordable(cash: real, price: real, shares: int)
    requires cash >= 0.0 && price > 0.0 && shares == Truncate(Over(cash, price))
    ensures shares >= 0 && Times(price, shares as real) <= cash < Times(price, (shares + 1) as real)
  {
    var q := Over(cash, price);
    OverTimes(cash, price);
    if q < 0.0 {
      Positive(-q, price, -q * price);
    }
    SameSign(q - shares as real, price, (q - shares as real) * price);
    Positive((shares + 1) as real - q, price, ((shares + 1) as real - q) * price);
  }

  /** A purchase spends on as many whole shares as the cash reaches, and leaves the whole part of
      the rest. */
  lemma {:induction false} BuySpendsAll(l: Ledger, price: real)
    requires Sound(l) && !l.open && price > 0.0
    ensures
      var after := Buy(l, price);
      && Sound(after)
      && Times(price, after.holding as real) <= l.amount as real < Times(price, (after.holding + 1) as real)
      && 0.0 <= Wealth(l, price) - Wealth(after, price) < 1.0
  {
    var after := Buy(l, price);
    Affordable(l.amount as real, price, after.holding);
    Zero(l.holding as real, price, Times(price, l.holding as real));
  }

  lemma {:induction false} SellTakesAll(l: Ledger, price: real)
    requires Sound(l) && price > 0.0
    ensures
      var after := Sell(l, price);
      && Sound(after) && after.amount >= l.amount
      && 0.0 <= Wealth(l, price) - Wealth(after, price) < 1.0
  {
    var after := Sell(l, price);
    SameSign(price, l.holding as real, Times(price, l.holding as real));
    Zero(after.holding as real, price, Times(price, after.holding as real));
  }

  /** Cash and shares never go negative, no shares are held without a position, and each trade
      costs less than one unit of wealth at its own price. */
  lemma {:induction false} ReactKeeps(l: Ledger, bar: Bar)
    requires Sound(l) && bar.price > 0.0
    ensures Sound(React(l, bar))
    ensures 0.0 <= Wealth(l, bar.price) - Wealth(React(l, bar), bar.price) < 1.0
    ensures ActionOf(l, bar) == Hold ==> React(l, bar) == l
  {
    match ActionOf(l, bar)
    case Bought => BuySpendsAll(l, bar.price);
    case Sold => SellTakesAll(l, bar.price);
    case Hold =>
  }

  /** One bar moves the cash by what its log line says, less a fraction. */
  lemma {:induction false} EntryMatches(l: Ledger, bar: Bar)
    requires Sound(l) && bar.price > 0.0
    ensures
      var lost := l.amount as real + CashFlow(EntryOf(l, bar)) - React(l, bar).amount as real;
      0.0 <= lost && (EntryOf(l, bar) == [] ==> lost == 0.0) && (EntryOf(l, bar) != [] ==> lost < 1.0)
  {
    match ActionOf(l, bar)
    case Bought =>
      BuySpendsAll(l, bar.price);
      Zero(l.holding as real, bar.price, Times(bar.price, l.holding as real));
      assert EntryOf(l, bar)[1..] == [];
    case Sold =>
      SellTakesAll(l, bar.price);
      var after := Sell(l, bar.price);
      Zero(after.holding as real, bar.price, Times(bar.price, after.holding as real));
      assert EntryOf(l, bar)[1..] == [];
    case Hold =>
  }

  lemma {:induction false} CashFlowPrefix(l: Ledger, bar: Bar, rest: seq<Entry>)
    requires bar.price != 0.0
    ensures CashFlow(EntryOf(l, bar) + rest) == CashFlow(EntryOf(l, bar)) + CashFlow(rest)
  {
    var entry := EntryOf(l, bar);
    if entry == [] {
      assert entry + rest == rest;
    } else {
      assert (entry + rest)[1..] == rest && entry[1..] == [];
    }
  }

  /** Over a whole run the ledger stays sound, and against the exact cash its trades moved it is
      short by less than one unit a trade, and never ahead. */
  lemma {:induction false} RunLosesLessThanItsTrades(l: Ledger, bars: seq<Bar>)
    requires Sound(l) && Priced(bars)
    ensures Sound(ReactAll(l, bars))
    ensures
      var log := Log(l, bars);
      var lost := l.amount as real + CashFlow(log) - ReactAll(l, bars).amount as real;
      0.0 <= lost && (log == [] ==> lost == 0.0) && (log != [] ==> lost < |log| as real)
    decreases bars
  {
    if bars != [] {
      var next := React(l, bars[0]);
      ReactKeeps(l, bars[0]);
      RunLosesLessThanItsTrades(next, bars[1..]);
      EntryMatches(l, bars[0]);
      CashFlowPrefix(l, bars[0], Log(next, bars[1..]));
    }
  }

  /** Purchases and sales take turns, and every sale is of exactly the shares last bought. */
  predicate TakesTurns(log: seq<Entry>, open: bool, holding: int) {
    log == [] ||
    (if open then log[0].action == Sold && log[0].shares == holding && TakesTurns(log[1..], false, 0)
     else log[0].action == Bought && TakesTurns(log[1..], true, log[0].shares))
  }

  lemma {:induction false} LogTakesTurns(l: Ledger, bars: seq<Bar>)
    requires Sound(l) && Priced(bars)
    ensures TakesTurns(Log(l, bars), l.open, l.holding)
    decreases bars
  {
    if bars != [] {
      var next := React(l, bars[0]);
      ReactKeeps(l, bars[0]);
      LogTakesTurns(next, bars[1..]);
      var rest := Log(next, bars[1..]);
      if EntryOf(l, bars[0]) == [] {
        assert Log(l, bars) == rest;
      } else {
        assert Log(l, bars)[1..] == rest;
      }
    }
  }

  /** Read by position: the trades of a run that starts without a position are purchase, sale,
      purchase, sale, each sale of the shares of the purchase before it. */
  lemma {:induction false} TurnsByPosition(log: seq<Entry>, k: nat)
    requires TakesTurns(log, false, 0) && k < |log|
    ensures log[k].action == if k % 2 == 0 then Bought else Sold
    ensures k % 2 == 1 ==> log[k].shares == log[k - 1].shares
    decreases k
  {
    if k >= 2 {
      assert log[1..][1..] == log[2..];
      TurnsByPosition(log[2..], k - 2);
    }
  }

  /** Without a position a short average above the long one buys, and with one a short average below
      the long one sells; the price is marked in the row of what was done. */
  ghost predicate FollowsSignal(open: bool, stays: bool, bar: Bar, buy: Option<real>, sell: Option<real>) {
    && stays == (if open then bar.shortEMA >= bar.longSMA else bar.shortEMA > bar.longSMA)
    && buy == (if !open && bar.shortEMA > bar.longSMA then Some(bar.price) else None)
    && sell == (if open && bar.shortEMA < bar.longSMA then Some(bar.price) else None)
  }

  /** A run told bar by bar: `open` says whether a position is open before each, and at the end. */
  ghost predicate FollowsSignals(open: seq<bool>, bars: seq<Bar>, buys: seq<Option<real>>, sells: seq<Option<real>>) {
    && |open| == |bars| + 1 && |buys| == |sells| == |bars|
    && forall i :: 0 <= i < |bars| ==> FollowsSignal(open[i], open[i + 1], bars[i], buys[i], sells[i])
  }

  lemma {:induction false} MarksFollowSignals(l: Ledger, bars: seq<Bar>) returns (open: seq<bool>)
    requires Quoted(bars)
    ensures FollowsSignals(open, bars, Marks(l, bars, Bought), Marks(l, bars, Sold))
    ensures open[0] == l.open && open[|bars|] == ReactAll(l, bars).open
    decreases bars
  {
    if bars == [] {
      return [l.open];
    }
    var rest := MarksFollowSignals(React(l, bars[0]), bars[1..]);
    open := [l.open] + rest;
    var buys, sells := Marks(l, bars, Bought), Marks(l, bars, Sold);
    forall i | 1 <= i < |bars| ensures FollowsSignal(open[i], open[i + 1], bars[i], buys[i], sells[i]) {
      assert FollowsSignal(rest[i - 1], rest[i], bars[1..][i - 1], buys[1..][i - 1], sells[1..][i - 1]);
    }
  }

  // ----- The program -----

  class BackTester {
    var amount: int
    var holding: int
    var positionOpen: bool
    var timeIndex: seq<int>
    var buyPoints: seq<Option<real>>
    var sellPoints: seq<Option<real>>

    ghost function Books(): Ledger
      reads this
    {
      Ledger(amount, holding, positionOpen)
    }

    ghost predicate Valid()
      reads this
    {
      |buyPoints| == |sellPoints| == |timeIndex|
    }

    constructor ()
      ensures Valid() && Books() == Ledger(1000, 0, false) && timeIndex == []
    {
      amount, holding, positionOpen := 1000, 0, false;
      timeIndex, buyPoints, sellPoints := [], [], [];
    }

    /** A purchase or a sale also marks its price at the last index of the chart. */
    method ExecuteTradingLogic(price: real, shortEMA: real, longSMA: real)
      requires Valid() && timeIndex != [] && price != 0.0
      modifies this
      ensures Valid() && timeIndex == old(timeIndex)
      ensures Books() == React(old(Books()), Bar(price, shortEMA, longSMA))
      ensures var buys, sells := !old(positionOpen) && shortEMA > longSMA, old(positionOpen) && shortEMA < longSMA;
        && positionOpen == (if buys then true else if sells then false else old(positionOpen))
        && (buys ==>
              && IsTruncated(holding, old(holding) as real + Over(old(amount) as real, price))
              && IsTruncated(amount, old(amount) as real - Times(price, holding as real)))
        && (sells ==>
              && holding == 0
              && IsTruncated(amount, old(amount) as real + Times(price, old(holding) as real)))
        && (!buys && !sells ==> amount == old(amount) && holding == old(holding))
      ensures
        var buys, sells := !old(positionOpen) && shortEMA > longSMA, old(positionOpen) && shortEMA < longSMA;
        && buyPoints == (if buys then old(buyPoints)[|timeIndex| - 1 := Some(price)] else old(buyPoints))
        && sellPoints == (if sells then old(sellPoints)[|timeIndex| - 1 := Some(price)] else old(sellPoints))
    {
      var currentIndex := |timeIndex| - 1;
      if !positionOpen && shortEMA > longSMA {
        TruncatesTowardZero(holding as real + Over(amount as real, price));
        holding := Truncate(holding as real + Over(amount as real, price));
        TruncatesTowardZero(amount as real - Times(price, holding as real));
        amount := Truncate(amount as real - Times(price, holding as real));
        positionOpen := true;
        buyPoints := buyPoints[currentIndex := Some(price)];
      } else if positionOpen && shortEMA < longSMA {
        TruncatesTowardZero(amount as real + Times(price, holding as real));
        amount := Truncate(amount as real + Times(price, holding as real));
        holding := 0;
        positionOpen := false;
        sellPoints := sellPoints[currentIndex := Some(price)];
      }
    }

    /** One bar of a run: extend the chart, then trade. The signals come from the indicators. */
    method ProcessBar(time: int, bar: Bar)
      requires Valid() && bar.price != 0.0
      modifies this
      ensures Valid() && timeIndex == old(timeIndex) + [time] && Books() == React(old(Books()), bar)
      ensures
        var buys := !old(positionOpen) && bar.shortEMA > bar.longSMA;
        var sells := old(positionOpen) && bar.shortEMA < bar.longSMA;
        && buyPoints == old(buyPoints) + [if buys then Some(bar.price) else None]
        && sellPoints == old(sellPoints) + [if sells then Some(bar.price) else None]
    {
      timeIndex := timeIndex + [time];
      buyPoints := buyPoints + [None];
      sellPoints := sellPoints + [None];
      ExecuteTradingLogic(bar.price, bar.shortEMA, bar.longSMA);
    }

    /** `open` records whether a position was open before each bar, and at the end. */
    method Run(times: seq<int>, bars: seq<Bar>) returns (ghost open: seq<bool>)
      requires Valid() && |times| == |bars| && Quoted(bars)
      modifies this
      ensures Valid() && timeIndex == old(timeIndex) + times
      ensures Books() == ReactAll(old(Books()), bars)
      ensures buyPoints == old(buyPoints) + Marks(old(Books()), bars, Bought)
      ensures sellPoints == old(sellPoints) + Marks(old(Books()), bars, Sold)
      ensures var n := |old(timeIndex)|; FollowsSignals(open, bars, buyPoints[n..], sellPoints[n..])
      ensures open[0] == old(positionOpen) && open[|bars|] == positionOpen
    {
      open := MarksFollowSignals(Books(), bars);
      for i := 0 to |bars|
        invariant Valid() && timeIndex == old(timeIndex) + times[..i]
        invariant ReactAll(Books(), bars[i..]) == ReactAll(old(Books()), bars)
        invariant buyPoints + Marks(Books(), bars[i..], Bought) == old(buyPoints) + Marks(old(Books()), bars, Bought)
        invariant sellPoints + Marks(Books(), bars[i..], Sold) == old(sellPoints) + Marks(old(Books()), bars, Sold)
      {
        MarksNext(Books(), bars, i, Bought, buyPoints);
        MarksNext(Books(), bars, i, Sold, sellPoints);
        assert bars[i..][0] == bars[i] && bars[i..][1..] == bars[i + 1..];
        ProcessBar(times[i], bars[i]);
      }
    }
  }
}
