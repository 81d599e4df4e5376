/** The quantity-splitting policy: what it pushes for one order, in whole orders of decimal text. */
module Equalizer {
  import opened Streams
  import opened Messages
  import opened Sequences

  // ----- Decimal text -----

  predicate IsDigit(c: char) {
    '0' <= c <= '9'
  }

  function DigitValue(c: char): nat {
    if IsDigit(c) then c as int - '0' as int else 0
  }

  function DigitRun(s: string): string {
    if s == [] || !IsDigit(s[0]) then [] else [s[0]] + DigitRun(s[1..])
  }

  function Value(digits: string): nat {
    if digits == [] then 0
    else
      var n := |digits| - 1;
      10 * Value(digits[..n]) + DigitValue(digits[n])
  }

  /** `atoi`: skip white space, take a sign, read digits as far as they go; no digits are 0. */
  function Atoi(text: string): int {
    var s := SkipSpace(text);
    if s != [] && s[0] == '-' then -(Value(DigitRun(s[1..])) as int)
    else if s != [] && s[0] == '+' then Value(DigitRun(s[1..]))
    else Value(DigitRun(s))
  }

  /** `to_string` of a number that is not negative. */
  function ToText(n: nat): string {
    if n < 10 then [('0' as int + n) as char]
    else ToText(n / 10) + [('0' as int + n % 10) as char]
  }

  lemma {:induction false} ValueOfText(n: nat)
    ensures ToText(n) != [] && Value(ToText(n)) == n
    ensures forall i :: 0 <= i < |ToText(n)| ==> IsDigit(ToText(n)[i])
    decreases n
  {
    if n >= 10 {
      ValueOfText(n / 10);
      var s, d := ToText(n / 10), ('0' as int + n % 10) as char;
      assert ToText(n) == s + [d] && (s + [d])[..|s|] == s && DigitValue(d) == n % 10;
    } else {
      assert ToText(n)[..0] == [];
    }
  }

  lemma {:induction false} DigitRunWhole(s: string)
    requires forall i :: 0 <= i < |s| ==> IsDigit(s[i])
    ensures DigitRun(s) == s
  {
    if s != [] {
      DigitRunWhole(s[1..]);
    }
  }

  lemma {:induction false} DigitsRead(s: string)
    requires s != [] && forall i :: 0 <= i < |s| ==> IsDigit(s[i])
    ensures Atoi(s) == Value(s)
  {
    assert IsDigit(s[0]);
    assert SkipSpace(s) == s;
    DigitRunWhole(s);
  }

  /** Printed quantities read back. */
  lemma {:induction false} TextReadsBack(n: nat)
    ensures Atoi(ToText(n)) == n
  {
    var s := ToText(n);
    ValueOfText(n);
    DigitsRead(s);
  }

  lemma {:induction false} DigitRunStops(digits: string, rest: string)
    requires forall i :: 0 <= i < |digits| ==> IsDigit(digits[i])
    requires rest == [] || !IsDigit(rest[0])
    ensures DigitRun(digits + rest) == digits
  {
    if digits == [] {
      assert digits + rest == rest;
    } else {
      ConcatTail(digits, rest);
      DigitRunStops(digits[1..], rest);
    }
  }

  lemma {:induction false} ValueNext(s: string, d: char)
    ensures Value(s + [d]) == 10 * Value(s) + DigitValue(d)
  {
    assert (s + [d])[..|s|] == s;
  }

  /** Read from the left, a further digit counts one and what was read before ten times. */
  lemma {:induction false} NextDigit(s: string, d: char)
    requires (forall i :: 0 <= i < |s| ==> '0' <= s[i] <= '9') && '0' <= d <= '9'
    ensures Atoi([]) == 0 && Atoi(s + [d]) == 10 * Atoi(s) + (d as int - '0' as int)
  {
    DigitsRead(s + [d]);
    ValueNext(s, d);
    if s == [] {
      assert DigitRun([]) == [];
    } else {
      DigitsRead(s);
    }
  }

  lemma {:induction false} ValueOfZeros(zeros: string)
    requires forall i :: 0 <= i < |zeros| ==> zeros[i] == '0'
    ensures Value(zeros) == 0
  {
    if zeros != [] {
      ValueOfZeros(zeros[..|zeros| - 1]);
    }
  }

  lemma {:induction false} LeadingZeros(zeros: string, n: nat)
    requires forall i :: 0 <= i < |zeros| ==> zeros[i] == '0'
    ensures Value(zeros + ToText(n)) == n
    decreases n
  {
    if n < 10 {
      ValueOfZeros(zeros);
      ValueNext(zeros, ('0' as int + n) as char);
    } else {
      var d := ('0' as int + n % 10) as char;
      LeadingZeros(zeros, n / 10);
      ValueNext(zeros + ToText(n / 10), d);
      ConcatAssociates(zeros, ToText(n / 10), [d]);
    }
  }

  predicate IsSign(sign: string) {
    sign == "" || sign == "+" || sign == "-"
  }

  /** No digit comes next. */
  predicate EndsNumber(rest: string) {
    rest == [] || rest[0] < '0' || rest[0] > '9'
  }

  lemma {:induction false} AtoiAfterSpaces(spaces: string, sign: string, body: string)
    requires IsSpaces(spaces) && IsSign(sign)
    requires sign == "" ==> body == [] || !(IsSpace(body[0]) || body[0] == '+' || body[0] == '-')
    ensures Atoi(spaces + (sign + body)) ==
            if sign == "-" then -(Value(DigitRun(body)) as int) else Value(DigitRun(body))
  {
    var s := sign + body;
    if s == [] {
      assert spaces + s == spaces;
      SkipSpaces(spaces);
    } else {
      SkipLeading(spaces, s);
      if sign == "" {
        assert s == body;
      } else {
        assert s[0] == sign[0] && s[1..] == body;
      }
    }
  }

  /** White space, a sign, zeros in front, a number, and then anything but a digit: it reads as that
      number with that sign. */
  lemma {:induction false} NumberReads(spaces: string, sign: string, zeros: string, n: nat, rest: string)
    requires IsSpaces(spaces) && IsSign(sign) && EndsNumber(rest)
    requires forall i :: 0 <= i < |zeros| ==> zeros[i] == '0'
    ensures Atoi(spaces + (sign + (zeros + ToText(n) + rest))) == if sign == "-" then -(n as int) else n
  {
    var digits := zeros + ToText(n);
    ValueOfText(n);
    assert IsDigit(digits[0]);
    DigitRunStops(digits, rest);
    LeadingZeros(zeros, n);
    AtoiAfterSpaces(spaces, sign, digits + rest);
  }

  /** White space and a sign without a digit behind them read as 0. */
  lemma {:induction false} NothingReads(spaces: string, sign: string, rest: string)
    requires IsSpaces(spaces) && IsSign(sign) && EndsNumber(rest)
    requires sign == "" ==> rest == [] || !(IsSpace(rest[0]) || rest[0] == '+' || rest[0] == '-')
    ensures Atoi(spaces + (sign + rest)) == 0
  {
    AtoiAfterSpaces(spaces, sign, rest);
    assert DigitRun(rest) == [];
  }

  // ----- The policy -----

  const SHARES := 3

  datatype Push = Push(provider: nat, order: OrderDetails)

  /** Two equal shares and a last one with the remainder, or the whole order to the first
      provider. The last share is pushed at index 3, one past the last of three providers. */
  function Split(d: OrderDetails, qty: int): seq<Push> {
    if qty >= SHARES then
      var share := d.(qty := ToText(qty / SHARES));
      [Push(0, share), Push(1, share), Push(SHARES, d.(qty := ToText(qty / SHARES + qty % SHARES)))]
    else
      [Push(0, d)]
  }

  function Plan(d: OrderDetails): seq<Push> {
    Split(d, Atoi(d.qty))
  }

  function PlanAll(ds: seq<OrderDetails>): seq<Push> {
    if ds == [] then [] else Plan(ds[0]) + PlanAll(ds[1..])
  }

  function Quantity(ps: seq<Push>): int {
    if ps == [] then 0 else Atoi(ps[0].order.qty) + Quantity(ps[1..])
  }

  function Ordered(ds: seq<OrderDetails>): int {
    if ds == [] then 0 else Atoi(ds[0].qty) + Ordered(ds[1..])
  }

  ghost predicate InRange(ps: seq<Push>, providers: nat) {
    forall k :: 0 <= k < |ps| ==> ps[k].provider < providers
  }

  lemma {:induction false} QuantityConcat(a: seq<Push>, b: seq<Push>)
    ensures Quantity(a + b) == Quantity(a) + Quantity(b)
  {
    if a == [] {
      assert a + b == b;
    } else {
      assert (a + b)[1..] == a[1..] + b;
      QuantityConcat(a[1..], b);
    }
  }

  lemma {:induction false} OrderedConcat(a: seq<OrderDetails>, b: seq<OrderDetails>)
    ensures Ordered(a + b) == Ordered(a) + Ordered(b)
  {
    if a == [] {
      assert a + b == b;
    } else {
      assert (a + b)[1..] == a[1..] + b;
      OrderedConcat(a[1..], b);
    }
  }

  /** The printed shares of one order read back to its quantity, none is empty, the last exceeds
      the others by at most two, and nothing but the quantity differs from the order. */
  lemma {:induction false} SharesAddUp(d: OrderDetails)
    ensures Quantity(Plan(d)) == Atoi(d.qty)
    ensures forall k :: 0 <= k < |Plan(d)| ==> Plan(d)[k].order.(qty := d.qty) == d
    ensures Atoi(d.qty) >= SHARES ==> FairShares(Plan(d))
    ensures Atoi(d.qty) >= SHARES ==>
      Plan(d)[0].provider == 0 && Plan(d)[1].provider == 1 && Plan(d)[2].provider == SHARES
    ensures Atoi(d.qty) < SHARES ==> Plan(d) == [Push(0, d)]
  {
    var qty := Atoi(d.qty);
    if qty >= SHARES {
      SplitAddsUp(d, qty);
    } else {
      QuantityOfOne(Push(0, d));
    }
  }

  ghost predicate FairShares(ps: seq<Push>) {
    && |ps| == SHARES
    && (forall k :: 0 <= k < SHARES ==> Atoi(ps[k].order.qty) >= 1)
    && Atoi(ps[0].order.qty) == Atoi(ps[1].order.qty)
    && 0 <= Atoi(ps[2].order.qty) - Atoi(ps[0].order.qty) <= 2
  }

  lemma {:induction false} SplitAddsUp(d: OrderDetails, qty: nat)
    requires qty >= SHARES
    ensures Quantity(Split(d, qty)) == qty && FairShares(Split(d, qty))
    ensures forall k :: 0 <= k < SHARES ==> Split(d, qty)[k].order.(qty := d.qty) == d
  {
    var n, r := qty / SHARES, qty % SHARES;
    TextReadsBack(n);
    TextReadsBack(n + r);
    ThreeShares(d, ToText(n), ToText(n + r), n, r);
  }

  lemma {:induction false} ThreeShares(d: OrderDetails, a: string, b: string, n: nat, r: nat)
    requires Atoi(a) == n && Atoi(b) == n + r && n >= 1 && r < SHARES
    ensures var ps := [Push(0, d.(qty := a)), Push(1, d.(qty := a)), Push(SHARES, d.(qty := b))];
      && Quantity(ps) == SHARES * n + r && FairShares(ps)
      && forall k :: 0 <= k < SHARES ==> ps[k].order.(qty := d.qty) == d
  {
    QuantityOfThree(Push(0, d.(qty := a)), Push(1, d.(qty := a)), Push(SHARES, d.(qty := b)));
  }

  lemma {:induction false} QuantityOfOne(a: Push)
    ensures Quantity([a]) == Atoi(a.order.qty)
  {
    assert [a][1..] == [];
  }

  lemma {:induction false} QuantityOfThree(a: Push, b: Push, c: Push)
    ensures Quantity([a, b, c]) == Atoi(a.order.qty) + Atoi(b.order.qty) + Atoi(c.order.qty)
  {
    assert [a, b, c][1..] == [b, c] && [b, c][1..] == [c];
    QuantityOfOne(c);
  }

  /** Over any sequence of orders the pushed quantities sum to the ordered ones. */
  lemma {:induction false} RunsAddUp(ds: seq<OrderDetails>)
    ensures Quantity(PlanAll(ds)) == Ordered(ds)
  {
    if ds != [] {
      SharesAddUp(ds[0]);
      QuantityConcat(Plan(ds[0]), PlanAll(ds[1..]));
      RunsAddUp(ds[1..]);
    }
  }

  lemma {:induction false} AllInRange(ds: seq<OrderDetails>, providers: nat)
    requires providers > 0 && (providers > SHARES || forall d :: d in ds ==> Atoi(d.qty) < SHARES)
    ensures InRange(PlanAll(ds), providers)
  {
    if ds != [] {
      InRangeExactly(ds[0], providers);
      AllInRange(ds[1..], providers);
    }
  }

  /** All pushes of an order go to registered providers exactly when it is too small to split or
      there are more than three of them: with three, every split order runs off the end. */
  lemma {:induction false} InRangeExactly(d: OrderDetails, providers: nat)
    requires providers > 0
    ensures InRange(Plan(d), providers) <==> Atoi(d.qty) < SHARES || providers > SHARES
  {
    if Atoi(d.qty) >= SHARES {
      assert Plan(d)[2].provider == SHARES;
    }
  }
}
