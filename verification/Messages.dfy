/** The scheduler's order message: nine words, the last four optional. */
module Messages {
  import opened Orders
  import opened Streams

  datatype OrderDetails = OrderDetails(
    side: string, kind: string, timeInForce: string, symbol: string, qty: string,
    limitPrice: Option<string>, stopPrice: Option<string>, trailPrice: Option<string>, trailPercent: Option<string>)

  /** Field by field from the stream; a missing mandatory word leaves its field empty. */
  function ParseOrder(order: string): OrderDetails {
    var (side, s1) := Extract(Stream(order, true));
    var (kind, s2) := Extract(s1);
    var (timeInForce, s3) := Extract(s2);
    var (symbol, s4) := Extract(s3);
    var (qty, s5) := Extract(s4);
    var (limitPrice, s6) := Extract(s5);
    var (stopPrice, s7) := Extract(s6);
    var (trailPrice, s8) := Extract(s7);
    var (trailPercent, _) := Extract(s8);
    OrderDetails(WordOr(side, []), WordOr(kind, []), WordOr(timeInForce, []), WordOr(symbol, []), WordOr(qty, []),
                 limitPrice, stopPrice, trailPrice, trailPercent)
  }

  function WordAt(words: seq<string>, i: nat): string {
    if i < |words| then words[i] else []
  }

  function OptionAt(words: seq<string>, i: nat): Option<string> {
    if i < |words| then Some(words[i]) else None
  }

  /** The fields are the first nine words; a mandatory one that is missing is empty. */
  function FromWords(words: seq<string>): OrderDetails {
    OrderDetails(WordAt(words, 0), WordAt(words, 1), WordAt(words, 2), WordAt(words, 3), WordAt(words, 4),
                 OptionAt(words, 5), OptionAt(words, 6), OptionAt(words, 7), OptionAt(words, 8))
  }

  /** The `n`-th extraction from a text gives its `n`-th word, or fails if there is none. */
  ghost predicate Has(st: Stream, words: seq<string>, n: nat) {
    if n <= |words| then st.ok && Words(st.rest) == words[n..] else st == Stream([], false)
  }

  lemma {:induction false} NextWord(st: Stream, words: seq<string>, n: nat)
    requires Has(st, words, n)
    ensures Extract(st).0 == OptionAt(words, n) && Has(Extract(st).1, words, n + 1)
  {
    if n <= |words| {
      assert st == Stream(st.rest, true);
      ExtractTakesWord(st.rest);
    }
  }

  /** For every text at all, parsing it gives the fields of its words. */
  lemma {:induction false} ParseTakesWords(order: string)
    ensures ParseOrder(order) == FromWords(Words(order))
  {
    var words := Words(order);
    var s0 := Stream(order, true);
    NextWord(s0, words, 0);
    var s1 := Extract(s0).1;
    NextWord(s1, words, 1);
    var s2 := Extract(s1).1;
    NextWord(s2, words, 2);
    var s3 := Extract(s2).1;
    NextWord(s3, words, 3);
    var s4 := Extract(s3).1;
    NextWord(s4, words, 4);
    var s5 := Extract(s4).1;
    NextWord(s5, words, 5);
    var s6 := Extract(s5).1;
    NextWord(s6, words, 6);
    var s7 := Extract(s6).1;
    NextWord(s7, words, 7);
    var s8 := Extract(s7).1;
    NextWord(s8, words, 8);
  }

  /** So a message laid out as any number of words, with white space between them, parses to exactly
      those words: the first five are mandatory and empty if missing, the next four optional, and
      more than nine are ignored. */
  lemma {:induction false} MessageReadsBack(words: seq<string>, gaps: seq<string>)
    requires Separates(gaps, words)
    ensures ParseOrder(Layout(words, gaps)) == FromWords(words)
    ensures |words| >= 9 ==> ParseOrder(Layout(words, gaps)) == OrderDetails(
      words[0], words[1], words[2], words[3], words[4],
      Some(words[5]), Some(words[6]), Some(words[7]), Some(words[8]))
    ensures |words| < 9 ==> ParseOrder(Layout(words, gaps)).trailPercent == None
  {
    WordsOfLayout(words, gaps);
    ParseTakesWords(Layout(words, gaps));
  }

  /** No field holds white space of any of the six kinds. */
  lemma {:induction false} FieldsHaveNoWhite(order: string)
    ensures
      var d := ParseOrder(order);
      && HasNoWhite(d.side) && HasNoWhite(d.kind) && HasNoWhite(d.timeInForce) && HasNoWhite(d.symbol)
      && HasNoWhite(d.qty)
      && HasNoWhite(WordOr(d.limitPrice, [])) && HasNoWhite(WordOr(d.stopPrice, []))
      && HasNoWhite(WordOr(d.trailPrice, [])) && HasNoWhite(WordOr(d.trailPercent, []))
  {
    ParseTakesWords(order);
    WordsHaveNoWhite(order);
    assert forall i :: 0 <= i < |Words(order)| ==> HasNoWhite(Words(order)[i]);
  }

  method OptionalWord(iss: InputStream) returns (word: Option<string>)
    modifies iss
    ensures word == Extract(old(iss.Left())).0 && iss.Left() == Extract(old(iss.Left())).1
  {
    var text, read := iss.Read("");
    word := if read then Some(text) else None;
  }

  /** The scheduler's statements. */
  method ReadOrder(order: string) returns (details: OrderDetails)
    ensures details == ParseOrder(order) == FromWords(Words(order))
  {
    ParseTakesWords(order);
    var iss := new InputStream(order);
    var side, _ := iss.Read("");
    var kind, _ := iss.Read("");
    var timeInForce, _ := iss.Read("");
    var symbol, _ := iss.Read("");
    var qty, _ := iss.Read("");
    var limitPrice := OptionalWord(iss);
    var stopPrice := OptionalWord(iss);
    var trailPrice := OptionalWord(iss);
    var trailPercent := OptionalWord(iss);
    details := OrderDetails(side, kind, timeInForce, symbol, qty, limitPrice, stopPrice, trailPrice, trailPercent);
  }
}
