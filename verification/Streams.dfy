/** Reading words and lines from a string the way a C++ input stream does, and decimal text. */
module Streams {
  import opened Orders

  predicate IsSpace(c: char) {
    c == ' ' || c == '\t' || c == '\n' || c == '\r' || c == 11 as char || c == 12 as char
  }

  predicate IsSolid(s: string) {
    forall i :: 0 <= i < |s| ==> !IsSpace(s[i])
  }

  function SkipSpace(s: string): string {
    if s != [] && IsSpace(s[0]) then SkipSpace(s[1..]) else s
  }

  /** The longest prefix without white space. */
  function Word(s: string): (w: string)
    ensures |w| <= |s|
  {
    if s == [] || IsSpace(s[0]) then [] else [s[0]] + Word(s[1..])
  }

  /** What is left to read; a stream that has failed reads nothing more. */
  datatype Stream = Stream(rest: string, ok: bool)

  /** `stream >> word`: skip white space and take a word, or fail at the end. */
  function Extract(st: Stream): (Option<string>, Stream) {
    var t := SkipSpace(st.rest);
    if !st.ok || t == [] then (None, Stream([], false))
    else (Some(Word(t)), Stream(t[|Word(t)|..], true))
  }

  function WordOr(word: Option<string>, unread: string): string {
    match word
    case None => unread
    case Some(w) => w
  }

  /** `getline`: everything up to the next line break. */
  function GetLine(st: Stream): string {
    if st.ok then Line(st.rest) else []
  }

  function Line(s: string): (r: string)
    ensures |r| <= |s| && r == s[..|r|] && '\n' !in r
    ensures |r| < |s| ==> s[|r|] == '\n'
  {
    if s == [] || s[0] == '\n' then [] else [s[0]] + Line(s[1..])
  }

  /** What `c_str()` hands on: everything before the first zero character. */
  function CString(s: string): (r: string)
    ensures |r| <= |s| && r == s[..|r|] && '\0' !in r
    ensures |r| < |s| ==> s[|r|] == '\0'
  {
    if s == [] || s[0] == '\0' then [] else [s[0]] + CString(s[1..])
  }

  lemma {:induction false} SkipLeading(spaces: string, s: string)
    requires (forall i :: 0 <= i < |spaces| ==> IsSpace(spaces[i])) && s != [] && !IsSpace(s[0])
    ensures SkipSpace(spaces + s) == s
  {
    if spaces == [] {
      assert spaces + s == s;
    } else {
      assert (spaces + s)[1..] == spaces[1..] + s;
      SkipLeading(spaces[1..], s);
    }
  }

  lemma {:induction false} WordEnds(w: string, rest: string)
    requires IsSolid(w) && rest != [] && IsSpace(rest[0])
    ensures Word(w + rest) == w
  {
    if w == [] {
      assert w + rest == rest;
    } else {
      assert (w + rest)[1..] == w[1..] + rest;
      WordEnds(w[1..], rest);
    }
  }

  lemma {:induction false} WholeWord(w: string)
    requires IsSolid(w)
    ensures Word(w) == w
  {
    if w != [] {
      WholeWord(w[1..]);
    }
  }

  lemma {:induction false} WordBefore(w: string, rest: string)
    requires IsSolid(w) && (rest == [] || IsSpace(rest[0]))
    ensures Word(w + rest) == w && (w + rest)[|w|..] == rest
  {
    if rest == [] {
      assert w + rest == w;
      WholeWord(w);
    } else {
      WordEnds(w, rest);
    }
  }

  /** White space, a word, and white space or the end: the word is extracted and the rest stays. */
  lemma {:induction false} ExtractsWord(spaces: string, w: string, rest: string)
    requires forall i :: 0 <= i < |spaces| ==> IsSpace(spaces[i])
    requires w != [] && IsSolid(w) && (rest == [] || IsSpace(rest[0]))
    ensures Extract(Stream(spaces + w + rest, true)) == (Some(w), Stream(rest, true))
  {
    assert spaces + w + rest == spaces + (w + rest);
    SkipLeading(spaces, w + rest);
    WordBefore(w, rest);
  }

  lemma {:induction false} SkippedFrom(s: string)
    ensures forall x :: x in SkipSpace(s) ==> x in s
  {
    if s != [] && IsSpace(s[0]) {
      SkippedFrom(s[1..]);
    }
  }

  lemma {:induction false} WordFrom(s: string)
    ensures Word(s) == s[..|Word(s)|] && IsSolid(Word(s))
  {
    if s != [] && !IsSpace(s[0]) {
      WordFrom(s[1..]);
    }
  }

  /** Whatever is extracted or left was there before, and an extracted word is solid. */
  lemma {:induction false} ExtractedFrom(st: Stream)
    ensures var (word, next) := Extract(st);
      && (forall x :: x in WordOr(word, []) ==> x in st.rest)
      && (forall x :: x in next.rest ==> x in st.rest)
      && IsSolid(WordOr(word, []))
  {
    SkippedFrom(st.rest);
    var t := SkipSpace(st.rest);
    WordFrom(t);
    assert t == t[..|Word(t)|] + t[|Word(t)|..];
  }

  lemma {:induction false} SkipShortens(s: string)
    ensures |SkipSpace(s)| <= |s|
    ensures SkipSpace(s) != [] ==> !IsSpace(SkipSpace(s)[0]) && Word(SkipSpace(s)) != []
  {
    if s != [] && IsSpace(s[0]) {
      SkipShortens(s[1..]);
    }
  }

  /** The words of a text, in order. */
  function Words(s: string): seq<string>
    decreases |s|
  {
    SkipShortens(s);
    var t := SkipSpace(s);
    if t == [] then [] else [Word(t)] + Words(t[|Word(t)|..])
  }

  /** Extraction takes the words one by one, and fails after the last. */
  lemma {:induction false} ExtractTakesWord(s: string)
    ensures var (word, left) := Extract(Stream(s, true));
      if Words(s) == [] then word == None && left == Stream([], false)
      else word == Some(Words(s)[0]) && left.ok && Words(left.rest) == Words(s)[1..]
  {
    SkipShortens(s);
  }

  /** Words with white space between them, and possibly before and after. */
  function Layout(words: seq<string>, gaps: seq<string>): string
    requires |gaps| == |words| + 1
  {
    if words == [] then gaps[0] else gaps[0] + (words[0] + Layout(words[1..], gaps[1..]))
  }

  ghost predicate IsSpaces(s: string) {
    forall i :: 0 <= i < |s| ==> IsSpace(s[i])
  }

  ghost predicate Separates(gaps: seq<string>, words: seq<string>) {
    && |gaps| == |words| + 1
    && (forall i :: 0 <= i < |gaps| ==> IsSpaces(gaps[i]))
    && (forall i :: 0 < i < |words| ==> gaps[i] != [])
    && (forall i :: 0 <= i < |words| ==> words[i] != [] && IsSolid(words[i]))
  }

  lemma {:induction false} SkipSpaces(s: string)
    requires IsSpaces(s)
    ensures SkipSpace(s) == []
  {
    if s != [] {
      SkipSpaces(s[1..]);
    }
  }

  lemma {:induction false} LayoutBeginsWithSpace(words: seq<string>, gaps: seq<string>)
    requires Separates(gaps, words) && gaps[0] != []
    ensures Layout(words, gaps) != [] && IsSpace(Layout(words, gaps)[0])
  {
    assert IsSpace(gaps[0][0]);
  }

  lemma {:induction false} GapsShift(gaps: seq<string>, words: seq<string>)
    requires Separates(gaps, words) && words != []
    ensures Separates(gaps[1..], words[1..]) && (|words| > 1 ==> gaps[1..][0] != [])
  {
    assert forall i :: 0 <= i < |gaps[1..]| ==> gaps[1..][i] == gaps[i + 1];
    assert forall i :: 0 <= i < |words[1..]| ==> words[1..][i] == words[i + 1];
  }

  /** However they are spaced, the words of the text are the words. */
  lemma {:induction false} WordsOfLayout(words: seq<string>, gaps: seq<string>)
    requires Separates(gaps, words)
    ensures Words(Layout(words, gaps)) == words
    decreases |words|
  {
    if words == [] {
      SkipSpaces(gaps[0]);
    } else {
      var rest := Layout(words[1..], gaps[1..]);
      GapsShift(gaps, words);
      if |words| > 1 || gaps[1] != [] {
        LayoutBeginsWithSpace(words[1..], gaps[1..]);
      }
      WordBefore(words[0], rest);
      SkipLeading(gaps[0], words[0] + rest);
      WordsOfLayout(words[1..], gaps[1..]);
    }
  }

  /** The six characters that end a word: space, tab, line feed, carriage return, and the vertical tab
      and form feed between those two. */
  ghost predicate HasNoWhite(s: string) {
    && ' ' !in s && '\t' !in s && '\n' !in s && '\r' !in s
    && (11 as char) !in s && (12 as char) !in s
  }

  lemma {:induction false} SolidExactly(s: string)
    ensures IsSolid(s) <==> HasNoWhite(s)
  {
    if !IsSolid(s) {
      var i :| 0 <= i < |s| && IsSpace(s[i]);
      assert s[i] in s;
    }
  }

  /** No word of a text is empty or holds one of the six. */
  lemma {:induction false} WordsHaveNoWhite(s: string)
    ensures forall w :: w in Words(s) ==> w != [] && HasNoWhite(w)
    decreases |s|
  {
    SkipShortens(s);
    var t := SkipSpace(s);
    if t != [] {
      WordFrom(t);
      SolidExactly(Word(t));
      WordsHaveNoWhite(t[|Word(t)|..]);
    }
  }

  /** A text is its own only word exactly if it is not empty and holds none of the six. */
  lemma {:induction false} OneWordExactly(s: string)
    ensures Words(s) == [s] <==> s != [] && HasNoWhite(s)
  {
    WordsHaveNoWhite(s);
    if s != [] && HasNoWhite(s) {
      SolidExactly(s);
      WholeWord(s);
      assert s[|s|..] == [];
    }
  }

  /** A text has no words exactly if it holds nothing but those six. */
  lemma {:induction false} NoWordsExactly(s: string)
    ensures Words(s) == [] <==>
      forall i :: 0 <= i < |s| ==>
        s[i] == ' ' || s[i] == '\t' || s[i] == '\n' || s[i] == '\r' || s[i] == 11 as char || s[i] == 12 as char
  {
    SkipShortens(s);
    if IsSpaces(s) {
      SkipSpaces(s);
    } else {
      var i :| 0 <= i < |s| && !IsSpace(s[i]);
      NotSkipped(s, i);
    }
  }

  lemma {:induction false} NotSkipped(s: string, i: nat)
    requires i < |s| && !IsSpace(s[i])
    ensures SkipSpace(s) != []
  {
    if i > 0 && IsSpace(s[0]) {
      NotSkipped(s[1..], i - 1);
    }
  }

  /** `getline` takes the line and the break after it; at the end of the text it fails. */
  function AfterLine(st: Stream): Stream {
    if !st.ok || st.rest == [] then Stream(st.rest, false)
    else
      var line := Line(st.rest);
      Stream(if |line| < |st.rest| then st.rest[|line| + 1..] else [], true)
  }

  lemma {:induction false} LineStops(line: string, tail: string)
    requires '\n' !in line && (tail == [] || tail[0] == '\n')
    ensures Line(line + tail) == line
  {
    if line == [] {
      assert line + tail == tail;
    } else {
      assert line[0] in line && (line + tail)[1..] == line[1..] + tail;
      LineStops(line[1..], tail);
    }
  }

  /** A line is taken with its break if it has one, and only at the end of the text does reading a
      line fail. */
  lemma {:induction false} LineIsTaken(line: string, rest: string)
    requires '\n' !in line
    ensures GetLine(Stream(line + "\n" + rest, true)) == line
    ensures AfterLine(Stream(line + "\n" + rest, true)) == Stream(rest, true)
    ensures GetLine(Stream(line, true)) == line && AfterLine(Stream(line, true)) == Stream([], line != [])
  {
    assert line + "\n" + rest == line + ("\n" + rest) && line + [] == line;
    LineStops(line, "\n" + rest);
    LineStops(line, []);
  }

  /** The stream object that the parsers read from step by step. */
  class InputStream {
    var rest: string
    var ok: bool

    constructor (text: string)
      ensures Left() == Stream(text, true)
    {
      rest, ok := text, true;
    }

    ghost function Left(): Stream
      reads this
    {
      Stream(rest, ok)
    }

    /** `stream >> word`; a failed extraction leaves the word as it was. */
    method Read(unread: string) returns (word: string, read: bool)
      modifies this
      ensures Left() == Extract(old(Left())).1
      ensures word == WordOr(Extract(old(Left())).0, unread) && read == Extract(old(Left())).0.Some?
    {
      var (next, left) := Extract(Stream(rest, ok));
      rest, ok := left.rest, left.ok;
      word, read := WordOr(next, unread), next.Some?;
    }

    method ReadLine() returns (line: string)
      modifies this
      ensures line == GetLine(old(Left())) && Left() == AfterLine(old(Left()))
    {
      line := GetLine(Stream(rest, ok));
      var left := AfterLine(Stream(rest, ok));
      rest, ok := left.rest, left.ok;
    }
  }
}
