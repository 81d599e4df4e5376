/** The text of a CREATE or INSERT command as it is published, and as the subscriber takes it
    apart again with stream extraction and index arithmetic. */
module RedisCommands {
  import opened Orders
  import opened Streams

  datatype Command = Command(operation: string, file: string, payload: string)

  const CREATE := "CREATE"
  const INSERT := "INSERT"

  function Print(c: Command): string {
    c.operation + " " + c.file + " \"" + c.payload + "\""
  }

  /** The text leaves through `c_str()` and arrives as a `char *`. */
  function Wire(c: Command): string {
    CString(Print(c))
  }

  /** The line without its first two characters and its last, on unsigned lengths: throws when the
      line is shorter than two characters, and at two the count wraps round but nothing is left to
      take. */
  function Unquote(line: string): Option<string> {
    if |line| < 2 then None
    else if |line| == 2 then Some([])
    else Some(line[2..|line| - 1])
  }

  /** Two words and the rest of the line; `None` is the exception thrown by `substr`. */
  function Parse(message: string): Option<Command> {
    var (op, s1) := Extract(Stream(message, true));
    var (file, s2) := Extract(s1);
    match Unquote(GetLine(s2))
    case None => None
    case Some(payload) => Some(Command(WordOr(op, []), WordOr(file, []), payload))
  }

  /** The publisher's own operations are solid words. */
  ghost predicate Known(operation: string) {
    operation == CREATE || operation == INSERT
  }

  /** What a caller of the publisher can check. */
  ghost predicate Transmissible(c: Command) {
    && c.file != [] && IsSolid(c.file) && '\0' !in c.file
    && '\n' !in c.payload && '\0' !in c.payload
  }

  lemma {:induction false} CStringWhole(s: string)
    requires '\0' !in s
    ensures CString(s) == s
  {
  }

  lemma {:induction false} LineWhole(s: string)
    requires '\n' !in s
    ensures Line(s) == s
  {
  }

  lemma {:induction false} KnownIsSolid(operation: string)
    requires Known(operation)
    ensures operation != [] && IsSolid(operation) && '\0' !in operation
  {
  }

  function Quoted(payload: string): string {
    " \"" + payload + "\""
  }

  lemma {:induction false} QuotedReadsBack(payload: string)
    requires '\n' !in payload
    ensures GetLine(Stream(Quoted(payload), true)) == Quoted(payload)
    ensures Unquote(Quoted(payload)) == Some(payload)
    ensures Quoted(payload) != [] && IsSpace(Quoted(payload)[0])
  {
    var q := Quoted(payload);
    LineWhole(q);
    assert q[2..|q| - 1] == payload;
  }

  lemma {:induction false} FileAndPayload(file: string, payload: string)
    requires file != [] && IsSolid(file) && '\n' !in payload
    ensures var (w, s) := Extract(Stream(" " + file + Quoted(payload), true));
      w == Some(file) && Unquote(GetLine(s)) == Some(payload)
  {
    QuotedReadsBack(payload);
    ExtractsWord(" ", file, Quoted(payload));
  }

  lemma {:induction false} RoundTrip(c: Command)
    requires c.operation != [] && IsSolid(c.operation) && '\0' !in c.operation
    requires Transmissible(c)
    ensures Parse(Wire(c)) == Some(c)
  {
    var rest := " " + c.file + Quoted(c.payload);
    assert Print(c) == [] + c.operation + rest;
    assert '\0' !in Print(c);
    CStringWhole(Print(c));
    ExtractsWord([], c.operation, rest);
    FileAndPayload(c.file, c.payload);
  }

  lemma {:induction false} LineFrom(s: Stream)
    requires Unquote(GetLine(s)).Some?
    ensures var payload := Unquote(GetLine(s)).value;
      '\n' !in payload && forall x :: x in payload ==> x in s.rest
  {
    var line := GetLine(s);
    var payload := Unquote(line).value;
    forall i | 0 <= i < |payload| ensures payload[i] in s.rest && payload[i] != '\n' {
      assert payload[i] == line[i + 2] && line[i + 2] == s.rest[i + 2];
      assert line[i + 2] in line;
    }
  }

  /** Everything a parse returns was in the message; its words are solid and its payload is one
      line. */
  lemma {:induction false} ParsedFrom(m: string)
    requires Parse(m).Some?
    ensures var c := Parse(m).value;
      && IsSolid(c.file) && (forall x :: x in c.file ==> x in m)
      && (forall x :: x in c.payload ==> x in m) && '\n' !in c.payload
  {
    var s0 := Stream(m, true);
    ExtractedFrom(s0);
    var s1 := Extract(s0).1;
    ExtractedFrom(s1);
    LineFrom(Extract(s1).1);
  }

  lemma {:induction false} NoFilePrint(c: Command)
    requires c.file == []
    ensures Print(c) == (c.operation + "  \"") + (c.payload + "\"")
  {
  }

  lemma {:induction false} Regroup(op: string, tail: string)
    ensures (op + "  \"") + tail == [] + op + ("  " + ("\"" + tail))
  {
  }

  lemma {:induction false} NoFileParse(op: string, word: string, m: string)
    requires op != [] && IsSolid(op) && word != [] && !IsSpace(word[0]) && m == [] + op + ("  " + word)
    ensures Parse(m).Some? ==> Parse(m).value.file != []
  {
    ExtractsWord([], op, "  " + word);
    SkipLeading("  ", word);
    assert Word(word) != [];
  }

  /** With no file name the word read in its place is the quoted payload's first word. */
  lemma {:induction false} MissingFile(c: Command)
    requires c.operation != [] && IsSolid(c.operation) && '\0' !in c.operation
    requires c.file == []
    ensures Parse(Wire(c)) != Some(c)
  {
    NoFilePrint(c);
    var head, tail := c.operation + "  \"", c.payload + "\"";
    CStringKeeps(head, tail);
    Regroup(c.operation, CString(tail));
    NoFileParse(c.operation, "\"" + CString(tail), Wire(c));
  }

  lemma {:induction false} CStringKeeps(a: string, b: string)
    requires '\0' !in a
    ensures CString(a + b) == a + CString(b)
  {
    if a == [] {
      assert a + b == b;
    } else {
      assert (a + b)[1..] == a[1..] + b;
      CStringKeeps(a[1..], b);
    }
  }

  /** The subscriber gets back exactly what was published, for exactly the commands whose file
      name is one non-empty word and whose payload is one line, both without zero characters.
      Quotes and spaces inside the payload do no harm. */
  lemma {:induction false} RoundTripExactly(c: Command)
    requires Known(c.operation)
    ensures Parse(Wire(c)) == Some(c) <==> Transmissible(c)
  {
    KnownIsSolid(c.operation);
    if Transmissible(c) {
      RoundTrip(c);
    } else if c.file == [] {
      MissingFile(c);
    } else if Parse(Wire(c)) == Some(c) {
      ParsedFrom(Wire(c));
    }
  }

  /** Whatever follows two words on their line, the payload is that without its first two characters
      and its last; two characters leave nothing, and with fewer the subscriber throws. What comes
      after a line break is not looked at. */
  lemma {:induction false} LineIsUnquoted(lead: string, op: string, gap: string, file: string, line: string,
                                          tail: string)
    requires IsSpaces(lead) && op != [] && IsSolid(op) && IsSpaces(gap) && gap != [] && file != [] && IsSolid(file)
    requires '\n' !in line && (line == [] || IsSpace(line[0])) && (tail == [] || tail[0] == '\n')
    ensures
      var parsed := Parse(lead + op + (gap + file + (line + tail)));
      && (|line| < 2 ==> parsed == None)
      && (|line| == 2 ==> parsed == Some(Command(op, file, [])))
      && (|line| > 2 ==> parsed == Some(Command(op, file, line[2..|line| - 1])))
  {
    var rest := gap + file + (line + tail);
    assert rest[0] == gap[0];
    ExtractsWord(lead, op, rest);
    assert line + tail == [] || IsSpace((line + tail)[0]);
    ExtractsWord(gap, file, line + tail);
    LineStops(line, tail);
  }

  /** With fewer than two words the subscriber throws. */
  lemma {:induction false} TooFewWords(m: string)
    requires |Words(m)| < 2
    ensures Parse(m) == None
  {
    ExtractTakesWord(m);
    var s1 := Extract(Stream(m, true)).1;
    if s1.ok {
      assert s1 == Stream(s1.rest, true);
      ExtractTakesWord(s1.rest);
    }
  }

  /** The subscriber's statements: two words, the rest of the line, and its middle. */
  method Receive(message: string) returns (command: Option<Command>)
    ensures command == Parse(message)
  {
    var iss := new InputStream(message);
    var operation, _ := iss.Read("");
    var dbFileName, _ := iss.Read("");
    var sqlCommand := iss.ReadLine();
    match Unquote(sqlCommand)
    case None => command := None;
    case Some(payload) => command := Some(Command(operation, dbFileName, payload));
  }
}
