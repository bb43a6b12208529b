/** The incremental line splitter, in both its copies: `streamNdjson` over `byteChunks` (http.ts)
    and `getLines` (api.ts). A chunk is its decoded text with the number of bytes it arrived in. */
module LineSplitter {
  import opened Wrappers
  import opened Lexical

  const NL: char := '\n'

  datatype Chunk = Chunk(text: string, bytes: nat)

  // ---- the specification: the non-blank trimmed lines of a text ----

  function FirstNewline(s: string): (n: nat)
    ensures n <= |s| && NL !in s[..n] && (n < |s| ==> s[n] == NL)
  {
    if s == "" || s[0] == NL then 0
    else
      var n := 1 + FirstNewline(s[1..]);
      assert s[..n] == [s[0]] + s[1..][..n - 1];
      n
  }

  function OneLine(piece: string): seq<string> { if Trim(piece) == "" then [] else [Trim(piece)] }

  function Lines(s: string): seq<string>
    decreases |s|
  {
    var n := FirstNewline(s);
    if n == |s| then OneLine(s) else OneLine(s[..n]) + Lines(s[n + 1..])
  }

  predicate Ended(s: string) { s == "" || s[|s| - 1] == NL }

  /** Text up to and including its last newline. */
  function Whole(s: string): (w: string)
    ensures Ended(w) && w <= s && NL !in s[|w|..]
  {
    if Ended(s) then s else
      var w := Whole(s[..|s| - 1]);
      assert s[|w|..] == s[..|s| - 1][|w|..] + [s[|s| - 1]];
      w
  }

  lemma {:induction false} NewlineBy(s: string, i: nat)
    requires i < |s| && s[i] == NL
    ensures FirstNewline(s) <= i
  {
  }

  lemma {:induction false} NewlineAhead(a: string, b: string)
    requires FirstNewline(a) < |a|
    ensures FirstNewline(a + b) == FirstNewline(a)
  {
    if a[0] != NL {
      assert (a + b)[1..] == a[1..] + b;
      NewlineAhead(a[1..], b);
    }
  }

  lemma {:induction false} LinesStep(s: string)
    ensures var n := FirstNewline(s);
      Lines(s) == if n == |s| then OneLine(s) else OneLine(s[..n]) + Lines(s[n + 1..])
    ensures Lines("") == []
  {
  }

  /** A text that ended on a newline and what follows it split separately. */
  lemma {:induction false} LinesConcat(a: string, b: string)
    requires Ended(a)
    ensures Lines(a + b) == Lines(a) + Lines(b)
    decreases |a|
  {
    hide Lines, OneLine, FirstNewline;
    LinesStep(a);
    if a == "" {
      assert a + b == b;
    } else {
      LinesStep(a + b);
      var n := FirstNewline(a);
      NewlineBy(a, |a| - 1);
      NewlineAhead(a, b);
      assert (a + b)[..n] == a[..n] && (a + b)[n + 1..] == a[n + 1..] + b;
      LinesConcat(a[n + 1..], b);
    }
  }

  /** Nothing blank and nothing untrimmed is ever delivered. */
  lemma {:induction false} LinesAreTrimmed(s: string, line: string)
    requires line in Lines(s)
    ensures line != "" && !IsSpace(line[0]) && !IsSpace(line[|line| - 1])
    decreases |s|
  {
    var n := FirstNewline(s);
    var piece := if n == |s| then s else s[..n];
    if line in OneLine(piece) {
      TrimIsTight(piece);
    } else {
      LinesAreTrimmed(s[n + 1..], line);
    }
  }

  /** How a text falls into lines: at every newline, and at its end. */
  lemma {:induction false} LinesSplit(a: string, b: string)
    requires NL !in a
    ensures Lines(a + "\n" + b) == Lines(a) + Lines(b) && Lines(a) == OneLine(a)
  {
    hide Lines, OneLine, Trim;
    var s := a + "\n" + b;
    NewlineBy(s, |a|);
    NoneBefore(s, a);
    LinesStep(s);
    assert s[..|a|] == a && s[|a| + 1..] == b;
    LastPiece(a);
  }

  lemma {:induction false} NoneBefore(s: string, a: string)
    requires NL !in a && a < s && s[|a|] == NL
    ensures FirstNewline(s) == |a|
  {
    NewlineBy(s, |a|);
    forall i | 0 <= i < |a| ensures s[i] != NL {
      assert s[i] == a[i] && a[i] in a;
    }
  }

  /** A piece with anything but white space in it is never dropped: its line is everything from its
      first to its last such character. A blank piece yields nothing. */
  lemma {:induction false} PieceIsKept(front: string, line: string, back: string)
    requires AllSpaces(front) && AllSpaces(back)
    requires line != "" ==> !IsSpace(line[0]) && !IsSpace(line[|line| - 1])
    ensures OneLine(front + line + back) == if line == "" then [] else [line]
  {
    TrimLeaves(front, line, back);
  }

  /** A carriage return before the newline goes with it. */
  lemma {:induction false} LineOfDos()
    ensures Lines("a\r\n") == ["a"]
  {
    hide Lines, OneLine;
    SpacesAre('\r');
    SpacesAre('a');
    assert "a\r\n" == "a\r" + "\n" + "" && "a\r" == "" + "a" + "\r";
    LinesSplit("a\r", "");
    LinesStep("");
    PieceIsKept("", "a", "\r");
  }

  /** Blanks around a line go, blanks in it stay, blank lines are dropped. */
  lemma {:induction false} LinesOfBlanks()
    ensures Lines(" a b \n \nc") == ["a b", "c"]
  {
    hide Lines, OneLine, IsSpace;
    SpacesAre(' ');
    SpacesAre('a');
    SpacesAre('b');
    SpacesAre('c');
    var rest := " \nc";
    assert " a b \n \nc" == " a b " + "\n" + rest && rest == " " + "\n" + "c";
    LinesSplit(" a b ", rest);
    LinesSplit(" ", "c");
    LastPiece("c");
    assert " a b " == " " + "a b" + " " && " " == " " + "" + "" && "c" == "" + "c" + "";
    PieceIsKept(" ", "a b", " ");
    PieceIsKept(" ", "", "");
    PieceIsKept("", "c", "");
  }

  // ---- chunks ----

  function Text(chunks: seq<Chunk>): string {
    if chunks == [] then "" else Text(chunks[..|chunks| - 1]) + chunks[|chunks| - 1].text
  }

  function Bytes(chunks: seq<Chunk>): nat {
    if chunks == [] then 0 else Bytes(chunks[..|chunks| - 1]) + chunks[|chunks| - 1].bytes
  }

  /** A cap of 0 is no cap. */
  predicate Over(total: nat, maxBytes: nat) { maxBytes != 0 && total > maxBytes }

  /** Cut the complete lines off the front of a buffer. */
  method TakeLines(buffer: string) returns (lines: seq<string>, rest: string)
    ensures NL !in rest && buffer == Whole(buffer) + rest && lines == Lines(Whole(buffer))
  {
    hide Lines, Whole, Trim;
    lines, rest := [], buffer;
    ghost var done := "";
    NothingRead();
    var nl := FirstNewline(rest);
    while nl < |rest|
      invariant Ended(done) && buffer == done + rest && lines == Lines(done) && nl == FirstNewline(rest)
      decreases |rest|
    {
      var line := Trim(rest[..nl]);
      OneMore(done, rest, nl);
      if line != "" { lines := lines + [line]; }
      done, rest := done + rest[..nl + 1], rest[nl + 1..];
      nl := FirstNewline(rest);
    }
    assert rest[..|rest|] == rest;
    WholeIs(buffer, done, rest);
  }

  lemma {:induction false} NothingRead()
    ensures Lines("") == []
  {
  }

  lemma {:induction false} OneMore(done: string, rest: string, nl: nat)
    requires Ended(done) && nl == FirstNewline(rest) && nl < |rest|
    ensures Ended(done + rest[..nl + 1]) && done + rest == done + rest[..nl + 1] + rest[nl + 1..]
    ensures Lines(done + rest[..nl + 1]) == Lines(done) + OneLine(rest[..nl])
  {
    hide Lines, OneLine, FirstNewline;
    var piece := rest[..nl + 1];
    LinesConcat(done, piece);
    LinesStep(piece);
    LinesStep("");
    assert rest == piece + rest[nl + 1..];
    NewlineBy(piece, nl);
    NewlineAhead(piece, rest[nl + 1..]);
    assert piece[..nl] == rest[..nl] && piece[nl + 1..] == "";
  }

  lemma {:induction false} WholeIs(s: string, done: string, rest: string)
    requires s == done + rest && Ended(done) && NL !in rest
    ensures Whole(s) == done
  {
    if rest == "" {
      assert s == done;
    } else {
      assert s[|s| - 1] == rest[|rest| - 1];
      assert s[..|s| - 1] == done + rest[..|rest| - 1];
      WholeIs(s[..|s| - 1], done, rest[..|rest| - 1]);
    }
  }

  /** Where a reader stands: the text so far is complete lines, delivered, and an open line. */
  ghost predicate Reading(text: string, done: string, buffer: string, lines: seq<string>) {
    Ended(done) && text == done + buffer && NL !in buffer && lines == Lines(done)
  }

  lemma {:induction false} ReadsOn(text: string, done: string, buffer: string, lines: seq<string>, chunk: string,
      rest: string)
    requires Reading(text, done, buffer, lines) && NL !in rest && buffer + chunk == Whole(buffer + chunk) + rest
    ensures var w := Whole(buffer + chunk); Reading(text + chunk, done + w, rest, lines + Lines(w))
  {
    hide Lines, Whole, Ended, FirstNewline;
    var w := Whole(buffer + chunk);
    LinesConcat(done, w);
    EndedConcat(done, w);
    assert text + chunk == done + (buffer + chunk) == done + w + rest;
  }

  lemma {:induction false} ReadsOut(text: string, done: string, buffer: string, lines: seq<string>)
    requires Reading(text, done, buffer, lines)
    ensures Lines(text) == lines + OneLine(buffer)
    ensures Whole(text) == done
  {
    LinesConcat(done, buffer);
    LastPiece(buffer);
    WholeIs(text, done, buffer);
  }

  /** The second copy: every non-blank line of a stream, with no cap. */
  method GetLines(chunks: seq<Chunk>) returns (lines: seq<string>)
    ensures lines == Lines(Text(chunks))
  {
    hide Reading, Lines, Whole, Trim;
    lines := [];
    var buffer := "";
    ghost var done := "";
    StartsReading();
    for i := 0 to |chunks|
      invariant Reading(Text(chunks[..i]), done, buffer, lines)
    {
      assert chunks[..i + 1][..i] == chunks[..i];
      var chunk := chunks[i].text;
      var more, rest := TakeLines(buffer + chunk);
      ReadsOn(Text(chunks[..i]), done, buffer, lines, chunk, rest);
      done := done + Whole(buffer + chunk);
      lines, buffer := lines + more, rest;
    }
    assert chunks[..|chunks|] == chunks;
    ReadsOut(Text(chunks), done, buffer, lines);
    lines := lines + OneLine(buffer);
  }

  lemma {:induction false} StartsReading()
    ensures Reading("", "", "", [])
  {
  }

  lemma {:induction false} EndedConcat(a: string, b: string)
    requires Ended(a) && Ended(b)
    ensures Ended(a + b)
  {
  }

  lemma {:induction false} LastPiece(s: string)
    requires NL !in s
    ensures Lines(s) == OneLine(s)
  {
  }

  // ---- the capped, parsing copy ----

  datatype Ending = Complete | TooLarge | BadLine

  /** How many chunks pass before the running total exceeds the cap. */
  function Passed(chunks: seq<Chunk>, maxBytes: nat): (n: nat)
    ensures n <= |chunks|
  {
    if chunks == [] then 0
    else
      var n := Passed(chunks[..|chunks| - 1], maxBytes);
      if n == |chunks| - 1 && !Over(Bytes(chunks), maxBytes) then |chunks| else n
  }

  /** The lines that reach the parser. */
  function Offered(chunks: seq<Chunk>, maxBytes: nat): seq<string> {
    var n := Passed(chunks, maxBytes);
    if n == |chunks| then Lines(Text(chunks)) else Lines(Whole(Text(chunks[..n])))
  }

  /** Parsed values up to the first line that does not parse. */
  function Parsed<T>(lines: seq<string>, parse: string -> Option<T>): (values: seq<T>)
    ensures |values| <= |lines|
  {
    if lines == [] then []
    else
      var front := Parsed(lines[..|lines| - 1], parse);
      var last := parse(lines[|lines| - 1]);
      if |front| == |lines| - 1 && last.Some? then front + [last.value] else front
  }

  lemma {:induction false} ParsedConcat<T>(a: seq<string>, b: seq<string>, parse: string -> Option<T>)
    ensures Parsed(a + b, parse) == if |Parsed(a, parse)| == |a| then Parsed(a, parse) + Parsed(b, parse)
        else Parsed(a, parse)
  {
    if b == [] {
      assert a + b == a;
    } else {
      assert (a + b)[..|a + b| - 1] == a + b[..|b| - 1];
      ParsedConcat(a, b[..|b| - 1], parse);
    }
  }

  lemma {:induction false} ParsedAt<T>(lines: seq<string>, i: nat, parse: string -> Option<T>)
    requires i < |lines| && |Parsed(lines[..i], parse)| == i
    ensures parse(lines[i]).Some? ==>
        Parsed(lines[..i + 1], parse) == Parsed(lines[..i], parse) + [parse(lines[i]).value]
    ensures parse(lines[i]).None? ==> Parsed(lines, parse) == Parsed(lines[..i], parse)
  {
    var upto := lines[..i + 1];
    assert upto[..i] == lines[..i];
    assert lines == upto + lines[i + 1..];
    ParsedConcat(upto, lines[i + 1..], parse);
  }

  /** Deliver lines one at a time, stopping at the first that does not parse. */
  method Deliver<T>(lines: seq<string>, parse: string -> Option<T>) returns (values: seq<T>, ok: bool)
    ensures values == Parsed(lines, parse) && (ok <==> |values| == |lines|)
  {
    hide Parsed;
    values := [];
    NothingPassed(0, parse);
    for i := 0 to |lines|
      invariant values == Parsed(lines[..i], parse) && |values| == i
    {
      ParsedAt(lines, i, parse);
      var value := parse(lines[i]);
      if value.None? { return values, false; }
      values := values + [value.value];
    }
    assert lines[..|lines|] == lines;
    ok := true;
  }

  /** What the capped copy comes to: the values delivered, and how it ended. */
  function Outcome<T>(chunks: seq<Chunk>, maxBytes: nat, parse: string -> Option<T>): (seq<T>, Ending) {
    var offered := Offered(chunks, maxBytes);
    var values := Parsed(offered, parse);
    (values, if |values| < |offered| then BadLine else if Passed(chunks, maxBytes) < |chunks| then TooLarge
        else Complete)
  }

  method StreamNdjson<T>(chunks: seq<Chunk>, maxBytes: nat, parse: string -> Option<T>)
    returns (values: seq<T>, ending: Ending)
    ensures (values, ending) == Outcome(chunks, maxBytes, parse)
    ensures var offered := Offered(chunks, maxBytes);
      && values == Parsed(offered, parse)
      && (ending.BadLine? <==> |values| < |offered|)
      && (ending.TooLarge? <==> |values| == |offered| && Passed(chunks, maxBytes) < |chunks|)
  {
    hide Reading, Lines, Whole, Trim, Passed, Parsed, Offered;
    values := [];
    var buffer, total := "", 0;
    ghost var done, lines := "", [];
    StartsReading();
    NothingPassed(maxBytes, parse);
    for i := 0 to |chunks|
      invariant Passed(chunks[..i], maxBytes) == i && total == Bytes(chunks[..i])
      invariant Reading(Text(chunks[..i]), done, buffer, lines)
      invariant values == Parsed(lines, parse) && |values| == |lines|
    {
      assert chunks[..i + 1][..i] == chunks[..i];
      PassedAt(chunks, maxBytes, i);
      total := total + chunks[i].bytes;
      if Over(total, maxBytes) {
        CutOff(chunks, maxBytes, i, done, buffer, lines);
        return values, TooLarge;
      }
      var chunk := chunks[i].text;
      var more, rest := TakeLines(buffer + chunk);
      ReadsOn(Text(chunks[..i]), done, buffer, lines, chunk, rest);
      done := done + Whole(buffer + chunk);
      ParsedConcat(lines, more, parse);
      var got, ok := Deliver(more, parse);
      values, lines, buffer := values + got, lines + more, rest;
      if !ok {
        StoppedEarly(chunks, maxBytes, i + 1, done, buffer, lines, parse);
        return values, BadLine;
      }
    }
    assert chunks[..|chunks|] == chunks;
    ReadsOut(Text(chunks), done, buffer, lines);
    AllPassed(chunks, maxBytes);
    ParsedConcat(lines, OneLine(buffer), parse);
    var got, ok := Deliver(OneLine(buffer), parse);
    values := values + got;
    ending := if ok then Complete else BadLine;
  }

  lemma {:induction false} NothingPassed<T>(maxBytes: nat, parse: string -> Option<T>)
    ensures Passed([], maxBytes) == 0 && Parsed([], parse) == []
  {
  }

  lemma {:induction false} AllPassed(chunks: seq<Chunk>, maxBytes: nat)
    requires Passed(chunks, maxBytes) == |chunks|
    ensures Offered(chunks, maxBytes) == Lines(Text(chunks))
  {
  }

  lemma {:induction false} CutOff(chunks: seq<Chunk>, maxBytes: nat, n: nat, done: string, buffer: string,
      lines: seq<string>)
    requires n < |chunks| && Passed(chunks, maxBytes) == n && Reading(Text(chunks[..n]), done, buffer, lines)
    ensures Offered(chunks, maxBytes) == lines
  {
    WholeIs(Text(chunks[..n]), done, buffer);
  }

  lemma {:induction false} PassedAt(chunks: seq<Chunk>, maxBytes: nat, i: nat)
    requires i < |chunks| && Passed(chunks[..i], maxBytes) == i
    ensures Over(Bytes(chunks[..i + 1]), maxBytes) ==> Passed(chunks, maxBytes) == i
    ensures !Over(Bytes(chunks[..i + 1]), maxBytes) ==> Passed(chunks[..i + 1], maxBytes) == i + 1
    decreases |chunks|
  {
    assert chunks[..i + 1][..i] == chunks[..i];
    if |chunks| == i + 1 {
      assert chunks[..i + 1] == chunks;
    } else {
      var front := chunks[..|chunks| - 1];
      assert front[..i] == chunks[..i] && front[..i + 1] == chunks[..i + 1];
      PassedAt(front, maxBytes, i);
    }
  }

  /** A bad line among those already complete is bad in the whole offer. */
  lemma {:induction false} StoppedEarly<T>(chunks: seq<Chunk>, maxBytes: nat, n: nat, done: string, rest: string,
      lines: seq<string>, parse: string -> Option<T>)
    requires n <= |chunks| && Passed(chunks[..n], maxBytes) == n
    requires Reading(Text(chunks[..n]), done, rest, lines) && |Parsed(lines, parse)| < |lines|
    ensures Parsed(Offered(chunks, maxBytes), parse) == Parsed(lines, parse)
    ensures |Parsed(lines, parse)| < |Offered(chunks, maxBytes)|
  {
    hide Parsed, Offered, Passed, Lines, Whole, Ended, Text;
    OfferExtends(chunks, maxBytes, n, done, rest);
    var more := Offered(chunks, maxBytes)[|lines|..];
    assert Offered(chunks, maxBytes) == lines + more;
    ParsedConcat(lines, more, parse);
  }

  lemma {:induction false} TextConcat(a: seq<Chunk>, b: seq<Chunk>)
    ensures Text(a + b) == Text(a) + Text(b) && Bytes(a + b) == Bytes(a) + Bytes(b)
  {
    if b == [] {
      assert a + b == a;
    } else {
      assert (a + b)[..|a + b| - 1] == a + b[..|b| - 1];
      TextConcat(a, b[..|b| - 1]);
    }
  }

  lemma {:induction false} PassedAtLeast(chunks: seq<Chunk>, maxBytes: nat, n: nat)
    requires n <= |chunks| && Passed(chunks[..n], maxBytes) == n
    ensures Passed(chunks, maxBytes) >= n
    decreases |chunks|
  {
    if n == |chunks| {
      assert chunks[..n] == chunks;
    } else {
      assert chunks[..|chunks| - 1][..n] == chunks[..n];
      PassedAtLeast(chunks[..|chunks| - 1], maxBytes, n);
    }
  }

  lemma {:induction false} OfferExtends(chunks: seq<Chunk>, maxBytes: nat, n: nat, done: string, rest: string)
    requires n <= |chunks| && Passed(chunks[..n], maxBytes) == n
    requires Ended(done) && Text(chunks[..n]) == done + rest
    ensures Lines(done) <= Offered(chunks, maxBytes)
  {
    hide Lines, Whole, Ended;
    var m := Passed(chunks, maxBytes);
    PassedAtLeast(chunks, maxBytes, n);
    assert chunks[..m] == chunks[..n] + chunks[n..m] && chunks[..|chunks|] == chunks;
    TextConcat(chunks[..n], chunks[n..m]);
    var tail := rest + Text(chunks[n..m]);
    assert Text(chunks[..m]) == done + tail;
    LinesConcat(done, tail);
    WholeConcat(done, tail);
    LinesConcat(done, Whole(tail));
  }

  lemma {:induction false} WholeConcat(a: string, b: string)
    requires Ended(a)
    ensures Whole(a + b) == a + Whole(b)
  {
    EndedConcat(a, Whole(b));
    assert a + b == (a + Whole(b)) + b[|Whole(b)|..];
    WholeIs(a + b, a + Whole(b), b[|Whole(b)|..]);
  }

  // ---- what it amounts to ----

  /** The cap trips exactly when the whole stream is over it, and what passed stays within it. */
  lemma {:induction false} CapTripsExactly(chunks: seq<Chunk>, maxBytes: nat)
    ensures Passed(chunks, maxBytes) < |chunks| <==> maxBytes != 0 && Bytes(chunks) > maxBytes
    ensures maxBytes != 0 ==> Bytes(chunks[..Passed(chunks, maxBytes)]) <= maxBytes
  {
    if chunks == [] {
    } else {
      var front, n := chunks[..|chunks| - 1], Passed(chunks, maxBytes);
      CapTripsExactly(front, maxBytes);
      if n < |chunks| { assert chunks[..n] == front[..n]; } else { assert chunks[..n] == chunks; }
    }
  }

  /** What passes is every chunk up to the first that takes the total over the cap, and what is then
      on offer is every line completed by then. */
  lemma {:induction false} CapOffersExactly(chunks: seq<Chunk>, maxBytes: nat, whole: string, open: string)
    requires Passed(chunks, maxBytes) < |chunks|
    requires Text(chunks[..Passed(chunks, maxBytes)]) == whole + open
    requires (whole != "" ==> whole[|whole| - 1] == NL) && NL !in open
    ensures Offered(chunks, maxBytes) == Lines(whole)
    ensures var n := Passed(chunks, maxBytes);
      maxBytes != 0 && Bytes(chunks[..n]) <= maxBytes < Bytes(chunks[..n + 1])
  {
    hide Lines, Whole;
    WholeIs(Text(chunks[..Passed(chunks, maxBytes)]), whole, open);
    CapTripsExactly(chunks, maxBytes);
    TripsAt(chunks, maxBytes);
  }

  lemma {:induction false} TripsAt(chunks: seq<Chunk>, maxBytes: nat)
    requires Passed(chunks, maxBytes) < |chunks|
    ensures maxBytes != 0 && Bytes(chunks[..Passed(chunks, maxBytes) + 1]) > maxBytes
  {
    var front, n := chunks[..|chunks| - 1], Passed(chunks, maxBytes);
    if n < |front| {
      TripsAt(front, maxBytes);
      assert chunks[..n + 1] == front[..n + 1];
    } else {
      assert chunks[..n + 1] == chunks;
    }
  }

  /** The text of chunks is their texts in order, its size their sizes together. */
  lemma {:induction false} TextIs(chunk: Chunk)
    ensures Text([]) == "" && Text([chunk]) == chunk.text && Bytes([]) == 0 && Bytes([chunk]) == chunk.bytes
  {
    assert [chunk][..0] == [];
  }

  /** The values are the parsed lines in order, up to the first that does not parse. */
  lemma {:induction false} ParsedAre<T>(lines: seq<string>, parse: string -> Option<T>)
    ensures forall i :: 0 <= i < |Parsed(lines, parse)| ==> parse(lines[i]) == Some(Parsed(lines, parse)[i])
    ensures |Parsed(lines, parse)| < |lines| ==> parse(lines[|Parsed(lines, parse)|]).None?
  {
    if lines != [] {
      ParsedAre(lines[..|lines| - 1], parse);
    }
  }

  /** Chunking independence: two ways of cutting the same text into chunks of the same total size
      trip the cap alike. Within it both offer exactly the lines of the text and have the same
      outcome: the same values, the same ending. */
  lemma {:induction false} ChunkingDoesNotMatter<T>(a: seq<Chunk>, b: seq<Chunk>, maxBytes: nat,
      parse: string -> Option<T>)
    requires Text(a) == Text(b) && Bytes(a) == Bytes(b)
    ensures Passed(a, maxBytes) < |a| <==> Passed(b, maxBytes) < |b|
    ensures !Over(Bytes(a), maxBytes) ==>
      && Offered(a, maxBytes) == Offered(b, maxBytes) == Lines(Text(a))
      && Outcome(a, maxBytes, parse) == Outcome(b, maxBytes, parse)
  {
    CapTripsExactly(a, maxBytes);
    CapTripsExactly(b, maxBytes);
  }

  /** Over the cap, exactly: neither chunking completes, and with `a` offering no more lines than
      `b` their outcomes are equal if and only if they offer the same number of lines or one of
      those `a` offers does not parse. */
  lemma {:induction false} ChunkingOverCapExactly<T>(a: seq<Chunk>, b: seq<Chunk>, maxBytes: nat,
      parse: string -> Option<T>)
    requires Text(a) == Text(b) && Bytes(a) == Bytes(b) && Over(Bytes(a), maxBytes)
    requires |Offered(a, maxBytes)| <= |Offered(b, maxBytes)|
    ensures Outcome(a, maxBytes, parse).1 != Complete && Outcome(b, maxBytes, parse).1 != Complete
    ensures Outcome(a, maxBytes, parse).0 <= Outcome(b, maxBytes, parse).0
    ensures var offered := |Offered(a, maxBytes)|;
      Outcome(a, maxBytes, parse) == Outcome(b, maxBytes, parse) <==>
        offered == |Offered(b, maxBytes)| || |Parsed(Offered(a, maxBytes), parse)| < offered
  {
    hide Parsed, Offered, Lines, Text, Passed, Bytes;
    CapTripsExactly(a, maxBytes);
    CapTripsExactly(b, maxBytes);
    CapOffersPrefix(a, maxBytes);
    CapOffersPrefix(b, maxBytes);
    var oa, ob := Offered(a, maxBytes), Offered(b, maxBytes);
    assert ob == oa + ob[|oa|..];
    ParsedConcat(oa, ob[|oa|..], parse);
    if |oa| == |ob| { assert oa == ob; }
  }

  /** So chunkings can show over the cap: a parser that takes nothing sees a bad line if the first
      chunk fits, and only the size if everything came at once. */
  lemma {:induction false} ChunkingShowsOverCap<T>(parse: string -> Option<T>)
    requires parse("x") == None
    ensures var a, b := [Chunk("x\n", 2), Chunk("y\n", 2)], [Chunk("x\ny\n", 4)];
      && Text(a) == Text(b) && Bytes(a) == Bytes(b)
      && Outcome(a, 3, parse) == ([], BadLine) && Outcome(b, 3, parse) == ([], TooLarge)
  {
    var x, y, xy := Chunk("x\n", 2), Chunk("y\n", 2), Chunk("x\ny\n", 4);
    var a, b := [x, y], [xy];
    assert a[..1] == [x] && [x][..0] == [] && [xy][..0] == [] && b[..0] == [];
    assert Text([x]) == "x\n" && Bytes([x]) == 2 && Text(a) == "x\ny\n" && Bytes(a) == 4;
    assert Text([xy]) == "x\ny\n" && Bytes([xy]) == 4;
    assert Passed([x], 3) == 1 && Passed(a, 3) == 1 && Passed(b, 3) == 0;
    LineOfX();
    assert ["x"][..0] == [];
    assert Parsed<T>(["x"], parse) == [] && Parsed<T>([], parse) == [];
  }

  lemma {:induction false} LineOfX()
    ensures Whole("x\n") == "x\n" && Lines("x\n") == ["x"] && Whole("") == "" && Lines("") == []
  {
    hide Lines, OneLine, Trim;
    var s := "x\n";
    assert s[..1] == "x" && s[2..] == "";
    NewlineBy(s, 1);
    assert FirstNewline(s) == 1;
    LinesStep(s);
    LinesStep("");
    NothingToTrim("x");
    OneWord("x");
  }

  lemma {:induction false} OneWord(s: string)
    requires Trim(s) == s && s != ""
    ensures OneLine(s) == [s]
  {
  }

  /** When the cap trips, what was offered is a prefix of the lines of the whole text. */
  lemma {:induction false} CapOffersPrefix(chunks: seq<Chunk>, maxBytes: nat)
    ensures Offered(chunks, maxBytes) <= Lines(Text(chunks))
  {
    hide Lines, Whole, Ended, FirstNewline, Passed, Text;
    var n := Passed(chunks, maxBytes);
    var done := Whole(Text(chunks[..n]));
    if n < |chunks| {
      assert chunks == chunks[..n] + chunks[n..];
      TextConcat(chunks[..n], chunks[n..]);
      var tail := Text(chunks[..n])[|done|..] + Text(chunks[n..]);
      assert Text(chunks) == done + tail;
      LinesConcat(done, tail);
    }
  }
}
