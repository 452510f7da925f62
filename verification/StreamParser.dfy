/**
 The streaming reply of a model provider (src/ai/client.js): bytes arrive in reads of any size and
 are cut into lines while they arrive. `parse` is parseStreamChunk for the provider at hand; it
 gives "" for a payload that carries no text.
 */
module StreamParser {
  import opened Text
  import opened Base64
  import Utf8

  // ---------------------------------------------------------------- the stream read as a whole

  /** split(/\r?\n/): the lines of a text, the last one being what follows the last line feed. */
  function SplitLines(s: string): (lines: seq<string>)
    ensures |lines| >= 1
  {
    if s == "" then [""]
    else if s[0] == '\n' then [""] + SplitLines(s[1..])
    else if |s| > 1 && s[0] == '\r' && s[1] == '\n' then [""] + SplitLines(s[2..])
    else Prepend(s[0], SplitLines(s[1..]))
  }

  /** The same lines, the first one starting one character earlier. */
  function Prepend(c: char, lines: seq<string>): (r: seq<string>)
    requires lines != []
    ensures |r| == |lines|
  {
    [[c] + lines[0]] + lines[1..]
  }

  function FirstFive(s: string): string {
    if |s| < 5 then s else s[..5]
  }

  /** parseStreamDataLine */
  function DataLine(line: string): Option<string> {
    var trimmed := Trim(line);
    if FirstFive(trimmed) != "data:" then None
    else
      var payload := Trim(trimmed[5..]);
      if payload == "" || payload == "[DONE]" then None else Some(payload)
  }

  /** The text one line contributes; empty for most lines. */
  function Delta(parse: string -> string, line: string): string {
    match DataLine(line)
    case None => ""
    case Some(payload) => parse(payload)
  }

  function Deltas(parse: string -> string, lines: seq<string>): seq<string> {
    if lines == [] then []
    else
      var front := Deltas(parse, lines[..|lines| - 1]);
      var delta := Delta(parse, lines[|lines| - 1]);
      if delta == "" then front else front + [delta]
  }

  /** All bytes decoded at once. */
  function WholeText(bytes: seq<Byte>): string {
    var (decoder, text) := Utf8.Decode(Utf8.FRESH, bytes);
    text + Utf8.Flush(decoder)
  }

  /** What a stream says: decode everything, split once, keep the text of the data lines. */
  function StreamDeltas(parse: string -> string, bytes: seq<Byte>): seq<string> {
    Deltas(parse, SplitLines(WholeText(bytes)))
  }

  /** A stream that carries a text is read as that text, less one byte order mark in front. */
  lemma TextOfEncoding(parse: string -> string, s: string)
    ensures WholeText(Utf8.Encode(s)) == Utf8.DropByteOrderMark(s)
    ensures StreamDeltas(parse, Utf8.Encode(s)) == Deltas(parse, SplitLines(Utf8.DropByteOrderMark(s)))
  {
    Utf8.DecodeEncode(s);
  }

  // ---------------------------------------------------------------- what a data line is

  /** What may follow "data:" for the line to count. */
  predicate IsPayload(p: string) {
    p != "" && Trimmed(p) && p != "[DONE]"
  }

  /** A line made of white space, "data:", white space, a payload and white space gives that payload. */
  lemma DataLineGives(lead: string, gap: string, p: string, trail: string)
    requires Blank(lead) && Blank(gap) && Blank(trail) && IsPayload(p)
    ensures DataLine(lead + "data:" + gap + p + trail) == Some(p)
  {
    var core := "data:" + gap + p;
    assert lead + "data:" + gap + p + trail == lead + core + trail;
    assert core[0] == 'd' && core[|core| - 1] == p[|p| - 1];
    TrimDrops(lead, core, trail);
    assert core[..5] == "data:" && core[5..] == gap + p + "";
    TrimDrops(gap, p, "");
  }

  /** And every line that gives a payload is made so. */
  lemma DataLineIsMadeSo(line: string) returns (lead: string, gap: string, trail: string)
    requires DataLine(line).Some?
    ensures var p := DataLine(line).value;
      Blank(lead) && Blank(gap) && Blank(trail) && IsPayload(p) && line == lead + "data:" + gap + p + trail
  {
    var outer, inner;
    lead, outer := TrimSplits(line);
    var rest := Trim(line)[5..];
    gap, inner := TrimSplits(rest);
    trail := inner + outer;
    TrimIsTrimmed(rest);
    var p := Trim(rest);
    assert DataLine(line) == Some(p) && Trim(line) == "data:" + rest;
    hide *;
    BlankAppend(inner, outer);
    Regroup(lead, gap, p, inner, outer);
  }

  lemma BlankAppend(a: string, b: string)
    requires Blank(a) && Blank(b)
    ensures Blank(a + b)
  {
  }

  lemma Regroup(lead: string, gap: string, p: string, inner: string, outer: string)
    ensures lead + ("data:" + (gap + p + inner)) + outer == lead + "data:" + gap + p + (inner + outer)
  {
  }

  /** One line of a provider's stream: a payload with white space around, or a line that is no data line. */
  datatype Line = Data(lead: string, gap: string, payload: string, trail: string) | Other(text: string)

  function LineText(line: Line): string {
    match line
    case Data(lead, gap, p, trail) => lead + "data:" + gap + p + trail
    case Other(text) => text
  }

  /** A line feed ends a line, and a carriage return before it belongs to the ending. */
  ghost predicate IsLine(line: Line) {
    && NoLineFeed(LineText(line)) && (LineText(line) != "" ==> LineText(line)[|LineText(line)| - 1] != '\r')
    && match line
       case Data(lead, gap, p, trail) => Blank(lead) && Blank(gap) && Blank(trail) && IsPayload(p)
       case Other(text) => forall lead, gap, p, trail :: MadeOf(text, lead, gap, p, trail) ==> !IsPayload(p)
  }

  ghost predicate MadeOf(text: string, lead: string, gap: string, p: string, trail: string) {
    Blank(lead) && Blank(gap) && Blank(trail) && text == lead + "data:" + gap + p + trail
  }

  /** Lines one after the other, each ended by a line feed alone or after a carriage return. */
  function StreamText(lines: seq<Line>, crlf: seq<bool>): string
    requires |crlf| == |lines|
  {
    if lines == [] then ""
    else LineText(lines[0]) + (if crlf[0] then "\r\n" else "\n") + StreamText(lines[1..], crlf[1..])
  }

  /** The text of every payload that has any, in order. */
  function Texts(parse: string -> string, lines: seq<Line>): seq<string> {
    if lines == [] then []
    else (if lines[0].Data? && parse(lines[0].payload) != "" then [parse(lines[0].payload)] else []) + Texts(parse, lines[1..])
  }

  // ---------------------------------------------------------------- splitting piece by piece

  predicate NoLineFeed(s: string) {
    '\n' !in s
  }

  lemma {:induction false} OneLine(s: string)
    requires NoLineFeed(s)
    ensures SplitLines(s) == [s]
  {
    if s != "" {
      assert s[0] in s;
      assert |s| > 1 ==> s[1] in s;
      forall c | c in s[1..] ensures c in s {}
      OneLine(s[1..]);
      assert [s[0]] + s[1..] == s;
    }
  }

  function Rest(lines: seq<string>): string
    requires lines != []
  {
    lines[|lines| - 1]
  }

  lemma {:induction false} NoFeedInLast(s: string)
    ensures NoLineFeed(Rest(SplitLines(s)))
    ensures !NoLineFeed(s) ==> |SplitLines(s)| > 1
    decreases |s|
  {
    hide SplitLines, NoLineFeed;
    if s == "" {
      SplitEmpty();
    } else {
      SplitStep(s);
      FeedAhead(s);
      NoFeedInLast(s[1..]);
      if |s| > 1 && s[0] == '\r' && s[1] == '\n' {
        NoFeedInLast(s[2..]);
      } else if s[0] != '\n' {
        NoFeedPrepend(s[0], SplitLines(s[1..]));
      }
    }
  }

  lemma NoFeedPrepend(c: char, lines: seq<string>)
    requires lines != [] && c != '\n' && NoLineFeed(Rest(lines))
    ensures NoLineFeed(Rest(Prepend(c, lines)))
  {
    NoFeedAppend([c], lines[0]);
  }

  lemma SplitEmpty()
    ensures SplitLines("") == [""] && NoLineFeed("")
  {
  }

  lemma FeedAhead(s: string)
    requires s != ""
    ensures NoLineFeed(s) <==> s[0] != '\n' && NoLineFeed(s[1..])
  {
    assert s == [s[0]] + s[1..];
  }

  lemma NoFeedAppend(a: string, b: string)
    ensures NoLineFeed(a + b) <==> NoLineFeed(a) && NoLineFeed(b)
  {
  }

  /** One step of splitting. */
  lemma SplitStep(s: string)
    requires s != ""
    ensures s[0] == '\n' ==> SplitLines(s) == [""] + SplitLines(s[1..])
    ensures |s| > 1 && s[0] == '\r' && s[1] == '\n' ==> SplitLines(s) == [""] + SplitLines(s[2..])
    ensures s[0] != '\n' && !(|s| > 1 && s[0] == '\r' && s[1] == '\n') ==> SplitLines(s) == Prepend(s[0], SplitLines(s[1..]))
  {
  }

  /** Text that follows only touches the line still open, even when the cut falls between CR and LF. */
  lemma {:induction false} SplitAppend(a: string, b: string)
    ensures SplitLines(a + b) == Closed(SplitLines(a)) + SplitLines(Rest(SplitLines(a)) + b)
    decreases |a|
  {
    hide SplitLines;
    if NoLineFeed(a) {
      OneLine(a);
    } else {
      SplitStep(a);
      SplitStep(a + b);
      assert (a + b)[1..] == a[1..] + b;
      SplitAppend(a[1..], b);
      if a[0] == '\n' {
        ClosedAfter("", SplitLines(a[1..]));
      } else if |a| > 1 && a[0] == '\r' && a[1] == '\n' {
        assert (a + b)[2..] == a[2..] + b;
        SplitAppend(a[2..], b);
        ClosedAfter("", SplitLines(a[2..]));
      } else {
        assert a == [a[0]] + a[1..];
        NoFeedInLast(a[1..]);
        PrependToFront(a[0], SplitLines(a[1..]), SplitLines(Rest(SplitLines(a[1..])) + b));
      }
    }
  }

  lemma PrependToFront(c: char, front: seq<string>, back: seq<string>)
    requires |front| > 1 && back != []
    ensures Prepend(c, Closed(front) + back) == Closed(Prepend(c, front)) + back
    ensures Rest(Prepend(c, front)) == Rest(front)
  {
  }

  /** All lines but the open one. */
  function Closed(lines: seq<string>): seq<string>
    requires lines != []
  {
    lines[..|lines| - 1]
  }

  lemma ClosedAfter(line: string, lines: seq<string>)
    requires lines != []
    ensures Closed([line] + lines) == [line] + Closed(lines) && Rest([line] + lines) == Rest(lines)
  {
  }

  lemma {:induction false} DeltasAppend(parse: string -> string, a: seq<string>, b: seq<string>)
    ensures Deltas(parse, a + b) == Deltas(parse, a) + Deltas(parse, b)
  {
    hide Delta;
    if b == [] {
      assert a + b == a;
    } else {
      assert (a + b)[..|a + b| - 1] == a + b[..|b| - 1] && (a + b)[|a + b| - 1] == b[|b| - 1];
      DeltasAppend(parse, a, b[..|b| - 1]);
    }
  }

  // ---------------------------------------------------------------- the law of a stream

  lemma {:induction false} SplitFirstLine(line: string, rest: string)
    requires NoLineFeed(line) && (line != "" ==> line[|line| - 1] != '\r')
    ensures SplitLines(line + "\n" + rest) == [line] + SplitLines(rest)
    ensures SplitLines(line + "\r\n" + rest) == [line] + SplitLines(rest)
    decreases |line|
  {
    hide SplitLines, NoLineFeed;
    var lf, crlf := line + "\n" + rest, line + "\r\n" + rest;
    SplitStep(lf);
    SplitStep(crlf);
    if line == "" {
      assert lf[1..] == rest && crlf[2..] == rest;
    } else {
      FeedAhead(line);
      SplitFirstLine(line[1..], rest);
      assert lf[1..] == line[1..] + "\n" + rest && crlf[1..] == line[1..] + "\r\n" + rest;
      assert [line[0]] + line[1..] == line;
      NextIsNoFeed(line, rest);
      PrependToFirst(line[0], line[1..], SplitLines(rest));
    }
  }

  lemma NextIsNoFeed(line: string, rest: string)
    requires line != "" && NoLineFeed(line) && line[|line| - 1] != '\r'
    ensures line[0] != '\n'
    ensures var lf, crlf := line + "\n" + rest, line + "\r\n" + rest;
      !(lf[0] == '\r' && lf[1] == '\n') && !(crlf[0] == '\r' && crlf[1] == '\n')
  {
    if |line| > 1 {
      assert line[1] in line;
    }
  }

  lemma PrependToFirst(c: char, head: string, rest: seq<string>)
    ensures Prepend(c, [head] + rest) == [[c] + head] + rest
  {
  }

  lemma DeltaOfLine(parse: string -> string, line: Line)
    requires IsLine(line)
    ensures Delta(parse, LineText(line)) == if line.Data? then parse(line.payload) else ""
  {
    hide DataLine, NoLineFeed;
    match line
    case Data(lead, gap, p, trail) =>
      DataLineGives(lead, gap, p, trail);
    case Other(text) =>
      MadeWhenData(text);
  }

  lemma MadeWhenData(text: string)
    ensures DataLine(text).Some? ==>
      exists lead, gap, p, trail :: MadeOf(text, lead, gap, p, trail) && IsPayload(p)
  {
    hide DataLine;
    if DataLine(text).Some? {
      var lead, gap, trail := DataLineIsMadeSo(text);
      assert MadeOf(text, lead, gap, DataLine(text).value, trail);
    }
  }

  /** The texts of one line: one or none. */
  function TextOf(parse: string -> string, line: Line): seq<string> {
    if line.Data? && parse(line.payload) != "" then [parse(line.payload)] else []
  }

  function Ending(crlf: bool): string {
    if crlf then "\r\n" else "\n"
  }

  lemma DeltasOfFirstLine(parse: string -> string, line: Line, crlf: bool, rest: string)
    requires IsLine(line)
    ensures Deltas(parse, SplitLines(LineText(line) + Ending(crlf) + rest)) == TextOf(parse, line) + Deltas(parse, SplitLines(rest))
  {
    SplitFirstLine(LineText(line), rest);
    DeltaOfLine(parse, line);
    OneDelta(parse, LineText(line));
    DeltasAppend(parse, [LineText(line)], SplitLines(rest));
    hide SplitLines, Deltas, LineText, IsLine;
  }

  lemma StreamStarts(parse: string -> string, lines: seq<Line>, crlf: seq<bool>)
    requires |crlf| == |lines| && lines != []
    ensures StreamText(lines, crlf) == LineText(lines[0]) + Ending(crlf[0]) + StreamText(lines[1..], crlf[1..])
    ensures Texts(parse, lines) == TextOf(parse, lines[0]) + Texts(parse, lines[1..])
  {
    hide LineText;
  }

  lemma {:induction false} DeltasOfText(parse: string -> string, lines: seq<Line>, crlf: seq<bool>)
    requires |crlf| == |lines| && forall i | 0 <= i < |lines| :: IsLine(lines[i])
    ensures Deltas(parse, SplitLines(StreamText(lines, crlf))) == Texts(parse, lines)
    decreases |lines|
  {
    if lines == [] {
      SplitEmpty();
      OneDelta(parse, "");
      EmptyLineIsNoData();
    } else {
      hide *;
      assert IsLine(lines[0]);
      DeltasOfText(parse, lines[1..], crlf[1..]);
      DeltasOfFirstLine(parse, lines[0], crlf[0], StreamText(lines[1..], crlf[1..]));
      StreamStarts(parse, lines, crlf);
    }
  }

  lemma EmptyLineIsNoData()
    ensures DataLine("") == None
  {
    assert Trim("") == "" by { TrimKeepsTrimmed(""); }
  }

  /** A byte order mark is white space, so dropping one changes no line's payload. */
  lemma MarkIsBlank(line: string)
    ensures Trim([Utf8.BYTE_ORDER_MARK] + line) == Trim(line)
  {
    assert ([Utf8.BYTE_ORDER_MARK] + line)[1..] == line;
  }

  lemma DropMarkKeepsDeltas(parse: string -> string, text: string)
    ensures Deltas(parse, SplitLines(Utf8.DropByteOrderMark(text))) == Deltas(parse, SplitLines(text))
  {
    if text != "" && text[0] == Utf8.BYTE_ORDER_MARK {
      var rest := text[1..];
      SplitStep(text);
      var lines := SplitLines(rest);
      hide SplitLines, Deltas;
      assert SplitLines(text) == Prepend(text[0], lines) == [[text[0]] + lines[0]] + lines[1..];
      assert lines == [lines[0]] + lines[1..];
      MarkIsBlank(lines[0]);
      DeltasAppend(parse, [[text[0]] + lines[0]], lines[1..]);
      DeltasAppend(parse, [lines[0]], lines[1..]);
      OneDelta(parse, [text[0]] + lines[0]);
      OneDelta(parse, lines[0]);
    }
  }

  /**
   For any lines and line endings, however the bytes are cut into reads: the stream says the texts
   of its data lines, in order.
   */
  lemma StreamSaysItsDataLines(parse: string -> string, lines: seq<Line>, crlf: seq<bool>, chunks: seq<seq<Byte>>)
    requires |crlf| == |lines| && forall i | 0 <= i < |lines| :: IsLine(lines[i])
    requires Flatten(chunks) == Utf8.Encode(StreamText(lines, crlf))
    ensures StreamDeltas(parse, Flatten(chunks)) == Texts(parse, lines)
  {
    hide *;
    TextOfEncoding(parse, StreamText(lines, crlf));
    DropMarkKeepsDeltas(parse, StreamText(lines, crlf));
    DeltasOfText(parse, lines, crlf);
  }

  // ---------------------------------------------------------------- the loop

  /** parseStreamResponse: `log` is what onChunk was called with, in order. */
  method ParseStreamResponse(parse: string -> string, chunks: seq<seq<Byte>>) returns (text: string, log: seq<string>)
    ensures log == StreamDeltas(parse, Flatten(chunks))
    ensures text == Trim(Flatten(log))
  {
    var decoder := Utf8.FRESH;
    var buffered, aggregated := "", "";
    log := [];
    hide Utf8.Decode, SplitLines, Deltas, Flatten, Trim;
    ghost var seen: seq<Byte> := [];
    NothingPending(parse);
    var i := 0;
    while i < |chunks|
      invariant 0 <= i <= |chunks| && seen == Flatten(chunks[..i])
      invariant decoder == Utf8.Decode(Utf8.FRESH, seen).0
      invariant Pending(parse, Utf8.Decode(Utf8.FRESH, seen).1, buffered, log)
      invariant aggregated == Flatten(log)
    {
      var (next, piece) := Utf8.Decode(decoder, chunks[i]);
      Utf8.DecodeConcat(Utf8.FRESH, seen, chunks[i]);
      FlattenSnoc(chunks[..i], chunks[i]);
      assert chunks[..i + 1] == chunks[..i] + [chunks[i]];
      ghost var before := Utf8.Decode(Utf8.FRESH, seen).1;
      seen := seen + chunks[i];
      decoder := next;
      var lines := SplitLines(buffered + piece);
      MorePending(parse, before, piece, buffered, log);
      buffered := Rest(lines);
      var more := ParseLines(parse, lines[..|lines| - 1]);
      aggregated := aggregated + Flatten(more);
      FlattenAppend(log, more);
      log := log + more;
      i := i + 1;
    }
    assert chunks[..i] == chunks;
    var flushed := Utf8.Flush(decoder);
    LastLine(parse, Utf8.Decode(Utf8.FRESH, seen).1, flushed, buffered, log);
    buffered := buffered + flushed;
    if Trim(buffered) != "" {
      var payload := DataLine(buffered);
      if payload.Some? {
        var delta := parse(payload.value);
        if delta != "" {
          FlattenSnoc(log, delta);
          aggregated := aggregated + delta;
          log := log + [delta];
        }
      }
    }
    text := Trim(aggregated);
  }

  /** The inner loop over the complete lines of one read. */
  method ParseLines(parse: string -> string, lines: seq<string>) returns (deltas: seq<string>)
    ensures deltas == Deltas(parse, lines)
  {
    deltas := [];
    for i := 0 to |lines|
      invariant deltas == Deltas(parse, lines[..i])
    {
      assert lines[..i + 1][..i] == lines[..i];
      var payload := DataLine(lines[i]);
      if payload.Some? {
        var delta := parse(payload.value);
        if delta != "" {
          deltas := deltas + [delta];
        }
      }
    }
    assert lines[..|lines|] == lines;
  }

  /** The open line is buffered, everything before it has been reported. */
  ghost predicate Pending(parse: string -> string, text: string, buffered: string, log: seq<string>) {
    var lines := SplitLines(text);
    buffered == Rest(lines) && log == Deltas(parse, lines[..|lines| - 1])
  }

  lemma NothingPending(parse: string -> string)
    ensures Utf8.Decode(Utf8.FRESH, []) == (Utf8.FRESH, "")
    ensures Pending(parse, "", "", []) && Flatten<char>([]) == "" && Flatten<Byte>([]) == []
  {
  }

  lemma MorePending(parse: string -> string, text: string, piece: string, buffered: string, log: seq<string>)
    requires Pending(parse, text, buffered, log)
    ensures var lines := SplitLines(buffered + piece);
      Pending(parse, text + piece, Rest(lines), log + Deltas(parse, lines[..|lines| - 1]))
  {
    hide SplitLines, Deltas, NoLineFeed;
    SplitAppend(text, piece);
    var earlier, lines := SplitLines(text), SplitLines(buffered + piece);
    var all := SplitLines(text + piece);
    assert all[..|all| - 1] == earlier[..|earlier| - 1] + lines[..|lines| - 1];
    DeltasAppend(parse, earlier[..|earlier| - 1], lines[..|lines| - 1]);
  }

  lemma LastLine(parse: string -> string, text: string, flushed: string, buffered: string, log: seq<string>)
    requires Pending(parse, text, buffered, log) && NoLineFeed(flushed)
    ensures Deltas(parse, SplitLines(text + flushed)) == log + Deltas(parse, [buffered + flushed])
    ensures Deltas(parse, [buffered + flushed]) ==
      if Delta(parse, buffered + flushed) == "" then [] else [Delta(parse, buffered + flushed)]
  {
    hide SplitLines, Deltas, NoLineFeed;
    NoFeedInLast(text);
    NoFeedAppend(buffered, flushed);
    OneLine(buffered + flushed);
    OneDelta(parse, buffered + flushed);
    SplitAppend(text, flushed);
    var lines := SplitLines(text);
    DeltasAppend(parse, lines[..|lines| - 1], [buffered + flushed]);
  }

  lemma OneDelta(parse: string -> string, line: string)
    ensures Deltas(parse, [line]) == if Delta(parse, line) == "" then [] else [Delta(parse, line)]
  {
    assert [line][..0] == [];
    assert Deltas(parse, []) == [];
  }
}
