/** The event-stream reader beside the interpretation of event streams in section 9.2.6 of the HTML Standard. */
module SseStandard {
  import opened Wrappers
  import opened JsText
  import opened SseReader

  /** The terminated lines of a text by section 9.2.6 of the HTML Standard: CRLF, LF and CR all end a line. */
  function StandardLines(text: string): seq<string>
    decreases |text|
  {
    if text == "" then []
    else if text[0] == '\n' then [""] + StandardLines(text[1..])
    else if text[0] == '\r' then
      [""] + StandardLines(if |text| > 1 && text[1] == '\n' then text[2..] else text[1..])
    else
      var rest := StandardLines(text[1..]);
      if rest == [] then [] else [[text[0]] + rest[0]] + rest[1..]
  }

  /** The name of a field is what comes before the first colon, or the whole line. */
  function FieldName(line: string): string {
    var colon := IndexOf(line, ':');
    if colon == -1 then line else line[..colon]
  }

  /** Its value is what comes after it, less one space. */
  function FieldValue(line: string): string {
    var colon := IndexOf(line, ':');
    if colon == -1 then ""
    else
      var value := line[colon + 1..];
      if StartsWith(value, " ") then value[1..] else value
  }

  predicate IsData(line: string) { FieldName(line) == "data" }

  /** The data of the dispatched events; `buffer` collects the data lines of the current one, each with a newline. */
  function StandardData(lines: seq<string>, buffer: string): seq<string> {
    if lines == [] then []
    else if lines[0] == "" then
      (if buffer == "" then [] else [buffer[..|buffer| - 1]]) + StandardData(lines[1..], "")
    else StandardData(lines[1..], if IsData(lines[0]) then buffer + FieldValue(lines[0]) + "\n" else buffer)
  }

  function ParseAll<T>(texts: seq<string>, parse: string -> Option<T>): seq<T> {
    if texts == [] then [] else Yielded(parse(texts[0])) + ParseAll(texts[1..], parse)
  }

  /** What a standard reader makes of the text, parsing the data of each event. */
  function StandardEvents<T>(text: string, parse: string -> Option<T>): seq<T> {
    ParseAll(StandardData(StandardLines(text), ""), parse)
  }

  predicate NoLoneReturn(text: string) {
    forall i :: 0 <= i < |text| && text[i] == '\r' ==> i + 1 < |text| && text[i + 1] == '\n'
  }

  /** The value of a data line parses as it does without the blanks in front of it; a line without a colon has none. */
  ghost predicate BlanksAside<T>(line: string, parse: string -> Option<T>) {
    if ':' in line then parse(TrimStart(FieldValue(line))) == parse(FieldValue(line)) else parse("").None?
  }

  /** Each event has at most one data line, and one that has is closed by a blank line; `pending` says that the current
      event has had its own. */
  ghost predicate OneDataLine<T>(lines: seq<string>, pending: bool, parse: string -> Option<T>) {
    if lines == [] then !pending
    else if lines[0] == "" then OneDataLine(lines[1..], false, parse)
    else if IsData(lines[0]) then
      && !pending
      && BlanksAside(lines[0], parse)
      && OneDataLine(lines[1..], true, parse)
    else OneDataLine(lines[1..], pending, parse)
  }

  function DataEvents<T>(lines: seq<string>, parse: string -> Option<T>): seq<T> {
    if lines == [] then [] else DataEvent(lines[0], parse) + DataEvents(lines[1..], parse)
  }

  /** The reader's `data:` lines are the standard's data fields with a colon. */
  lemma {:induction false} DataLine(line: string)
    ensures StartsWith(line, "data:") <==> IsData(line) && ':' in line
    ensures StartsWith(line, "data:") ==> TrimStart(line[5..]) == TrimStart(FieldValue(line))
  {
    var colon := IndexOf(line, ':');
    if IsData(line) && ':' in line {
      assert line[..5] == line[..4] + [line[4]];
    }
    if StartsWith(line, "data:") {
      assert line[4] == ':' && forall i :: 0 <= i < 4 ==> line[i] == "data:"[i];
      assert colon == 4;
      assert line[..4] == "data";
    }
  }

  lemma {:induction false} DataLineYields<T>(line: string, parse: string -> Option<T>)
    requires IsData(line) && BlanksAside(line, parse)
    ensures DataEvent(line, parse) == Yielded(parse(FieldValue(line)))
  {
    DataLine(line);
    if ':' !in line {
      assert IndexOf(line, ':') == -1;
    }
  }

  lemma {:induction false} OtherLineYields<T>(line: string, parse: string -> Option<T>)
    requires !IsData(line)
    ensures DataEvent(line, parse) == []
  {
    DataLine(line);
  }

  // ------------------------------------------------ the standard line by line

  lemma StandardField(line: string, rest: seq<string>, buffer: string)
    requires line != ""
    ensures StandardData([line] + rest, buffer) ==
            StandardData(rest, if IsData(line) then buffer + FieldValue(line) + "\n" else buffer)
  {
    assert ([line] + rest)[1..] == rest;
  }

  lemma StandardBlank(rest: seq<string>, buffer: string)
    ensures StandardData([""] + rest, buffer) ==
            (if buffer == "" then [] else [buffer[..|buffer| - 1]]) + StandardData(rest, "")
  {
    assert ([""] + rest)[1..] == rest;
  }

  lemma ParseAllCons<T>(text: string, texts: seq<string>, parse: string -> Option<T>)
    ensures ParseAll([text] + texts, parse) == Yielded(parse(text)) + ParseAll(texts, parse)
  {
    assert ([text] + texts)[1..] == texts;
  }

  lemma DataEventsCons<T>(line: string, lines: seq<string>, parse: string -> Option<T>)
    ensures DataEvents([line] + lines, parse) == DataEvent(line, parse) + DataEvents(lines, parse)
  {
    assert ([line] + lines)[1..] == lines;
  }

  /** What the buffer holds of the current event. */
  function Buffer(pending: bool, value: string): string { if pending then value + "\n" else "" }

  function Held<T>(pending: bool, value: string, parse: string -> Option<T>): seq<T> {
    if pending then Yielded(parse(value)) else []
  }

  lemma {:induction false} BlankLine<T>(rest: seq<string>, pending: bool, value: string, parse: string -> Option<T>)
    ensures ParseAll(StandardData([""] + rest, Buffer(pending, value)), parse) ==
            Held(pending, value, parse) + ParseAll(StandardData(rest, ""), parse)
  {
    StandardBlank(rest, Buffer(pending, value));
    if pending {
      assert (value + "\n")[..|value|] == value;
      ParseAllCons(value, StandardData(rest, ""), parse);
    } else {
      assert [] + StandardData(rest, "") == StandardData(rest, "");
    }
  }

  /** A data line read, the standard's buffer holds it until the blank line; the reader has already yielded it. */
  lemma {:induction false} StandardFrom<T>(lines: seq<string>, pending: bool, value: string,
                                           parse: string -> Option<T>)
    requires OneDataLine(lines, pending, parse)
    ensures ParseAll(StandardData(lines, Buffer(pending, value)), parse) ==
            Held(pending, value, parse) + DataEvents(lines, parse)
  {
    if lines != [] {
      var line, rest := lines[0], lines[1..];
      assert lines == [line] + rest;
      DataEventsCons(line, rest, parse);
      if line == "" {
        StandardFrom(rest, false, "", parse);
        BlankLine(rest, pending, value, parse);
        OtherLineYields(line, parse);
      } else if IsData(line) {
        StandardFrom(rest, true, FieldValue(line), parse);
        StandardField(line, rest, "");
        DataLineYields(line, parse);
        assert "" + FieldValue(line) == FieldValue(line);
      } else {
        StandardFrom(rest, pending, value, parse);
        StandardField(line, rest, Buffer(pending, value));
        OtherLineYields(line, parse);
      }
      assert [] + DataEvents(rest, parse) == DataEvents(rest, parse);
    }
  }

  // -------------------------------------------------------- the same lines

  /** The standard's lines are the reader's less their carriage returns. */
  ghost predicate SameLines(lines: seq<string>, raw: seq<string>) {
    |lines| == |raw| && forall i :: 0 <= i < |raw| ==> lines[i] == DropCarriageReturn(raw[i])
  }

  lemma {:induction false} DropCons(c: char, line: string)
    requires c != '\r'
    ensures DropCarriageReturn([c] + line) == [c] + DropCarriageReturn(line)
  {
    assert line != "" ==> ([c] + line)[..|line|] == [c] + line[..|line| - 1];
  }

  lemma {:induction false} LinesAfterReturn(s: string)
    requires SameLines(StandardLines(s), Lines(s))
    ensures SameLines(StandardLines("\r\n" + s), Lines("\r\n" + s))
  {
    LinesCons('\n', s);
    LinesCons('\r', ['\n'] + s);
    assert "\r\n" + s == ['\r'] + (['\n'] + s);
    assert ([""] + Lines(s))[1..] == Lines(s);
    assert ['\r'] + "" == "\r";
    assert ("\r\n" + s)[2..] == s;
    assert Lines("\r\n" + s) == ["\r"] + Lines(s);
  }

  lemma {:induction false} LinesAfterChar(c: char, s: string)
    requires c != '\r' && SameLines(StandardLines(s), Lines(s))
    ensures SameLines(StandardLines([c] + s), Lines([c] + s))
  {
    LinesCons(c, s);
    assert ([c] + s)[1..] == s;
    if c != '\n' && Lines(s) != [] {
      DropCons(c, Lines(s)[0]);
    }
  }

  lemma {:induction false} StandardLinesAre(text: string)
    requires NoLoneReturn(text)
    ensures SameLines(StandardLines(text), Lines(text))
    decreases |text|
  {
    if text != "" {
      if text[0] == '\r' {
        var s := text[2..];
        assert text == "\r\n" + s;
        assert forall i :: 0 <= i < |s| ==> s[i] == text[i + 2];
        StandardLinesAre(s);
        LinesAfterReturn(s);
      } else {
        var s := text[1..];
        assert text == [text[0]] + s;
        assert forall i :: 0 <= i < |s| ==> s[i] == text[i + 1];
        StandardLinesAre(s);
        LinesAfterChar(text[0], s);
      }
    }
  }

  lemma {:induction false} DataEventsAre<T>(lines: seq<string>, raw: seq<string>, parse: string -> Option<T>)
    requires SameLines(lines, raw)
    ensures DataEvents(lines, parse) == LineEvents(raw, parse)
  {
    if raw != [] {
      DataEventsAre(lines[1..], raw[1..], parse);
    }
  }

  /** On text without a lone CR whose events hold one data line each and are closed, the reader yields what a standard
      reader does. */
  lemma {:induction false} StandardAgrees<T>(text: string, parse: string -> Option<T>)
    requires NoLoneReturn(text) && OneDataLine(StandardLines(text), false, parse)
    ensures Events(text, parse) == StandardEvents(text, parse)
  {
    StandardLinesAre(text);
    DataEventsAre(StandardLines(text), Lines(text), parse);
    StandardFrom(StandardLines(text), false, "", parse);
  }

  // ---------------------------------------------- events of two data lines

  predicate OneLine(s: string) { '\n' !in s && '\r' !in s }

  /** An event of two lines. */
  function TwoLines(x: string, y: string): string { x + "\n" + (y + "\n" + "\n") }

  lemma {:induction false} DataFieldLine<T>(a: string, parse: string -> Option<T>)
    requires OneLine(a)
    ensures IsData("data:" + a) && OneLine("data:" + a)
    ensures LineEvent("data:" + a, parse) == Yielded(parse(TrimStart(a)))
  {
    var x := "data:" + a;
    assert StartsWith(x, "data:") && x[5..] == a;
    DataLine(x);
  }

  lemma {:induction false} BlankYieldsNothing<T>(parse: string -> Option<T>)
    ensures Events("\n", parse) == []
  {
    EventsFirstLine("", "", parse);
    assert "" + "\n" + "" == "\n";
    EventsNoLine("", parse);
  }

  lemma NothingMore<T>(s: seq<T>)
    ensures s + [] == s
  {
  }

  lemma {:induction false} ReaderOfTwo<T>(x: string, y: string, parse: string -> Option<T>)
    requires OneLine(x) && OneLine(y)
    ensures Events(TwoLines(x, y), parse) == LineEvent(x, parse) + LineEvent(y, parse)
  {
    EventsFirstLine(x, y + "\n" + "\n", parse);
    EventsFirstLine(y, "\n", parse);
    BlankYieldsNothing(parse);
    NothingMore(LineEvent(y, parse));
  }

  lemma {:induction false} StandardLine(line: string, rest: string)
    requires OneLine(line)
    ensures StandardLines(line + "\n" + rest) == [line] + StandardLines(rest)
  {
    var text := line + "\n" + rest;
    if line == "" {
      assert text[1..] == rest;
    } else {
      assert text[1..] == line[1..] + "\n" + rest;
      StandardLine(line[1..], rest);
      assert [line[0]] + line[1..] == line;
    }
  }

  lemma {:induction false} LinesOfTwo(x: string, y: string)
    requires OneLine(x) && OneLine(y)
    ensures StandardLines(TwoLines(x, y)) == [x] + ([y] + ([""] + []))
  {
    StandardLine(x, y + "\n" + "\n");
    StandardLine(y, "\n");
    StandardLine("", "");
    assert "" + "\n" + "" == "\n";
  }

  lemma {:induction false} StandardOfTwo(x: string, y: string)
    requires x != "" && y != "" && IsData(x) && IsData(y)
    ensures StandardData([x] + ([y] + ([""] + [])), "") == [FieldValue(x) + "\n" + FieldValue(y)]
  {
    var v, w := FieldValue(x), FieldValue(y);
    StandardField(x, [y] + ([""] + []), "");
    StandardField(y, [""] + [], "" + v + "\n");
    StandardBlank([], "" + v + "\n" + w + "\n");
    WithoutLast(v, w);
  }

  lemma WithoutLast(v: string, w: string)
    ensures var buffer := "" + v + "\n" + w + "\n"; buffer[..|buffer| - 1] == v + "\n" + w
  {
  }

  /** Two data lines in one event are one text to the standard, and two to the reader. */
  lemma {:induction false} TwoDataLines<T>(a: string, b: string, parse: string -> Option<T>)
    requires OneLine(a) && OneLine(b)
    ensures var x, y := "data:" + a, "data:" + b;
            && Events(TwoLines(x, y), parse) == Yielded(parse(TrimStart(a))) + Yielded(parse(TrimStart(b)))
            && StandardEvents(TwoLines(x, y), parse) == Yielded(parse(FieldValue(x) + "\n" + FieldValue(y)))
  {
    var x, y := "data:" + a, "data:" + b;
    DataFieldLine(a, parse);
    DataFieldLine(b, parse);
    ReaderOfTwo(x, y, parse);
    LinesOfTwo(x, y);
    StandardOfTwo(x, y);
    ParseOne(FieldValue(x) + "\n" + FieldValue(y), parse);
  }

  lemma ParseOne<T>(text: string, parse: string -> Option<T>)
    ensures ParseAll([text], parse) == Yielded(parse(text))
  {
    assert [text][1..] == [];
  }
}
