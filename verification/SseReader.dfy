/** The incremental reader of a server-sent-event stream: byte chunks through a
    streaming `TextDecoder`, then a line loop over a carried buffer. */
module SseReader {
  import opened Wrappers
  import opened JsText
  import opened Utf8

  const BOM: char := 0xFEFF as char

  // ------------------------------------------------------------ TextDecoder

  /** `new TextDecoder()`: the UTF-8 state, and whether the leading byte order mark has been dealt with. */
  datatype TextDecoder = TextDecoder(utf8: Decoder, begun: bool)

  const FRESH: TextDecoder := TextDecoder(Start, false)

  /** `decoder.decode(value, { stream: true })`. */
  function DecodeChunk(d: TextDecoder, value: seq<byte>): (TextDecoder, string) {
    var (s, out) := Decode(d.utf8, value);
    if d.begun || out == "" then (TextDecoder(s, d.begun), out)
    else (TextDecoder(s, true), StripBom(out))
  }

  function StripBom(s: string): string {
    if s != "" && s[0] == BOM then s[1..] else s
  }

  /** The text of a byte stream, before any cutting into chunks; an unfinished last character is not in it. */
  function StreamText(bytes: seq<byte>): string {
    StripBom(Decode(Start, bytes).1)
  }

  function Flatten(chunks: seq<seq<byte>>): seq<byte> {
    if chunks == [] then [] else chunks[0] + Flatten(chunks[1..])
  }

  lemma {:induction false} FlattenSnoc(chunks: seq<seq<byte>>, last: seq<byte>)
    ensures Flatten(chunks + [last]) == Flatten(chunks) + last
  {
    if chunks == [] {
      assert Flatten([last]) == last + Flatten([]);
      assert chunks + [last] == [last];
    } else {
      assert (chunks + [last])[1..] == chunks[1..] + [last];
      FlattenSnoc(chunks[1..], last);
    }
  }

  lemma FlattenTake(chunks: seq<seq<byte>>, i: nat)
    requires i < |chunks|
    ensures Flatten(chunks[..i + 1]) == Flatten(chunks[..i]) + chunks[i]
  {
    assert chunks[..i + 1] == chunks[..i] + [chunks[i]];
    FlattenSnoc(chunks[..i], chunks[i]);
  }

  /** The decoder after `bytes`, however they arrived. */
  function DecoderAfter(bytes: seq<byte>): TextDecoder {
    var (s, out) := Decode(Start, bytes);
    TextDecoder(s, out != "")
  }

  lemma {:induction false} DecodeChunkAppends(bytes: seq<byte>, value: seq<byte>)
    ensures var (d, out) := DecodeChunk(DecoderAfter(bytes), value);
            d == DecoderAfter(bytes + value) && StreamText(bytes + value) == StreamText(bytes) + out
  {
    DecodeConcat(Start, bytes, value);
    var before := Decode(Start, bytes).1;
    var out := Decode(Decode(Start, bytes).0, value).1;
    if before == "" {
      assert before + out == out;
      assert StreamText(bytes) == "";
      assert StripBom(out) == "" + StripBom(out);
    } else if out == "" {
      assert before + out == before;
      assert StreamText(bytes) + "" == StreamText(bytes);
    } else if before[0] == BOM {
      assert (before + out)[1..] == before[1..] + out;
    }
  }

  // ------------------------------------------------------ the simple parser

  /** `line.replace(/\r$/, '')`. */
  function DropCarriageReturn(line: string): string {
    if line != "" && line[|line| - 1] == '\r' then line[..|line| - 1] else line
  }

  /** A parsed payload, if it parses. */
  function Yielded<T>(parsed: Option<T>): seq<T> {
    if parsed.Some? then [parsed.value] else []
  }

  /** What a line without its ending yields: the parsed payload of a `data:` line. */
  function DataEvent<T>(line: string, parse: string -> Option<T>): seq<T> {
    if StartsWith(line, "data:") then Yielded(parse(TrimStart(line[5..]))) else []
  }

  function LineEvent<T>(raw: string, parse: string -> Option<T>): seq<T> {
    DataEvent(DropCarriageReturn(raw), parse)
  }

  function LineEvents<T>(lines: seq<string>, parse: string -> Option<T>): seq<T> {
    if lines == [] then [] else LineEvent(lines[0], parse) + LineEvents(lines[1..], parse)
  }

  /** The newline-terminated lines of a text. */
  function Lines(text: string): seq<string> {
    var parts := Split(text, '\n');
    parts[..|parts| - 1]
  }

  /** The text after the last newline. */
  function Tail(text: string): string {
    var parts := Split(text, '\n');
    parts[|parts| - 1]
  }

  /** The whole-text parser: every terminated line in order, the unterminated tail ignored. */
  function Events<T>(text: string, parse: string -> Option<T>): seq<T> {
    LineEvents(Lines(text), parse)
  }

  lemma {:induction false} LineEventsConcat<T>(a: seq<string>, b: seq<string>, parse: string -> Option<T>)
    ensures LineEvents(a + b, parse) == LineEvents(a, parse) + LineEvents(b, parse)
  {
    if a == [] {
      assert a + b == b;
    } else {
      assert (a + b)[1..] == a[1..] + b;
      LineEventsConcat(a[1..], b, parse);
    }
  }

  /** One more character in front: a line of its own, part of the tail, or part of the first line. */
  lemma {:induction false} LinesCons(c: char, s: string)
    ensures c == '\n' ==> Lines([c] + s) == [""] + Lines(s) && Tail([c] + s) == Tail(s)
    ensures c != '\n' && Lines(s) == [] ==> Lines([c] + s) == [] && Tail([c] + s) == [c] + Tail(s)
    ensures c != '\n' && Lines(s) != [] ==>
              Lines([c] + s) == [[c] + Lines(s)[0]] + Lines(s)[1..] && Tail([c] + s) == Tail(s)
  {
    assert ([c] + s)[1..] == s;
    var rest := Split(s, '\n');
    if c != '\n' && Lines(s) != [] {
      assert Split([c] + s, '\n') == [[c] + rest[0]] + rest[1..];
    }
  }

  lemma {:induction false} SplitCons(c: char, s: string)
    ensures var rest := Split(s, '\n');
            Split([c] + s, '\n') == if c == '\n' then [""] + rest else [[c] + rest[0]] + rest[1..]
  {
    assert ([c] + s)[1..] == s;
  }

  /** What `SplitAppend` says. */
  ghost predicate Appends(a: string, b: string) {
    Split(a + b, '\n') == Lines(a) + Split(Tail(a) + b, '\n')
  }

  lemma {:induction false} AppendsNewline(s: string, b: string)
    requires Appends(s, b)
    ensures Appends(['\n'] + s, b)
  {
    LinesCons('\n', s);
    SplitCons('\n', s + b);
    Regroup(['\n'], s, b);
    Regroup([""], Lines(s), Split(Tail(s) + b, '\n'));
  }

  lemma {:induction false} AppendsToTail(c: char, s: string, b: string)
    requires Appends(s, b) && c != '\n' && Lines(s) == []
    ensures Appends([c] + s, b)
  {
    LinesCons(c, s);
    SplitCons(c, s + b);
    SplitCons(c, Tail(s) + b);
    Regroup([c], s, b);
    Regroup([c], Tail(s), b);
    assert [] + Split(Tail(s) + b, '\n') == Split(Tail(s) + b, '\n');
  }

  lemma {:induction false} AppendsToLine(c: char, s: string, b: string)
    requires Appends(s, b) && c != '\n' && Lines(s) != []
    ensures Appends([c] + s, b)
  {
    LinesCons(c, s);
    SplitCons(c, s + b);
    Regroup([c], s, b);
    ReplaceFirst(Lines(s), Split(Tail(s) + b, '\n'), [c] + Lines(s)[0]);
  }

  lemma ReplaceFirst<T>(x: seq<T>, y: seq<T>, first: T)
    requires x != []
    ensures (x + y)[0] == x[0] && [first] + (x + y)[1..] == [first] + x[1..] + y
  {
  }

  lemma {:induction false} SplitAppend(a: string, b: string)
    ensures Appends(a, b)
  {
    if a == "" {
      assert a + b == b;
    } else {
      var c, s := a[0], a[1..];
      assert a == [c] + s;
      SplitAppend(s, b);
      if c == '\n' {
        AppendsNewline(s, b);
      } else if Lines(s) == [] {
        AppendsToTail(c, s, b);
      } else {
        AppendsToLine(c, s, b);
      }
    }
  }

  lemma {:induction false} LinesAppend(a: string, b: string)
    ensures Lines(a + b) == Lines(a) + Lines(Tail(a) + b)
    ensures Tail(a + b) == Tail(Tail(a) + b)
  {
    SplitAppend(a, b);
  }

  /** Text read so far can be replaced by its unterminated tail. */
  lemma {:induction false} EventsAppend<T>(a: string, b: string, parse: string -> Option<T>)
    ensures Events(a + b, parse) == Events(a, parse) + Events(Tail(a) + b, parse)
    ensures Tail(a + b) == Tail(Tail(a) + b)
  {
    LinesAppend(a, b);
    LineEventsConcat(Lines(a), Lines(Tail(a) + b), parse);
  }

  lemma {:induction false} EventsFirstLine<T>(line: string, rest: string, parse: string -> Option<T>)
    requires '\n' !in line
    ensures Events(line + "\n" + rest, parse) == LineEvent(line, parse) + Events(rest, parse)
    ensures Tail(line + "\n" + rest) == Tail(rest)
  {
    assert line + "\n" + rest == line + ['\n'] + rest;
    SplitAtSeparator(line, rest, '\n');
    assert Lines(line + "\n" + rest) == [line] + Lines(rest);
  }

  lemma {:induction false} EventsNoLine<T>(text: string, parse: string -> Option<T>)
    requires '\n' !in text
    ensures Events(text, parse) == [] && Tail(text) == text
  {
    SplitWithoutSeparator(text, '\n');
  }

  /** An unterminated tail changes nothing. */
  lemma {:induction false} UnterminatedTailDropped<T>(text: string, tail: string, parse: string -> Option<T>)
    requires Tail(text) == "" && '\n' !in tail
    ensures Events(text + tail, parse) == Events(text, parse)
  {
    EventsAppend(text, tail, parse);
    assert "" + tail == tail;
    EventsNoLine(tail, parse);
  }

  // -------------------------------------------------- the incremental reader

  /** The reader's invariant inside a chunk: what is yielded, and what the buffer still holds, make up the text. */
  ghost predicate Reading<T>(text: string, buffer: string, yielded: seq<T>, parse: string -> Option<T>) {
    yielded + Events(buffer, parse) == Events(text, parse) && Tail(buffer) == Tail(text)
  }

  lemma {:induction false} ReadChunk<T>(bytes: seq<byte>, value: seq<byte>, yielded: seq<T>, parse: string -> Option<T>)
    requires yielded == Events(StreamText(bytes), parse)
    ensures var (d, out) := DecodeChunk(DecoderAfter(bytes), value);
            d == DecoderAfter(bytes + value)
            && Reading(StreamText(bytes + value), Tail(StreamText(bytes)) + out, yielded, parse)
  {
    DecodeChunkAppends(bytes, value);
    EventsAppend(StreamText(bytes), DecodeChunk(DecoderAfter(bytes), value).1, parse);
  }

  lemma {:induction false} ReadLine<T>(text: string, buffer: string, newline: nat, yielded: seq<T>,
                                       parse: string -> Option<T>)
    requires newline < |buffer| && buffer[newline] == '\n' && '\n' !in buffer[..newline]
    requires Reading(text, buffer, yielded, parse)
    ensures Reading(text, buffer[newline + 1..], yielded + LineEvent(buffer[..newline], parse), parse)
  {
    var line, rest := buffer[..newline], buffer[newline + 1..];
    CutAt(buffer, newline);
    EventsFirstLine(line, rest, parse);
    Regroup(yielded, LineEvent(line, parse), Events(rest, parse));
  }

  lemma CutAt(s: string, i: nat)
    requires i < |s| && s[i] == '\n'
    ensures s == s[..i] + "\n" + s[i + 1..]
  {
  }

  lemma {:induction false} ReadAllLines<T>(text: string, buffer: string, yielded: seq<T>, parse: string -> Option<T>)
    requires '\n' !in buffer && Reading(text, buffer, yielded, parse)
    ensures yielded == Events(text, parse) && buffer == Tail(text)
  {
    EventsNoLine(buffer, parse);
  }

  /** The nested loop over chunks and buffered lines. Its result is the simple parser's on the
      text of all the bytes, so how the stream was cut, inside a character or not, does not matter. */
  method Stream<T>(chunks: seq<seq<byte>>, parse: string -> Option<T>) returns (yielded: seq<T>)
    ensures yielded == Events(StreamText(Flatten(chunks)), parse)
  {
    var decoder := FRESH;
    var buffer := "";
    yielded := [];
    ghost var bytes: seq<byte> := [];
    for i := 0 to |chunks|
      invariant bytes == Flatten(chunks[..i])
      invariant decoder == DecoderAfter(bytes)
      invariant buffer == Tail(StreamText(bytes))
      invariant yielded == Events(StreamText(bytes), parse)
    {
      var value := chunks[i];
      ReadChunk(bytes, value, yielded, parse);
      FlattenTake(chunks, i);
      bytes := bytes + value;
      ghost var text := StreamText(bytes);

      var (next, out) := DecodeChunk(decoder, value);
      decoder := next;
      buffer := buffer + out;
      var newlineIndex := IndexOf(buffer, '\n');
      while newlineIndex != -1
        invariant newlineIndex == IndexOf(buffer, '\n')
        invariant Reading(text, buffer, yielded, parse)
        decreases |buffer|
      {
        ReadLine(text, buffer, newlineIndex, yielded, parse);
        ghost var yielded' := yielded + LineEvent(buffer[..newlineIndex], parse);
        var line := DropCarriageReturn(buffer[..newlineIndex]);
        buffer := buffer[newlineIndex + 1..];
        if StartsWith(line, "data:") {
          var payload := TrimStart(line[5..]);
          match parse(payload) {
            case Some(event) => yielded := yielded + [event];
            case None =>
          }
        }
        assert yielded == yielded';
        newlineIndex := IndexOf(buffer, '\n');
      }
      ReadAllLines(text, buffer, yielded, parse);
    }
    assert chunks[..|chunks|] == chunks;
  }

  // -------------------------------------------------------------- round trip

  /** One line a server writes: a value as a `data:` field, or any other line (a comment, another field, a blank
      separator). */
  datatype Frame<T> = Data(value: T, crlf: bool) | Other(line: string, crlf: bool)

  function LineText<T>(f: Frame<T>, render: T -> string): string {
    match f
    case Data(value, _) => "data: " + render(value)
    case Other(line, _) => line
  }

  function PrintFrames<T>(frames: seq<Frame<T>>, render: T -> string): string {
    if frames == [] then ""
    else LineText(frames[0], render) + (if frames[0].crlf then "\r\n" else "\n") + PrintFrames(frames[1..], render)
  }

  function Values<T>(frames: seq<Frame<T>>): seq<T> {
    if frames == [] then []
    else (if frames[0].Data? then [frames[0].value] else []) + Values(frames[1..])
  }

  /** What a printed JSON text is like, and what another line must not look like. */
  ghost predicate Printable<T>(f: Frame<T>, render: T -> string, parse: string -> Option<T>) {
    match f
    case Data(value, _) =>
      var json := render(value);
      json != "" && '\n' !in json && !IsSpace(json[0]) && json[|json| - 1] != '\r' && parse(json) == Some(value)
    case Other(line, _) =>
      '\n' !in line && !StartsWith(line, "data:")
  }

  lemma {:induction false} FrameEvent<T>(f: Frame<T>, render: T -> string, parse: string -> Option<T>)
    requires Printable(f, render, parse)
    ensures var raw := LineText(f, render) + (if f.crlf then "\r" else "");
            '\n' !in raw && LineEvent(raw, parse) == (if f.Data? then [f.value] else [])
  {
    var text := LineText(f, render);
    var raw := text + (if f.crlf then "\r" else "");
    match f {
      case Data(value, crlf) =>
        var json := render(value);
        assert text[|text| - 1] == json[|json| - 1];
        assert DropCarriageReturn(raw) == text;
        assert text[..5] == "data:";
        assert text[5..] == " " + json;
        assert TrimStart(json) == json;
        assert (" " + json)[1..] == json;
        assert TrimStart(" " + json) == json;
      case Other(line, crlf) =>
        var kept := DropCarriageReturn(raw);
        assert kept <= line;
        assert |kept| >= 5 ==> kept[..5] == line[..5];
    }
  }

  lemma {:induction false} PrintFramesHead<T>(frames: seq<Frame<T>>, render: T -> string)
    requires frames != []
    ensures PrintFrames(frames, render) ==
            LineText(frames[0], render) + (if frames[0].crlf then "\r" else "") + "\n"
              + PrintFrames(frames[1..], render)
  {
    assert "\r\n" == "\r" + "\n";
    assert LineText(frames[0], render) + "" == LineText(frames[0], render);
  }

  /** The simple parser undoes the event printer: LF or CRLF ends, blank separators and other lines included. */
  lemma {:induction false} EventsOfPrinted<T>(frames: seq<Frame<T>>, render: T -> string, parse: string -> Option<T>)
    requires forall i :: 0 <= i < |frames| ==> Printable(frames[i], render, parse)
    ensures Events(PrintFrames(frames, render), parse) == Values(frames)
  {
    if frames == [] {
      EventsNoLine("", parse);
    } else {
      var f := frames[0];
      var rest := PrintFrames(frames[1..], render);
      var raw := LineText(f, render) + (if f.crlf then "\r" else "");
      FrameEvent(f, render, parse);
      PrintFramesHead(frames, render);
      EventsFirstLine(raw, rest, parse);
      EventsOfPrinted(frames[1..], render, parse);
    }
  }

  /** The frames without a byte order mark at the front, which the decoder takes off. */
  function WithoutBom<T>(frames: seq<Frame<T>>): seq<Frame<T>> {
    if frames != [] && frames[0].Other? && StartsWith(frames[0].line, [BOM])
    then [frames[0].(line := frames[0].line[1..])] + frames[1..]
    else frames
  }

  lemma BomFront(head: string, tail: string)
    requires tail != "" && tail[0] != BOM
    ensures StripBom(head + tail) == (if StartsWith(head, [BOM]) then head[1..] + tail else head + tail)
  {
    if head != "" {
      assert head[..1] == [head[0]];
      assert (head + tail)[1..] == head[1..] + tail;
    }
  }

  function Ending<T>(f: Frame<T>): (r: string)
    ensures r != "" && r[0] != BOM
  {
    if f.crlf then "\r\n" else "\n"
  }

  lemma {:induction false} PrintCons<T>(f: Frame<T>, frames: seq<Frame<T>>, render: T -> string)
    ensures PrintFrames([f] + frames, render) == LineText(f, render) + (Ending(f) + PrintFrames(frames, render))
    ensures Values([f] + frames) == (if f.Data? then [f.value] else []) + Values(frames)
  {
    assert ([f] + frames)[1..] == frames;
    Regroup(LineText(f, render), Ending(f), PrintFrames(frames, render));
  }

  lemma {:induction false} PrintWithoutBom<T>(frames: seq<Frame<T>>, render: T -> string)
    ensures StripBom(PrintFrames(frames, render)) == PrintFrames(WithoutBom(frames), render)
    ensures Values(WithoutBom(frames)) == Values(frames)
  {
    if frames != [] {
      var f, rest := frames[0], frames[1..];
      assert frames == [f] + rest;
      PrintCons(f, rest, render);
      BomFront(LineText(f, render), Ending(f) + PrintFrames(rest, render));
      if WithoutBom(frames) != frames {
        PrintCons(f.(line := f.line[1..]), rest, render);
      } else {
        assert f.Data? ==> LineText(f, render)[0] == 'd';
      }
    }
  }

  /** End to end: print events, encode them as UTF-8, cut the bytes anywhere; exactly the values come out, in order. A
      byte order mark in front of a line of another kind must not hide a `data` field. */
  lemma {:induction false} StreamRoundTrip<T>(frames: seq<Frame<T>>, render: T -> string, parse: string -> Option<T>,
                                              chunks: seq<seq<byte>>)
    requires forall i :: 0 <= i < |frames| ==> Printable(frames[i], render, parse)
    requires frames != [] && StartsWith(LineText(frames[0], render), [BOM]) ==>
               !StartsWith(LineText(frames[0], render)[1..], "data:")
    requires Flatten(chunks) == Encode(PrintFrames(frames, render))
    ensures Events(StreamText(Flatten(chunks)), parse) == Values(frames)
  {
    DecodeEncode(PrintFrames(frames, render));
    PrintWithoutBom(frames, render);
    forall i | 0 <= i < |frames|
      ensures Printable(WithoutBom(frames)[i], render, parse)
    {
      assert Printable(frames[i], render, parse);
    }
    EventsOfPrinted(WithoutBom(frames), render, parse);
  }
}
