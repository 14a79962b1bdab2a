/** JSON (RFC 8259) over JavaScript strings: the whole `JSON.parse` grammar, and
    what `JSON.stringify` prints for an object whose members are strings. */
module Json {
  import opened Wrappers
  import opened Utf16

  type JsString = seq<codeunit>

  /** A parsed value. A number keeps its text; a member list keeps every member, repeats included. */
  datatype Value =
    | Null
    | Bool(b: bool)
    | Number(text: JsString)
    | String(s: JsString)
    | Array(items: seq<Value>)
    | Object(members: seq<(JsString, Value)>)

  const QUOTE: codeunit := 0x22
  const BACKSLASH: codeunit := 0x5C
  const COMMA: codeunit := 0x2C
  const COLON: codeunit := 0x3A
  const OPEN_BRACE: codeunit := 0x7B
  const CLOSE_BRACE: codeunit := 0x7D
  const OPEN_BRACKET: codeunit := 0x5B
  const CLOSE_BRACKET: codeunit := 0x5D

  // ---------------------------------------------------------------- printer

  function HexDigit(d: int): codeunit
    requires 0 <= d < 16
  {
    if d < 10 then 0x30 + d else 0x61 + d - 10
  }

  function UnicodeEscape(u: codeunit): JsString {
    [BACKSLASH, 0x75, HexDigit(u / 0x1000), HexDigit(u / 0x100 % 0x10), HexDigit(u / 0x10 % 0x10), HexDigit(u % 0x10)]
  }

  /** QuoteJSONString (ECMA-262 section 25.5.2.3) for one code unit that is not half of a surrogate pair. */
  function EscapeUnit(u: codeunit): JsString {
    if u == 0x08 then [BACKSLASH, 0x62]
    else if u == 0x09 then [BACKSLASH, 0x74]
    else if u == 0x0A then [BACKSLASH, 0x6E]
    else if u == 0x0C then [BACKSLASH, 0x66]
    else if u == 0x0D then [BACKSLASH, 0x72]
    else if u == QUOTE || u == BACKSLASH then [BACKSLASH, u]
    else if u < 0x20 || High(u) || Low(u) then UnicodeEscape(u)
    else [u]
  }

  function Escape(s: JsString): JsString {
    if s == [] then []
    else if |s| >= 2 && High(s[0]) && Low(s[1]) then [s[0], s[1]] + Escape(s[2..])
    else EscapeUnit(s[0]) + Escape(s[1..])
  }

  function Quote(s: JsString): JsString {
    [QUOTE] + Escape(s) + [QUOTE]
  }

  function PrintMember(m: (JsString, JsString)): JsString {
    Quote(m.0) + [COLON] + Quote(m.1)
  }

  /** The members of an object, comma separated, up to and including the closing brace. */
  function PrintMembers(ms: seq<(JsString, JsString)>): JsString
    requires |ms| >= 1
  {
    if |ms| == 1 then PrintMember(ms[0]) + [CLOSE_BRACE]
    else PrintMember(ms[0]) + [COMMA] + PrintMembers(ms[1..])
  }

  function PrintObject(ms: seq<(JsString, JsString)>): JsString
    requires |ms| >= 1
  {
    [OPEN_BRACE] + PrintMembers(ms)
  }

  // ----------------------------------------------------------------- parser

  predicate IsBlank(u: codeunit) { u == 9 || u == 10 || u == 13 || u == 32 }

  predicate IsDigit(u: codeunit) { 0x30 <= u <= 0x39 }

  function SkipBlanks(s: JsString): (r: JsString)
    ensures |r| <= |s|
    ensures r != [] ==> !IsBlank(r[0])
  {
    if s != [] && IsBlank(s[0]) then SkipBlanks(s[1..]) else s
  }

  function HexValue(u: codeunit): Option<int> {
    if 0x30 <= u <= 0x39 then Some(u - 0x30)
    else if 0x61 <= u <= 0x66 then Some(u - 0x61 + 10)
    else if 0x41 <= u <= 0x46 then Some(u - 0x41 + 10)
    else None
  }

  function HexQuad(s: JsString): (r: Option<codeunit>)
    requires |s| >= 4
  {
    match (HexValue(s[0]), HexValue(s[1]), HexValue(s[2]), HexValue(s[3]))
    case (Some(a), Some(b), Some(c), Some(d)) =>
      var n := a * 0x1000 + b * 0x100 + c * 0x10 + d;
      if 0 <= n < 0x1_0000 then Some(n) else None
    case _ => None
  }

  function SimpleEscape(u: codeunit): Option<codeunit> {
    if u == QUOTE || u == BACKSLASH || u == 0x2F then Some(u)
    else if u == 0x62 then Some(0x08)
    else if u == 0x66 then Some(0x0C)
    else if u == 0x6E then Some(0x0A)
    else if u == 0x72 then Some(0x0D)
    else if u == 0x74 then Some(0x09)
    else None
  }

  function Prepend(u: codeunit, parsed: Option<(JsString, JsString)>): Option<(JsString, JsString)> {
    match parsed
    case None => None
    case Some((text, rest)) => Some(([u] + text, rest))
  }

  /** A string body and its closing quote; the second component is what follows. */
  function ParseString(s: JsString): (r: Option<(JsString, JsString)>)
    ensures r.Some? ==> |r.value.1| < |s|
  {
    if s == [] then None
    else if s[0] == QUOTE then Some(([], s[1..]))
    else if s[0] < 0x20 then None
    else if s[0] != BACKSLASH then Prepend(s[0], ParseString(s[1..]))
    else if |s| >= 6 && s[1] == 0x75 then
      match HexQuad(s[2..6])
      case None => None
      case Some(u) => Prepend(u, ParseString(s[6..]))
    else if |s| >= 2 then
      match SimpleEscape(s[1])
      case None => None
      case Some(u) => Prepend(u, ParseString(s[2..]))
    else None
  }

  function DigitRun(s: JsString): (n: nat)
    ensures n <= |s|
  {
    if s != [] && IsDigit(s[0]) then 1 + DigitRun(s[1..]) else 0
  }

  /** The length of the optional fraction and exponent at the start of `s`. */
  function FractionLength(s: JsString): (n: nat)
    ensures n <= |s|
  {
    if |s| >= 2 && s[0] == 0x2E && IsDigit(s[1]) then 1 + DigitRun(s[1..]) else 0
  }

  function ExponentLength(s: JsString): (n: nat)
    ensures n <= |s|
  {
    if |s| >= 1 && (s[0] == 0x65 || s[0] == 0x45) then
      var sign := if |s| >= 2 && (s[1] == 0x2B || s[1] == 0x2D) then 1 else 0;
      var run := DigitRun(s[1 + sign..]);
      if run == 0 then 0 else 1 + sign + run
    else 0
  }

  /** The length of the number at the start of `s`; zero when there is none. */
  function NumberLength(s: JsString): (n: nat)
    ensures n <= |s|
  {
    var minus := if s != [] && s[0] == 0x2D then 1 else 0;
    var run := DigitRun(s[minus..]);
    if run == 0 then 0
    else
      var whole := minus + (if s[minus] == 0x30 then 1 else run);
      var fraction := whole + FractionLength(s[whole..]);
      fraction + ExponentLength(s[fraction..])
  }

  function StripPrefix(s: JsString, prefix: JsString): Option<JsString> {
    if |prefix| <= |s| && s[..|prefix|] == prefix then Some(s[|prefix|..]) else None
  }

  function ParseLiteral(s: JsString): (r: Option<(Value, JsString)>)
    ensures r.Some? ==> |r.value.1| < |s|
  {
    match StripPrefix(s, [0x74, 0x72, 0x75, 0x65])
    case Some(rest) => Some((Bool(true), rest))
    case None =>
      match StripPrefix(s, [0x66, 0x61, 0x6C, 0x73, 0x65])
      case Some(rest) => Some((Bool(false), rest))
      case None =>
        match StripPrefix(s, [0x6E, 0x75, 0x6C, 0x6C])
        case Some(rest) => Some((Null, rest))
        case None => None
  }

  function ParseValue(s: JsString): (r: Option<(Value, JsString)>)
    ensures r.Some? ==> |r.value.1| < |s|
    decreases |s|, 0
  {
    if s == [] then None
    else if s[0] == OPEN_BRACE then
      var body := SkipBlanks(s[1..]);
      if body != [] && body[0] == CLOSE_BRACE then Some((Object([]), body[1..]))
      else
        (match ParseMembers(body)
         case None => None
         case Some((ms, rest)) => Some((Object(ms), rest)))
    else if s[0] == OPEN_BRACKET then
      var body := SkipBlanks(s[1..]);
      if body != [] && body[0] == CLOSE_BRACKET then Some((Array([]), body[1..]))
      else
        (match ParseItems(body)
         case None => None
         case Some((items, rest)) => Some((Array(items), rest)))
    else if s[0] == QUOTE then
      (match ParseString(s[1..])
       case None => None
       case Some((text, rest)) => Some((String(text), rest)))
    else
      var n := NumberLength(s);
      if n > 0 then Some((Number(s[..n]), s[n..])) else ParseLiteral(s)
  }

  function ParseMembers(s: JsString): (r: Option<(seq<(JsString, Value)>, JsString)>)
    ensures r.Some? ==> |r.value.1| < |s|
    decreases |s|, 0
  {
    if s == [] || s[0] != QUOTE then None
    else
      match ParseString(s[1..])
      case None => None
      case Some((key, afterKey)) =>
        var colon := SkipBlanks(afterKey);
        if colon == [] || colon[0] != COLON then None
        else
          match ParseValue(SkipBlanks(colon[1..]))
          case None => None
          case Some((value, afterValue)) =>
            var next := SkipBlanks(afterValue);
            if next == [] then None
            else if next[0] == CLOSE_BRACE then Some(([(key, value)], next[1..]))
            else if next[0] != COMMA then None
            else
              match ParseMembers(SkipBlanks(next[1..]))
              case None => None
              case Some((others, rest)) => Some(([(key, value)] + others, rest))
  }

  function ParseItems(s: JsString): (r: Option<(seq<Value>, JsString)>)
    ensures r.Some? ==> |r.value.1| < |s|
    decreases |s|, 1
  {
    match ParseValue(s)
    case None => None
    case Some((value, afterValue)) =>
      var next := SkipBlanks(afterValue);
      if next == [] then None
      else if next[0] == CLOSE_BRACKET then Some(([value], next[1..]))
      else if next[0] != COMMA then None
      else
        match ParseItems(SkipBlanks(next[1..]))
        case None => None
        case Some((others, rest)) => Some(([value] + others, rest))
  }

  /** `JSON.parse`: None where it throws a SyntaxError. */
  function Parse(s: JsString): Option<Value> {
    match ParseValue(SkipBlanks(s))
    case None => None
    case Some((value, rest)) => if SkipBlanks(rest) == [] then Some(value) else None
  }

  /** The value a parsed object holds under a name: the last member of that name wins. */
  function Lookup(members: seq<(JsString, Value)>, name: JsString): Option<Value> {
    if members == [] then None
    else if members[|members| - 1].0 == name then Some(members[|members| - 1].1)
    else Lookup(members[..|members| - 1], name)
  }

  /** The last member of that name has that value. */
  ghost predicate LastMember(members: seq<(JsString, Value)>, name: JsString, value: Value) {
    exists i :: 0 <= i < |members| && members[i] == (name, value)
                && forall j :: i < j < |members| ==> members[j].0 != name
  }

  predicate HasMember(members: seq<(JsString, Value)>, name: JsString) {
    exists i :: 0 <= i < |members| && members[i].0 == name
  }

  lemma {:induction false} LookupExact(members: seq<(JsString, Value)>, name: JsString)
    ensures Lookup(members, name).Some? <==> HasMember(members, name)
    ensures forall value :: Lookup(members, name) == Some(value) <==> LastMember(members, name, value)
  {
    if members != [] {
      var n := |members| - 1;
      var front := members[..n];
      LookupExact(front, name);
      forall value
        ensures Lookup(members, name) == Some(value) <==> LastMember(members, name, value)
      {
        LastMemberStep(members, name, value);
      }
      if HasMember(front, name) {
        var i :| 0 <= i < |front| && front[i].0 == name;
        assert members[i].0 == name;
      }
    }
  }

  lemma {:induction false} LastMemberStep(members: seq<(JsString, Value)>, name: JsString, value: Value)
    requires members != []
    ensures var n := |members| - 1;
            LastMember(members, name, value) <==>
            if members[n].0 == name then members[n].1 == value else LastMember(members[..n], name, value)
  {
    var n := |members| - 1;
    var front := members[..n];
    if LastMember(members, name, value) && members[n].0 != name {
      var i :| 0 <= i < |members| && members[i] == (name, value)
               && forall j :: i < j < |members| ==> members[j].0 != name;
      assert front[i] == (name, value);
    }
    if members[n].0 == name && members[n].1 == value {
      assert members[n] == (name, value);
    }
    if members[n].0 != name && LastMember(front, name, value) {
      var i :| 0 <= i < |front| && front[i] == (name, value)
               && forall j :: i < j < |front| ==> front[j].0 != name;
      assert members[i] == (name, value);
    }
  }

  // ------------------------------------------------------------- round trip

  lemma HexDigitValue(d: int)
    requires 0 <= d < 16
    ensures HexValue(HexDigit(d)) == Some(d)
  {
  }

  lemma HexQuadOfDigits(s: JsString, a: int, b: int, c: int, d: int)
    requires 0 <= a < 16 && 0 <= b < 16 && 0 <= c < 16 && 0 <= d < 16
    requires s == [HexDigit(a), HexDigit(b), HexDigit(c), HexDigit(d)]
    ensures HexQuad(s) == Some(a * 0x1000 + b * 0x100 + c * 0x10 + d)
  {
    HexDigitValue(a);
    HexDigitValue(b);
    HexDigitValue(c);
    HexDigitValue(d);
  }

  lemma HexDigits(u: int)
    ensures u == u / 0x1000 * 0x1000 + u / 0x100 % 0x10 * 0x100 + u / 0x10 % 0x10 * 0x10 + u % 0x10
  {
    assert u / 0x100 == u / 0x10 / 0x10 && u / 0x1000 == u / 0x100 / 0x10;
  }

  lemma HexQuadOfEscape(u: codeunit)
    ensures HexQuad(UnicodeEscape(u)[2..6]) == Some(u)
  {
    HexDigits(u);
    HexQuadOfDigits(UnicodeEscape(u)[2..6], u / 0x1000, u / 0x100 % 0x10, u / 0x10 % 0x10, u % 0x10);
  }

  /** One escaped code unit parses back to itself, whatever follows. */
  lemma {:induction false} ParseEscapedUnit(u: codeunit, tail: JsString)
    ensures ParseString(EscapeUnit(u) + tail) == Prepend(u, ParseString(tail))
  {
    var e := EscapeUnit(u);
    var s := e + tail;
    assert s[|e|..] == tail;
    if e == UnicodeEscape(u) {
      HexQuadOfEscape(u);
      assert s[2..6] == e[2..6];
    } else if |e| == 2 {
      if |s| >= 6 { assert s[1] == e[1] != 0x75; }
      assert SimpleEscape(e[1]) == Some(u);
    }
  }

  lemma {:induction false} ParseCopiedUnit(u: codeunit, tail: JsString)
    requires u >= 0x20 && u != QUOTE && u != BACKSLASH
    ensures ParseString([u] + tail) == Prepend(u, ParseString(tail))
  {
    assert ([u] + tail)[1..] == tail;
  }

  lemma {:induction false} ParseEscapedPair(x: JsString, tail: JsString, rest: JsString)
    requires |x| >= 2 && High(x[0]) && Low(x[1])
    requires ParseString(tail) == Some((x[2..], rest))
    ensures ParseString([x[0], x[1]] + tail) == Some((x, rest))
  {
    ParseCopiedUnit(x[1], tail);
    ParseCopiedUnit(x[0], [x[1]] + tail);
    assert [x[0], x[1]] + tail == [x[0]] + ([x[1]] + tail);
    assert [x[0]] + ([x[1]] + x[2..]) == x;
  }

  lemma {:induction false} EscapeCases(x: JsString, tail: JsString)
    requires x != []
    ensures |x| >= 2 && High(x[0]) && Low(x[1]) ==> Escape(x) + tail == [x[0], x[1]] + (Escape(x[2..]) + tail)
    ensures !(|x| >= 2 && High(x[0]) && Low(x[1])) ==> Escape(x) + tail == EscapeUnit(x[0]) + (Escape(x[1..]) + tail)
  {
  }

  /** A printed string body parses back, whatever follows its closing quote. */
  lemma {:induction false} ParseEscaped(x: JsString, rest: JsString)
    ensures ParseString(Escape(x) + ([QUOTE] + rest)) == Some((x, rest))
  {
    var tail := [QUOTE] + rest;
    if x == [] {
      assert Escape(x) + tail == tail;
      assert tail[1..] == rest;
    } else {
      EscapeCases(x, tail);
      if |x| >= 2 && High(x[0]) && Low(x[1]) {
        ParseEscaped(x[2..], rest);
        ParseEscapedPair(x, Escape(x[2..]) + tail, rest);
      } else {
        ParseEscaped(x[1..], rest);
        ParseEscapedUnit(x[0], Escape(x[1..]) + tail);
        assert [x[0]] + x[1..] == x;
      }
    }
  }

  lemma {:induction false} ParseQuoted(x: JsString, rest: JsString)
    ensures var s := Quote(x) + rest; s[0] == QUOTE && SkipBlanks(s) == s && ParseString(s[1..]) == Some((x, rest))
  {
    assert (Quote(x) + rest)[1..] == Escape(x) + ([QUOTE] + rest);
    ParseEscaped(x, rest);
  }

  function StringMembers(ms: seq<(JsString, JsString)>): seq<(JsString, Value)> {
    seq(|ms|, i requires 0 <= i < |ms| => (ms[i].0, String(ms[i].1)))
  }

  /** What the member parser does with the text after a member's value. */
  function MembersAfter(member: (JsString, Value), afterValue: JsString): Option<(seq<(JsString, Value)>, JsString)> {
    var next := SkipBlanks(afterValue);
    if next == [] then None
    else if next[0] == CLOSE_BRACE then Some(([member], next[1..]))
    else if next[0] != COMMA then None
    else
      match ParseMembers(SkipBlanks(next[1..]))
      case None => None
      case Some((others, rest)) => Some(([member] + others, rest))
  }

  lemma {:induction false} ParseMembersUnfold(s: JsString, key: JsString, afterKey: JsString, value: Value,
                                              afterValue: JsString)
    requires s != [] && s[0] == QUOTE && ParseString(s[1..]) == Some((key, afterKey))
    requires var colon := SkipBlanks(afterKey);
             colon != [] && colon[0] == COLON && ParseValue(SkipBlanks(colon[1..])) == Some((value, afterValue))
    ensures ParseMembers(s) == MembersAfter((key, value), afterValue)
  {
  }

  lemma {:induction false} ParseQuotedValue(x: JsString, rest: JsString)
    ensures ParseValue(Quote(x) + rest) == Some((String(x), rest))
  {
    ParseQuoted(x, rest);
  }

  lemma {:induction false} ParsePrintedKey(m: (JsString, JsString), next: JsString)
    ensures var s := PrintMember(m) + next;
            s != [] && s[0] == QUOTE && ParseString(s[1..]) == Some((m.0, [COLON] + (Quote(m.1) + next)))
  {
    assert PrintMember(m) + next == Quote(m.0) + ([COLON] + (Quote(m.1) + next));
    ParseQuoted(m.0, [COLON] + (Quote(m.1) + next));
  }

  lemma {:induction false} ParsePrintedValue(x: JsString, next: JsString)
    ensures var colon := SkipBlanks([COLON] + (Quote(x) + next));
            colon != [] && colon[0] == COLON && ParseValue(SkipBlanks(colon[1..])) == Some((String(x), next))
  {
    var value := Quote(x) + next;
    assert SkipBlanks([COLON] + value) == [COLON] + value;
    assert ([COLON] + value)[1..] == value;
    ParseQuoted(x, next);
    ParseQuotedValue(x, next);
  }

  lemma {:induction false} ParsePrintedMember(m: (JsString, JsString), next: JsString)
    ensures ParseMembers(PrintMember(m) + next) == MembersAfter((m.0, String(m.1)), next)
  {
    ParsePrintedKey(m, next);
    ParsePrintedValue(m.1, next);
    ParseMembersUnfold(PrintMember(m) + next, m.0, [COLON] + (Quote(m.1) + next), String(m.1), next);
  }

  lemma {:induction false} AfterLast(member: (JsString, Value), rest: JsString)
    ensures MembersAfter(member, [CLOSE_BRACE] + rest) == Some(([member], rest))
  {
    var next := [CLOSE_BRACE] + rest;
    assert SkipBlanks(next) == next;
    assert next[1..] == rest;
  }

  lemma {:induction false} AfterComma(member: (JsString, Value), more: JsString, others: seq<(JsString, Value)>,
                                      rest: JsString)
    requires more != [] && more[0] == QUOTE && ParseMembers(more) == Some((others, rest))
    ensures MembersAfter(member, [COMMA] + more) == Some(([member] + others, rest))
  {
    var next := [COMMA] + more;
    assert SkipBlanks(next) == next;
    assert next[1..] == more;
    assert SkipBlanks(more) == more;
  }

  lemma {:induction false} PrintMembersShape(ms: seq<(JsString, JsString)>, rest: JsString)
    requires |ms| >= 1
    ensures |ms| == 1 ==> PrintMembers(ms) + rest == PrintMember(ms[0]) + ([CLOSE_BRACE] + rest)
    ensures |ms| > 1 ==> PrintMembers(ms) + rest == PrintMember(ms[0]) + ([COMMA] + (PrintMembers(ms[1..]) + rest))
    ensures (PrintMembers(ms) + rest)[0] == QUOTE
  {
  }

  lemma {:induction false} ParseOnlyMember(m: (JsString, JsString), rest: JsString)
    ensures ParseMembers(PrintMember(m) + ([CLOSE_BRACE] + rest)) == Some(([(m.0, String(m.1))], rest))
  {
    ParsePrintedMember(m, [CLOSE_BRACE] + rest);
    AfterLast((m.0, String(m.1)), rest);
  }

  lemma {:induction false} ParseFirstMember(m: (JsString, JsString), more: JsString, others: seq<(JsString, Value)>,
                                            rest: JsString)
    requires more != [] && more[0] == QUOTE && ParseMembers(more) == Some((others, rest))
    ensures ParseMembers(PrintMember(m) + ([COMMA] + more)) == Some(([(m.0, String(m.1))] + others, rest))
  {
    ParsePrintedMember(m, [COMMA] + more);
    AfterComma((m.0, String(m.1)), more, others, rest);
  }

  lemma {:induction false} StringMembersCons(ms: seq<(JsString, JsString)>)
    requires |ms| >= 1
    ensures StringMembers(ms) == [(ms[0].0, String(ms[0].1))] + StringMembers(ms[1..])
  {
  }

  /** Printed members parse back in order, whatever follows the closing brace. */
  lemma {:induction false} ParsePrintedMembers(ms: seq<(JsString, JsString)>, rest: JsString)
    requires |ms| >= 1
    ensures ParseMembers(PrintMembers(ms) + rest) == Some((StringMembers(ms), rest))
  {
    PrintMembersShape(ms, rest);
    StringMembersCons(ms);
    if |ms| == 1 {
      ParseOnlyMember(ms[0], rest);
      assert StringMembers(ms) == [(ms[0].0, String(ms[0].1))];
    } else {
      PrintMembersShape(ms[1..], rest);
      ParsePrintedMembers(ms[1..], rest);
      ParseFirstMember(ms[0], PrintMembers(ms[1..]) + rest, StringMembers(ms[1..]), rest);
    }
  }

  /** `JSON.parse` undoes `JSON.stringify` on objects of strings, lone surrogates included. */
  lemma {:induction false} ParsePrintedObject(ms: seq<(JsString, JsString)>)
    requires |ms| >= 1
    ensures Parse(PrintObject(ms)) == Some(Object(StringMembers(ms)))
  {
    var s := PrintObject(ms);
    var body := PrintMembers(ms);
    assert s[1..] == body;
    assert body[0] == QUOTE;
    ParsePrintedMembers(ms, []);
    assert body + [] == body;
  }

  /** `JSON.stringify` never prints a lone surrogate. */
  lemma {:induction false} EscapeWellFormed(s: JsString)
    ensures WellFormed(Escape(s))
  {
    if s == [] {
    } else if |s| >= 2 && High(s[0]) && Low(s[1]) {
      EscapeWellFormed(s[2..]);
      assert Escape(s)[2..] == Escape(s[2..]);
    } else {
      EscapeWellFormed(s[1..]);
      EscapeUnitWellFormed(s[0]);
      WellFormedConcat(EscapeUnit(s[0]), Escape(s[1..]));
    }
  }

  lemma {:induction false} PlainWellFormed(s: JsString)
    requires forall i :: 0 <= i < |s| ==> !High(s[i]) && !Low(s[i])
    ensures WellFormed(s)
  {
    if s != [] {
      PlainWellFormed(s[1..]);
    }
  }

  lemma EscapeUnitWellFormed(u: codeunit)
    ensures WellFormed(EscapeUnit(u))
  {
    PlainWellFormed(EscapeUnit(u));
  }

  lemma QuoteWellFormed(s: JsString)
    ensures WellFormed(Quote(s))
  {
    EscapeWellFormed(s);
    PlainWellFormed([QUOTE]);
    WellFormedConcat([QUOTE], Escape(s));
    WellFormedConcat([QUOTE] + Escape(s), [QUOTE]);
  }

  lemma PrintMemberWellFormed(m: (JsString, JsString), sep: codeunit)
    requires !High(sep) && !Low(sep)
    ensures WellFormed(PrintMember(m) + [sep])
  {
    QuoteWellFormed(m.0);
    QuoteWellFormed(m.1);
    PlainWellFormed([COLON]);
    PlainWellFormed([sep]);
    WellFormedConcat(Quote(m.0), [COLON]);
    WellFormedConcat(Quote(m.0) + [COLON], Quote(m.1));
    WellFormedConcat(PrintMember(m), [sep]);
  }

  lemma {:induction false} PrintMembersWellFormed(ms: seq<(JsString, JsString)>)
    requires |ms| >= 1
    ensures WellFormed(PrintMembers(ms))
  {
    if |ms| == 1 {
      PrintMemberWellFormed(ms[0], CLOSE_BRACE);
    } else {
      PrintMemberWellFormed(ms[0], COMMA);
      PrintMembersWellFormed(ms[1..]);
      WellFormedConcat(PrintMember(ms[0]) + [COMMA], PrintMembers(ms[1..]));
    }
  }

  lemma PrintObjectWellFormed(ms: seq<(JsString, JsString)>)
    requires |ms| >= 1
    ensures WellFormed(PrintObject(ms))
  {
    PlainWellFormed([OPEN_BRACE]);
    PrintMembersWellFormed(ms);
    WellFormedConcat([OPEN_BRACE], PrintMembers(ms));
  }
}
