/** The JSON grammar (RFC 8259) as derivations: which texts stand for which value. The parser accepts exactly these. */
module JsonGrammar {
  import opened Wrappers
  import opened Utf16
  import opened Json
  import JsText

  // ----------------------------------------------------------------- derivations

  /** One character of a string: itself, a two-character escape, or a code unit in four hexadecimal digits. */
  datatype Char = Plain(u: codeunit) | Short(letter: codeunit) | Long(hex: JsString)

  /** A number: an optional minus, digits, an optional fraction and an optional exponent. */
  datatype Num = Num(minus: JsString, whole: JsString, fraction: JsString, exponent: JsString)

  /** How a text was derived. `gap` is the blank inside empty brackets; items and entries carry the blanks around
      them. */
  datatype Tree =
    | NullWord
    | TrueWord
    | FalseWord
    | Numeral(n: Num)
    | Quoted(chars: seq<Char>)
    | List(gap: JsString, items: seq<Item>)
    | Record(gap: JsString, entries: seq<Entry>)

  datatype Item = Item(before: JsString, tree: Tree, after: JsString)

  datatype Entry = Entry(before: JsString, key: seq<Char>, afterKey: JsString, beforeValue: JsString, tree: Tree,
                         after: JsString)

  predicate Blank(s: JsString) {
    forall i :: 0 <= i < |s| ==> s[i] == 0x20 || s[i] == 0x09 || s[i] == 0x0A || s[i] == 0x0D
  }

  predicate Digits(s: JsString) {
    s != [] && forall i :: 0 <= i < |s| ==> 0x30 <= s[i] <= 0x39
  }

  /** The value of a hexadecimal digit in either case. */
  predicate Hex(u: codeunit, d: int) {
    || (0 <= d < 10 && u == 0x30 + d)
    || (10 <= d < 16 && (u == 0x41 + d - 10 || u == 0x61 + d - 10))
  }

  ghost predicate LongFor(hex: JsString, u: codeunit) {
    |hex| == 4 && exists a, b, c, d ::
      Hex(hex[0], a) && Hex(hex[1], b) && Hex(hex[2], c) && Hex(hex[3], d)
      && u == a * 0x1000 + b * 0x100 + c * 0x10 + d
  }

  ghost predicate ShortFor(letter: codeunit, u: codeunit) {
    || (letter == u && (u == 0x22 || u == 0x5C || u == 0x2F))
    || (letter == 0x62 && u == 0x08) || (letter == 0x66 && u == 0x0C) || (letter == 0x6E && u == 0x0A)
    || (letter == 0x72 && u == 0x0D) || (letter == 0x74 && u == 0x09)
  }

  /** The character stands for the code unit. */
  ghost predicate Stands(c: Char, u: codeunit) {
    match c
    case Plain(v) => u == v && u >= 0x20 && u != 0x22 && u != 0x5C
    case Short(letter) => ShortFor(letter, u)
    case Long(hex) => LongFor(hex, u)
  }

  ghost predicate Spells(chars: seq<Char>, s: JsString) {
    |chars| == |s| && forall i :: 0 <= i < |s| ==> Stands(chars[i], s[i])
  }

  predicate NumOk(n: Num) {
    && (n.minus == [] || n.minus == [0x2D])
    && Digits(n.whole) && (|n.whole| > 1 ==> n.whole[0] != 0x30)
    && (n.fraction == [] || (n.fraction[0] == 0x2E && Digits(n.fraction[1..])))
    && (n.exponent == [] || ExponentOk(n.exponent))
  }

  predicate ExponentOk(e: JsString)
    requires e != []
  {
    && (e[0] == 0x65 || e[0] == 0x45)
    && (Digits(e[1..]) || (|e| > 1 && (e[1] == 0x2B || e[1] == 0x2D) && Digits(e[2..])))
  }

  /** The tree derives the value. */
  ghost predicate Derives(t: Tree, v: Value)
    decreases t, 0
  {
    match t
    case NullWord => v == Null
    case TrueWord => v == Bool(true)
    case FalseWord => v == Bool(false)
    case Numeral(n) => NumOk(n) && v == Number(NumText(n))
    case Quoted(chars) => v.String? && Spells(chars, v.s)
    case List(gap, items) => Blank(gap) && v.Array? && ItemsDerive(items, v.items)
    case Record(gap, entries) => Blank(gap) && v.Object? && EntriesDerive(entries, v.members)
  }

  ghost predicate ItemsDerive(items: seq<Item>, values: seq<Value>)
    decreases items, 1
  {
    if items == [] || values == [] then items == [] && values == []
    else
      && Blank(items[0].before) && Derives(items[0].tree, values[0]) && Blank(items[0].after)
      && ItemsDerive(items[1..], values[1..])
  }

  ghost predicate EntriesDerive(entries: seq<Entry>, members: seq<(JsString, Value)>)
    decreases entries, 1
  {
    if entries == [] || members == [] then entries == [] && members == []
    else
      var e := entries[0];
      && Blank(e.before) && Spells(e.key, members[0].0) && Blank(e.afterKey)
      && Blank(e.beforeValue) && Derives(e.tree, members[0].1) && Blank(e.after)
      && EntriesDerive(entries[1..], members[1..])
  }

  // ----------------------------------------------------------------------- texts

  function CharText(c: Char): JsString {
    match c
    case Plain(u) => [u]
    case Short(letter) => [0x5C, letter]
    case Long(hex) => [0x5C, 0x75] + hex
  }

  function CharsText(chars: seq<Char>): JsString {
    if chars == [] then [] else CharText(chars[0]) + CharsText(chars[1..])
  }

  function QuotedText(chars: seq<Char>): JsString {
    [0x22] + CharsText(chars) + [0x22]
  }

  function NumText(n: Num): JsString {
    n.minus + n.whole + n.fraction + n.exponent
  }

  function Text(t: Tree): JsString
    decreases t, 0
  {
    match t
    case NullWord => [0x6E, 0x75, 0x6C, 0x6C]
    case TrueWord => [0x74, 0x72, 0x75, 0x65]
    case FalseWord => [0x66, 0x61, 0x6C, 0x73, 0x65]
    case Numeral(n) => NumText(n)
    case Quoted(chars) => QuotedText(chars)
    case List(gap, items) => [0x5B] + (if items == [] then gap + [0x5D] else ItemsText(items))
    case Record(gap, entries) => [0x7B] + (if entries == [] then gap + [0x7D] else EntriesText(entries))
  }


  /** The items, comma separated, and the closing bracket. */
  function ItemsText(items: seq<Item>): JsString
    requires items != []
    decreases items, 1
  {
    items[0].before + (Text(items[0].tree)
                       + (items[0].after + (if |items| == 1 then [0x5D] else [0x2C] + ItemsText(items[1..]))))
  }

  function EntriesText(entries: seq<Entry>): JsString
    requires entries != []
    decreases entries, 1
  {
    entries[0].before + EntryText(entries[0], if |entries| == 1 then [0x7D] else [0x2C] + EntriesText(entries[1..]))
  }

  /** An entry after its first blank, and what comes after it. */
  function EntryText(e: Entry, more: JsString): JsString
    decreases e, 1
  {
    QuotedText(e.key) + (e.afterKey + ([0x3A] + (e.beforeValue + (Text(e.tree) + (e.after + more)))))
  }

  /** A JSON text of a value: a derivation with blanks around it. */
  ghost predicate Denotes(s: JsString, v: Value) {
    exists before, t, after :: Blank(before) && Derives(t, v) && Blank(after) && s == before + (Text(t) + after)
  }

  // ---------------------------------------------------------------------- blanks

  lemma {:induction false} SkipGap(before: JsString, rest: JsString)
    requires Blank(before)
    ensures SkipBlanks(before + rest) == SkipBlanks(rest)
  {
    if before == [] {
      assert before + rest == rest;
    } else {
      assert (before + rest)[1..] == before[1..] + rest;
      SkipGap(before[1..], rest);
    }
  }

  lemma SkipTo(before: JsString, rest: JsString)
    requires Blank(before) && rest != [] && !IsBlank(rest[0])
    ensures SkipBlanks(before + rest) == rest
  {
    SkipGap(before, rest);
  }

  /** A text as its leading blanks and the rest. */
  lemma {:induction false} GapOf(s: JsString) returns (before: JsString, rest: JsString)
    ensures Blank(before) && rest == SkipBlanks(s) && s == before + rest
  {
    before, rest := [], s;
    if s != [] && IsBlank(s[0]) {
      before, rest := GapOf(s[1..]);
      assert s == [s[0]] + s[1..];
      before := [s[0]] + before;
    }
  }

  // --------------------------------------------------------------------- strings

  lemma HexExact(u: codeunit, d: int)
    ensures HexValue(u) == Some(d) <==> Hex(u, d)
  {
  }

  lemma HexQuadExact(hex: JsString, u: codeunit)
    requires |hex| == 4
    ensures HexQuad(hex) == Some(u) <==> LongFor(hex, u)
  {
    if HexQuad(hex) == Some(u) {
      var a, b, c, d := HexValue(hex[0]).value, HexValue(hex[1]).value, HexValue(hex[2]).value, HexValue(hex[3]).value;
      assert Hex(hex[0], a) && Hex(hex[1], b) && Hex(hex[2], c) && Hex(hex[3], d);
    }
    if LongFor(hex, u) {
      var a, b, c, d :| Hex(hex[0], a) && Hex(hex[1], b) && Hex(hex[2], c) && Hex(hex[3], d)
                        && u == a * 0x1000 + b * 0x100 + c * 0x10 + d;
      HexExact(hex[0], a);
      HexExact(hex[1], b);
      HexExact(hex[2], c);
      HexExact(hex[3], d);
    }
  }

  lemma ShortExact(letter: codeunit, u: codeunit)
    ensures SimpleEscape(letter) == Some(u) <==> ShortFor(letter, u)
  {
  }

  /** One derived character parses to its code unit. */
  lemma {:induction false} ParseChar(c: Char, u: codeunit, tail: JsString)
    requires Stands(c, u)
    ensures ParseString(CharText(c) + tail) == Prepend(u, ParseString(tail))
  {
    var s := CharText(c) + tail;
    match c {
      case Plain(v) =>
        assert s[1..] == tail;
      case Short(letter) =>
        ShortExact(letter, u);
        assert s[2..] == tail;
      case Long(hex) =>
        HexQuadExact(hex, u);
        assert s[2..6] == hex && s[6..] == tail;
    }
  }

  lemma {:induction false} CompleteChars(chars: seq<Char>, text: JsString, rest: JsString)
    requires Spells(chars, text)
    ensures ParseString(CharsText(chars) + ([0x22] + rest)) == Some((text, rest))
  {
    var tail := [0x22] + rest;
    if chars == [] {
      assert [] + tail == tail && tail[1..] == rest;
    } else {
      CompleteChars(chars[1..], text[1..], rest);
      ParseChar(chars[0], text[0], CharsText(chars[1..]) + tail);
      JsText.Regroup(CharText(chars[0]), CharsText(chars[1..]), tail);
      assert [text[0]] + text[1..] == text;
    }
  }

  /** The character at the front of a string body that parses. */
  lemma {:induction false} FrontChar(s: JsString) returns (c: Char, u: codeunit, tail: JsString)
    requires s != [] && s[0] != 0x22 && ParseString(s).Some?
    ensures Stands(c, u) && s == CharText(c) + tail && ParseString(s) == Prepend(u, ParseString(tail)) && |tail| < |s|
  {
    if s[0] != BACKSLASH {
      c, u, tail := Plain(s[0]), s[0], s[1..];
    } else if |s| >= 6 && s[1] == 0x75 {
      c, u, tail := Long(s[2..6]), HexQuad(s[2..6]).value, s[6..];
      HexQuadExact(s[2..6], u);
      assert s == [0x5C, 0x75] + s[2..6] + s[6..];
    } else {
      c, u, tail := Short(s[1]), SimpleEscape(s[1]).value, s[2..];
      ShortExact(s[1], u);
      assert s == [0x5C, s[1]] + s[2..];
    }
  }

  lemma {:induction false} SoundChars(s: JsString) returns (chars: seq<Char>)
    requires ParseString(s).Some?
    ensures Spells(chars, ParseString(s).value.0)
    ensures s == CharsText(chars) + ([0x22] + ParseString(s).value.1)
    decreases |s|
  {
    chars := [];
    if s[0] == QUOTE {
      assert s == [] + ([0x22] + s[1..]);
    } else {
      var c, u, tail := FrontChar(s);
      chars := SoundChars(tail);
      var more := chars;
      chars := [c] + more;
      assert chars[1..] == more;
      assert s == CharText(c) + CharsText(more) + ([0x22] + ParseString(s).value.1);
    }
  }

  // --------------------------------------------------------------------- numbers

  /** What can follow a number without carrying it on. */
  predicate Ends(rest: JsString) {
    rest == [] || (!IsDigit(rest[0]) && rest[0] != 0x2E && rest[0] != 0x65 && rest[0] != 0x45)
  }

  predicate StopsDigits(rest: JsString) { rest == [] || !IsDigit(rest[0]) }

  lemma {:induction false} RunOfDigits(digits: JsString, rest: JsString)
    requires (forall i :: 0 <= i < |digits| ==> IsDigit(digits[i])) && StopsDigits(rest)
    ensures DigitRun(digits + rest) == |digits|
  {
    if digits == [] {
      assert digits + rest == rest;
    } else {
      assert (digits + rest)[1..] == digits[1..] + rest;
      RunOfDigits(digits[1..], rest);
    }
  }

  lemma {:induction false} DigitsOfRun(s: JsString)
    ensures forall i :: 0 <= i < DigitRun(s) ==> IsDigit(s[i])
    ensures StopsDigits(s[DigitRun(s)..])
  {
    if s != [] && IsDigit(s[0]) {
      DigitsOfRun(s[1..]);
      assert s[DigitRun(s)..] == s[1..][DigitRun(s[1..])..];
      assert forall i :: 1 <= i < DigitRun(s) ==> s[i] == s[1..][i - 1];
    }
  }

  lemma {:induction false} CompleteFraction(f: JsString, rest: JsString)
    requires f == [] || (f[0] == 0x2E && Digits(f[1..]))
    requires StopsDigits(rest) && (f == [] ==> rest == [] || rest[0] != 0x2E)
    ensures FractionLength(f + rest) == |f|
  {
    if f == [] {
      assert f + rest == rest;
    } else {
      assert (f + rest)[1..] == f[1..] + rest;
      assert f[1] == f[1..][0];
      RunOfDigits(f[1..], rest);
    }
  }

  lemma TailConcat(e: JsString, rest: JsString, k: nat)
    requires k <= |e|
    ensures (e + rest)[k..] == e[k..] + rest
  {
  }

  lemma {:induction false} CompleteExponent(e: JsString, rest: JsString)
    requires (e == [] || ExponentOk(e)) && Ends(rest)
    ensures ExponentLength(e + rest) == |e|
  {
    if e == [] {
      assert e + rest == rest;
    } else {
      var s := e + rest;
      if Digits(e[1..]) {
        assert e[1] == e[1..][0];
        TailConcat(e, rest, 1);
        RunOfDigits(e[1..], rest);
      } else {
        TailConcat(e, rest, 2);
        RunOfDigits(e[2..], rest);
      }
    }
  }

  lemma NumShape(n: Num, rest: JsString)
    ensures var s, m, w := NumText(n) + rest, |n.minus|, |n.minus| + |n.whole|;
            && s[m..] == n.whole + (n.fraction + (n.exponent + rest))
            && s[w..] == n.fraction + (n.exponent + rest)
            && s[w + |n.fraction|..] == n.exponent + rest
  {
  }

  /** The number's text and what follows it, part by part. */
  lemma {:induction false} NumParts(n: Num, rest: JsString)
    requires NumOk(n) && Ends(rest)
    ensures var tail := n.exponent + rest;
            && DigitRun(n.whole + (n.fraction + tail)) == |n.whole|
            && FractionLength(n.fraction + tail) == |n.fraction|
            && ExponentLength(tail) == |n.exponent|
  {
    RunOfDigits(n.whole, n.fraction + (n.exponent + rest));
    CompleteFraction(n.fraction, n.exponent + rest);
    CompleteExponent(n.exponent, rest);
  }

  lemma NumberParts(s: JsString, m: nat, w: nat, f: nat)
    requires m == (if s != [] && s[0] == 0x2D then 1 else 0) && m <= |s| && DigitRun(s[m..]) > 0
    requires w == m + (if s[m] == 0x30 then 1 else DigitRun(s[m..])) && w <= |s|
    requires f == w + FractionLength(s[w..])
    ensures NumberLength(s) == f + ExponentLength(s[f..])
  {
  }

  lemma NumFront(n: Num, rest: JsString)
    requires NumOk(n)
    ensures var s := NumText(n) + rest;
            && |s| > |n.minus| && (|n.minus| == 1 <==> s[0] == 0x2D) && s[|n.minus|] == n.whole[0]
            && (if n.whole[0] == 0x30 then 1 else |n.whole|) == |n.whole|
  {
    assert n.minus == [] ==> (NumText(n) + rest)[0] == n.whole[0];
  }

  lemma {:induction false} CompleteParts(s: JsString, n: Num, rest: JsString, m: nat, w: nat, f: nat)
    requires NumOk(n) && Ends(rest) && m == |n.minus| && w == m + |n.whole| && f == w + |n.fraction| <= |s|
    requires |s| > m && (m == 1 <==> s[0] == 0x2D) && s[m] == n.whole[0]
    requires (if n.whole[0] == 0x30 then 1 else |n.whole|) == |n.whole|
    requires s[m..] == n.whole + (n.fraction + (n.exponent + rest))
    requires s[w..] == n.fraction + (n.exponent + rest) && s[f..] == n.exponent + rest
    ensures NumberLength(s) == f + |n.exponent|
  {
    NumParts(n, rest);
    NumberParts(s, m, w, f);
  }

  lemma {:induction false} CompleteNumber(n: Num, rest: JsString)
    requires NumOk(n) && Ends(rest)
    ensures NumberLength(NumText(n) + rest) == |NumText(n)| > 0
  {
    var m := |n.minus|;
    NumFront(n, rest);
    NumShape(n, rest);
    CompleteParts(NumText(n) + rest, n, rest, m, m + |n.whole|, m + |n.whole| + |n.fraction|);
  }

  /** The number at the front of a text, cut at its parts. */
  lemma {:induction false} SoundWhole(s: JsString, m: nat, w: nat)
    requires m <= |s| && DigitRun(s[m..]) > 0
    requires w == m + (if s[m] == 0x30 then 1 else DigitRun(s[m..]))
    ensures w <= |s| && Digits(s[m..w]) && (w - m > 1 ==> s[m] != 0x30)
  {
    DigitsOfRun(s[m..]);
    assert forall i :: m <= i < w ==> s[i] == s[m..][i - m];
  }

  lemma CutParts(s: JsString, m: nat, w: nat, f: nat, e: nat)
    requires m <= w <= f <= e <= |s|
    ensures s[..e] == s[..m] + s[m..w] + s[w..f] + s[f..e]
    ensures s[w..f] == s[w..][..f - w] && s[f..e] == s[f..][..e - f]
  {
  }

  lemma {:induction false} SoundNumber(s: JsString) returns (n: Num)
    requires NumberLength(s) > 0
    ensures NumOk(n) && NumText(n) == s[..NumberLength(s)]
  {
    var m := if s != [] && s[0] == 0x2D then 1 else 0;
    assert DigitRun(s[m..]) > 0;
    var w := m + (if s[m] == 0x30 then 1 else DigitRun(s[m..]));
    SoundWhole(s, m, w);
    var f := w + FractionLength(s[w..]);
    NumberParts(s, m, w, f);
    n := SoundParts(s, m, w, f, f + ExponentLength(s[f..]));
  }

  lemma {:induction false} SoundParts(s: JsString, m: nat, w: nat, f: nat, e: nat) returns (n: Num)
    requires m <= w <= f <= e <= |s| && (m == 0 || (m == 1 && s[0] == 0x2D))
    requires Digits(s[m..w]) && (w - m > 1 ==> s[m] != 0x30)
    requires f == w + FractionLength(s[w..]) && e == f + ExponentLength(s[f..])
    ensures NumOk(n) && NumText(n) == s[..e]
  {
    CutParts(s, m, w, f, e);
    SoundFraction(s[w..]);
    SoundExponent(s[f..]);
    n := Num(s[..m], s[m..w], s[w..f], s[f..e]);
  }

  lemma {:induction false} SoundFraction(s: JsString)
    ensures var f := s[..FractionLength(s)]; f == [] || (f[0] == 0x2E && Digits(f[1..]))
  {
    var k := FractionLength(s);
    if k > 0 {
      DigitsOfRun(s[1..]);
      assert s[..k][1..] == s[1..][..k - 1];
    }
  }

  lemma {:induction false} SoundExponent(s: JsString)
    ensures var e := s[..ExponentLength(s)]; e == [] || ExponentOk(e)
  {
    var k := ExponentLength(s);
    if k > 0 {
      var sign := if |s| >= 2 && (s[1] == 0x2B || s[1] == 0x2D) then 1 else 0;
      DigitsOfRun(s[1 + sign..]);
      assert s[..k][1 + sign..] == s[1 + sign..][..k - 1 - sign];
    }
  }

  // ----------------------------------------------------------------- completeness

  /** A derived text begins with no blank and no closing bracket. */
  lemma {:induction false} TextStart(t: Tree, v: Value)
    requires Derives(t, v)
    ensures Text(t) != [] && !IsBlank(Text(t)[0]) && Text(t)[0] != 0x5D && Text(t)[0] != 0x7D
  {
    if t.Numeral? {
      assert t.n.minus == [] ==> NumText(t.n)[0] == t.n.whole[0];
    }
  }

  lemma {:induction false} CompleteNumeral(n: Num, rest: JsString)
    requires NumOk(n) && Ends(rest)
    ensures ParseValue(NumText(n) + rest) == Some((Number(NumText(n)), rest))
  {
    var s := NumText(n) + rest;
    CompleteNumber(n, rest);
    assert n.minus == [] ==> s[0] == n.whole[0];
    assert s[..|NumText(n)|] == NumText(n) && s[|NumText(n)|..] == rest;
  }

  lemma {:induction false} CompleteWord(t: Tree, v: Value, rest: JsString)
    requires Derives(t, v) && (t.NullWord? || t.TrueWord? || t.FalseWord?)
    ensures ParseValue(Text(t) + rest) == Some((v, rest))
  {
    var s := Text(t) + rest;
    assert s[|Text(t)|..] == rest && s[..|Text(t)|] == Text(t);
    assert s[0..] == s;
    assert NumberLength(s) == 0;
    assert t.NullWord? ==> s[..4][0] == 0x6E && s[..4] != [0x74, 0x72, 0x75, 0x65];
    assert s[0] == Text(t)[0];
  }

  lemma {:induction false} CompleteQuoted(chars: seq<Char>, text: JsString, rest: JsString)
    requires Spells(chars, text)
    ensures var s := QuotedText(chars) + rest; s[0] == 0x22 && ParseString(s[1..]) == Some((text, rest))
  {
    CompleteChars(chars, text, rest);
    QuotedShape(CharsText(chars), rest);
  }

  lemma QuotedShape(body: JsString, rest: JsString)
    ensures [0x22] + body + [0x22] + rest == [0x22] + (body + ([0x22] + rest))
    ensures ([0x22] + (body + ([0x22] + rest)))[1..] == body + ([0x22] + rest)
  {
  }

  /** Every derivation is parsed to its value, whatever follows it that does not carry a number on. */
  lemma {:induction false} CompleteValue(t: Tree, v: Value, rest: JsString)
    requires Derives(t, v) && Ends(rest)
    ensures ParseValue(Text(t) + rest) == Some((v, rest))
    decreases t, 0
  {
    match t {
      case Numeral(n) => CompleteNumeral(n, rest);
      case Quoted(chars) => CompleteQuoted(chars, v.s, rest);
      case List(gap, items) => CompleteList(gap, items, v.items, rest);
      case Record(gap, entries) => CompleteRecord(gap, entries, v.members, rest);
      case _ => CompleteWord(t, v, rest);
    }
  }

  lemma {:induction false} CompleteList(gap: JsString, items: seq<Item>, values: seq<Value>, rest: JsString)
    requires Blank(gap) && ItemsDerive(items, values)
    ensures ParseValue(Text(List(gap, items)) + rest) == Some((Array(values), rest))
    decreases items, 2
  {
    var s := Text(List(gap, items)) + rest;
    if items == [] {
      assert s[1..] == gap + ([0x5D] + rest);
      SkipTo(gap, [0x5D] + rest);
      assert ([0x5D] + rest)[1..] == rest;
    } else {
      assert s[1..] == ItemsText(items) + rest;
      CompleteItems(items, values, rest);
    }
  }

  /** After a value: the closing bracket, or a comma and more. */
  lemma {:induction false} CompleteItems(items: seq<Item>, values: seq<Value>, rest: JsString)
    requires items != [] && ItemsDerive(items, values)
    ensures var body := SkipBlanks(ItemsText(items) + rest);
            body != [] && body[0] != 0x5D && ParseItems(body) == Some((values, rest))
    decreases items, 1
  {
    var item, text := items[0], Text(items[0].tree);
    var more := if |items| == 1 then [0x5D] + rest else [0x2C] + (ItemsText(items[1..]) + rest);
    ItemsShape(items, rest);
    TextStart(item.tree, values[0]);
    SkipTo(item.before, text + (item.after + more));
    AfterGap(item.after, more);
    CompleteValue(item.tree, values[0], item.after + more);
    SkipTo(item.after, more);
    assert values == [values[0]] + values[1..];
    if |items| == 1 {
      assert more[1..] == rest;
      assert values[1..] == [] && values == [values[0]];
    } else {
      assert more[1..] == ItemsText(items[1..]) + rest;
      CompleteItems(items[1..], values[1..], rest);
    }
  }

  lemma {:induction false} ItemsShape(items: seq<Item>, rest: JsString)
    requires items != []
    ensures var item := items[0];
            var more := if |items| == 1 then [0x5D] + rest else [0x2C] + (ItemsText(items[1..]) + rest);
            ItemsText(items) + rest == item.before + (Text(item.tree) + (item.after + more))
  {
  }

  lemma AfterGap(gap: JsString, more: JsString)
    requires Blank(gap) && more != [] && (more[0] == 0x5D || more[0] == 0x7D || more[0] == 0x2C)
    ensures Ends(gap + more)
  {
  }

  lemma {:induction false} CompleteRecord(gap: JsString, entries: seq<Entry>, members: seq<(JsString, Value)>,
                                          rest: JsString)
    requires Blank(gap) && EntriesDerive(entries, members)
    ensures ParseValue(Text(Record(gap, entries)) + rest) == Some((Object(members), rest))
    decreases entries, 2
  {
    var s := Text(Record(gap, entries)) + rest;
    if entries == [] {
      assert s[1..] == gap + ([0x7D] + rest);
      SkipTo(gap, [0x7D] + rest);
      assert ([0x7D] + rest)[1..] == rest;
    } else {
      assert s[1..] == EntriesText(entries) + rest;
      CompleteEntries(entries, members, rest);
    }
  }

  /** What the member parser makes of an entry's key, colon and value. */
  lemma {:induction false} CompleteEntry(e: Entry, member: (JsString, Value), more: JsString)
    requires Spells(e.key, member.0) && Blank(e.afterKey) && Blank(e.beforeValue) && Derives(e.tree, member.1)
    requires Blank(e.after) && more != [] && (more[0] == 0x7D || more[0] == 0x2C)
    ensures var s := EntryText(e, more);
            s[0] == 0x22 && ParseMembers(s) == MembersAfter(member, e.after + more)
    decreases e, 2
  {
    var value := Text(e.tree) + (e.after + more);
    var colon := [0x3A] + (e.beforeValue + value);
    var s := QuotedText(e.key) + (e.afterKey + colon);
    CompleteQuoted(e.key, member.0, e.afterKey + colon);
    SkipTo(e.afterKey, colon);
    assert colon[1..] == e.beforeValue + value;
    TextStart(e.tree, member.1);
    SkipTo(e.beforeValue, value);
    AfterGap(e.after, more);
    CompleteValue(e.tree, member.1, e.after + more);
    ParseMembersUnfold(s, member.0, e.afterKey + colon, member.1, e.after + more);
  }

  lemma {:induction false} CompleteEntries(entries: seq<Entry>, members: seq<(JsString, Value)>, rest: JsString)
    requires entries != [] && EntriesDerive(entries, members)
    ensures var body := SkipBlanks(EntriesText(entries) + rest);
            body != [] && body[0] == 0x22 && ParseMembers(body) == Some((members, rest))
    decreases entries, 1
  {
    var e := entries[0];
    var more := if |entries| == 1 then [0x7D] + rest else [0x2C] + (EntriesText(entries[1..]) + rest);
    var s := EntryText(e, more);
    EntriesShape(entries, rest);
    CompleteEntry(e, members[0], more);
    SkipTo(e.before, s);
    SkipTo(e.after, more);
    assert members == [members[0]] + members[1..];
    if |entries| == 1 {
      assert more[1..] == rest;
      assert members[1..] == [] && members == [members[0]];
    } else {
      assert more[1..] == EntriesText(entries[1..]) + rest;
      CompleteEntries(entries[1..], members[1..], rest);
    }
  }

  lemma {:induction false} EntriesShape(entries: seq<Entry>, rest: JsString)
    requires entries != []
    ensures var e := entries[0];
            var more := if |entries| == 1 then [0x7D] + rest else [0x2C] + (EntriesText(entries[1..]) + rest);
            EntriesText(entries) + rest == e.before + EntryText(e, more)
  {
  }

  // --------------------------------------------------------------------- soundness

  /** Whatever the parser accepts was derived, with the value it returns. */
  lemma {:induction false} SoundValue(s: JsString) returns (t: Tree)
    requires ParseValue(s).Some?
    ensures Derives(t, ParseValue(s).value.0) && s == Text(t) + ParseValue(s).value.1
    decreases |s|, 0
  {
    if s[0] == OPEN_BRACE {
      t := SoundRecord(s);
    } else if s[0] == OPEN_BRACKET {
      t := SoundList(s);
    } else if s[0] == QUOTE {
      var chars := SoundChars(s[1..]);
      t := Quoted(chars);
      assert s == QuotedText(chars) + ParseValue(s).value.1;
    } else if NumberLength(s) > 0 {
      var n := SoundNumber(s);
      t := Numeral(n);
      assert s == s[..NumberLength(s)] + s[NumberLength(s)..];
    } else {
      t := SoundWord(s);
    }
  }

  lemma {:induction false} SoundWord(s: JsString) returns (t: Tree)
    requires ParseLiteral(s).Some?
    ensures Derives(t, ParseLiteral(s).value.0) && s == Text(t) + ParseLiteral(s).value.1
  {
    t := match ParseLiteral(s).value.0 case Bool(true) => TrueWord case Bool(false) => FalseWord case _ => NullWord;
    var k := |Text(t)|;
    assert s[..k] == Text(t);
    assert s == s[..k] + s[k..];
  }

  lemma Around(open: codeunit, gap: JsString, body: JsString, rest: JsString)
    ensures [open] + (gap + (body + rest)) == [open] + (gap + body) + rest
  {
  }

  lemma {:induction false} SoundList(s: JsString) returns (t: Tree)
    requires s != [] && s[0] == OPEN_BRACKET && ParseValue(s).Some?
    ensures Derives(t, ParseValue(s).value.0) && s == Text(t) + ParseValue(s).value.1
    decreases |s|, 0, 0
  {
    var gap, body := GapOf(s[1..]);
    assert s == [0x5B] + (gap + body);
    if body != [] && body[0] == CLOSE_BRACKET {
      t := List(gap, []);
      assert body == [0x5D] + body[1..];
    } else {
      var items := SoundItems(body);
      ItemsBefore(items, gap, ParseItems(body).value.0);
      t := List([], items[0 := items[0].(before := gap)]);
      Around(0x5B, gap, ItemsText(items), ParseItems(body).value.1);
    }
  }

  lemma {:induction false} ItemsBefore(items: seq<Item>, gap: JsString, values: seq<Value>)
    requires items != [] && items[0].before == [] && Blank(gap) && ItemsDerive(items, values)
    ensures var items' := items[0 := items[0].(before := gap)];
            ItemsDerive(items', values) && ItemsText(items') == gap + ItemsText(items)
  {
    var items' := items[0 := items[0].(before := gap)];
    assert items'[1..] == items[1..];
  }

  lemma {:induction false} OneItem(first: Item, value: Value, rest: JsString)
    requires Blank(first.before) && Derives(first.tree, value) && Blank(first.after)
    ensures ItemsDerive([first], [value])
    ensures ItemsText([first]) + rest == first.before + (Text(first.tree) + (first.after + ([0x5D] + rest)))
  {
    ItemsShape([first], rest);
    assert [first][1..] == [] && [value][1..] == [];
  }

  lemma {:induction false} MoreItems(first: Item, value: Value, items: seq<Item>, values: seq<Value>, rest: JsString)
    requires Blank(first.before) && Derives(first.tree, value) && Blank(first.after)
    requires items != [] && ItemsDerive(items, values)
    ensures ItemsDerive([first] + items, [value] + values)
    ensures ItemsText([first] + items) + rest ==
            first.before + (Text(first.tree) + (first.after + ([0x2C] + (ItemsText(items) + rest))))
  {
    ItemsShape([first] + items, rest);
    assert ([first] + items)[1..] == items && ([value] + values)[1..] == values;
  }

  lemma {:induction false} SoundItems(s: JsString) returns (items: seq<Item>)
    requires ParseItems(s).Some?
    ensures items != [] && items[0].before == []
    ensures ItemsDerive(items, ParseItems(s).value.0) && s == ItemsText(items) + ParseItems(s).value.1
    decreases |s|, 1
  {
    var t := SoundValue(s);
    var (value, afterValue) := ParseValue(s).value;
    var after, next := GapOf(afterValue);
    var first := Item([], t, after);
    assert s == [] + (Text(t) + (after + next));
    if next[0] == CLOSE_BRACKET {
      items := [first];
      OneItem(first, value, next[1..]);
      assert next == [0x5D] + next[1..];
    } else {
      var gap, tail := GapOf(next[1..]);
      var others := SoundItems(tail);
      var (values, rest) := ParseItems(tail).value;
      var more := others[0 := others[0].(before := gap)];
      ItemsBefore(others, gap, values);
      MoreItems(first, value, more, values, rest);
      items := [first] + more;
      assert next == [0x2C] + next[1..];
      JsText.Regroup(gap, ItemsText(others), rest);
    }
  }

  lemma {:induction false} SoundRecord(s: JsString) returns (t: Tree)
    requires s != [] && s[0] == OPEN_BRACE && ParseValue(s).Some?
    ensures Derives(t, ParseValue(s).value.0) && s == Text(t) + ParseValue(s).value.1
    decreases |s|, 0, 0
  {
    var gap, body := GapOf(s[1..]);
    assert s == [0x7B] + (gap + body);
    if body != [] && body[0] == CLOSE_BRACE {
      t := Record(gap, []);
      assert body == [0x7D] + body[1..];
    } else {
      var entries := SoundEntries(body);
      EntriesBefore(entries, gap, ParseMembers(body).value.0);
      t := Record([], entries[0 := entries[0].(before := gap)]);
      Around(0x7B, gap, EntriesText(entries), ParseMembers(body).value.1);
    }
  }

  lemma {:induction false} EntriesBefore(entries: seq<Entry>, gap: JsString, members: seq<(JsString, Value)>)
    requires entries != [] && entries[0].before == [] && Blank(gap) && EntriesDerive(entries, members)
    ensures var entries' := entries[0 := entries[0].(before := gap)];
            EntriesDerive(entries', members) && EntriesText(entries') == gap + EntriesText(entries)
  {
    var entries' := entries[0 := entries[0].(before := gap)];
    assert entries'[1..] == entries[1..];
    assert forall more :: EntryText(entries'[0], more) == EntryText(entries[0], more);
  }

  /** A key, colon and value at the front of a text of members, and what follows them. */
  lemma {:induction false} SoundEntry(s: JsString) returns (e: Entry, value: Value, next: JsString)
    requires ParseMembers(s).Some?
    ensures e.before == [] && s == EntryText(e, next) && |next| < |s| && next != []
    ensures Spells(e.key, ParseString(s[1..]).value.0) && Blank(e.afterKey) && Blank(e.beforeValue) && Blank(e.after)
    ensures Derives(e.tree, value)
    ensures s[0] == 0x22 && SkipBlanks(next) == next
            && ParseMembers(s) == MembersAfter((ParseString(s[1..]).value.0, value), next)
    decreases |s|, 1, 0
  {
    var key := SoundChars(s[1..]);
    var (name, afterName) := ParseString(s[1..]).value;
    var afterKey, colon := GapOf(afterName);
    var beforeValue, text := GapOf(colon[1..]);
    var t := SoundValue(text);
    var (v, afterValue) := ParseValue(text).value;
    var after, tail := GapOf(afterValue);
    value, next := v, tail;
    e := Entry([], key, afterKey, beforeValue, t, after);
    EntryShape(s, e, afterName, colon, text, next);
    ParseMembersUnfold(s, name, afterName, v, afterValue);
    SkipGap([], next);
    assert [] + next == next;
  }

  lemma {:induction false} OneEntry(e: Entry, member: (JsString, Value), rest: JsString)
    requires Blank(e.before) && Spells(e.key, member.0) && Blank(e.afterKey) && Blank(e.beforeValue)
    requires Derives(e.tree, member.1) && Blank(e.after)
    ensures EntriesDerive([e], [member])
    ensures EntriesText([e]) + rest == e.before + EntryText(e, [0x7D] + rest)
  {
    EntriesShape([e], rest);
    assert [e][1..] == [] && [member][1..] == [];
  }

  lemma {:induction false} MoreEntries(e: Entry, member: (JsString, Value), entries: seq<Entry>,
                                       members: seq<(JsString, Value)>, rest: JsString)
    requires Blank(e.before) && Spells(e.key, member.0) && Blank(e.afterKey) && Blank(e.beforeValue)
    requires Derives(e.tree, member.1) && Blank(e.after) && entries != [] && EntriesDerive(entries, members)
    ensures EntriesDerive([e] + entries, [member] + members)
    ensures EntriesText([e] + entries) + rest == e.before + EntryText(e, [0x2C] + (EntriesText(entries) + rest))
  {
    EntriesShape([e] + entries, rest);
    assert ([e] + entries)[1..] == entries && ([member] + members)[1..] == members;
  }

  /** An entry, a comma and blanks, and the entries after them. */
  lemma {:induction false} JoinEntries(e: Entry, member: (JsString, Value), gap: JsString, others: seq<Entry>,
                                       members: seq<(JsString, Value)>, rest: JsString) returns (entries: seq<Entry>)
    requires e.before == [] && Spells(e.key, member.0) && Blank(e.afterKey) && Blank(e.beforeValue)
    requires Derives(e.tree, member.1) && Blank(e.after) && Blank(gap)
    requires others != [] && others[0].before == [] && EntriesDerive(others, members)
    ensures entries != [] && entries[0].before == [] && EntriesDerive(entries, [member] + members)
    ensures EntriesText(entries) + rest == EntryText(e, [0x2C] + (gap + (EntriesText(others) + rest)))
  {
    var more := others[0 := others[0].(before := gap)];
    EntriesBefore(others, gap, members);
    MoreEntries(e, member, more, members, rest);
    entries := [e] + more;
    JsText.Regroup(gap, EntriesText(others), rest);
    assert [] + EntryText(e, [0x2C] + (EntriesText(more) + rest)) == EntryText(e, [0x2C] + (EntriesText(more) + rest));
  }

  lemma {:induction false} SoundEntries(s: JsString) returns (entries: seq<Entry>)
    requires ParseMembers(s).Some?
    ensures entries != [] && entries[0].before == []
    ensures EntriesDerive(entries, ParseMembers(s).value.0) && s == EntriesText(entries) + ParseMembers(s).value.1
    decreases |s|, 1, 1
  {
    var first, value, next := SoundEntry(s);
    var member := (ParseString(s[1..]).value.0, value);
    if next[0] == CLOSE_BRACE {
      entries := [first];
      OneEntry(first, member, next[1..]);
      assert next == [0x7D] + next[1..];
    } else {
      var gap, tail := GapOf(next[1..]);
      var others := SoundEntries(tail);
      var (members, rest) := ParseMembers(tail).value;
      assert next == [0x2C] + next[1..];
      entries := JoinEntries(first, member, gap, others, members, rest);
    }
  }

  lemma EntryShape(s: JsString, e: Entry, afterName: JsString, colon: JsString, text: JsString, next: JsString)
    requires s != [] && s[0] == 0x22 && s[1..] == CharsText(e.key) + ([0x22] + afterName)
    requires afterName == e.afterKey + colon && colon != [] && colon[0] == 0x3A
    requires colon[1..] == e.beforeValue + text && text == Text(e.tree) + (e.after + next)
    ensures s == EntryText(e, next)
  {
    assert colon == [0x3A] + colon[1..];
    assert s == [0x22] + s[1..];
    assert s == QuotedText(e.key) + afterName;
  }

  /** `JSON.parse` accepts exactly the JSON texts, and returns what they stand for. */
  lemma {:induction false} ParseExact(s: JsString, v: Value)
    ensures Parse(s) == Some(v) <==> Denotes(s, v)
  {
    if Parse(s) == Some(v) {
      var before, body := GapOf(s);
      var t := SoundValue(body);
      var after, end := GapOf(ParseValue(body).value.1);
      assert after + [] == after;
      assert s == before + (Text(t) + after);
    }
    if Denotes(s, v) {
      var before, t, after :| Blank(before) && Derives(t, v) && Blank(after) && s == before + (Text(t) + after);
      TextStart(t, v);
      SkipTo(before, Text(t) + after);
      CompleteValue(t, v, after);
      SkipGap(after, []);
      assert after + [] == after;
    }
  }
}
