/** The denormalised word count of a piece: TipTap tree to plain text to words.
    Which characters are letters or digits is left to the parameter `isWord`. */
module WordCount {
  import opened Wrappers
  import opened JsText

  // ------------------------------------------------------- extractPlainText

  /** A value of the document tree: `null` and non-objects, or an object with its
      `type` and `text` where they are strings and its `content`, empty where it is not an array. */
  datatype Node = Scalar | Object(kind: Option<string>, text: Option<string>, content: seq<Node>)

  /** The text nodes of a tree, in document order. */
  function Texts(node: Node): seq<string>
    decreases node, 0
  {
    match node
    case Scalar => []
    case Object(kind, text, content) =>
      (if kind == Some("text") && text.Some? then [text.value] else [])
      + TextsOf(content)
  }

  function TextsOf(nodes: seq<Node>): seq<string>
    decreases nodes, 1
  {
    if nodes == [] then [] else Texts(nodes[0]) + TextsOf(nodes[1..])
  }

  lemma {:induction false} TextsOfSnoc(nodes: seq<Node>, last: Node)
    ensures TextsOf(nodes + [last]) == TextsOf(nodes) + Texts(last)
  {
    if nodes == [] {
      assert [] + [last] == [last];
      assert TextsOf([last]) == Texts(last) + TextsOf([]);
    } else {
      assert (nodes + [last])[1..] == nodes[1..] + [last];
      TextsOfSnoc(nodes[1..], last);
    }
  }

  /** The array `walk` pushes into. */
  class TextList {
    var parts: seq<string>

    constructor ()
      ensures parts == []
    {
      parts := [];
    }

    method Push(s: string)
      modifies this
      ensures parts == old(parts) + [s]
    {
      parts := parts + [s];
    }
  }

  method Walk(node: Node, out: TextList)
    modifies out
    ensures out.parts == old(out.parts) + Texts(node)
    decreases node
  {
    if node.Scalar? {
      return;
    }
    if node.kind == Some("text") && node.text.Some? {
      out.Push(node.text.value);
    }
    ghost var before := out.parts;
    var children := node.content;
    for i := 0 to |children|
      invariant out.parts == before + TextsOf(children[..i])
    {
      Walk(children[i], out);
      assert children[..i + 1] == children[..i] + [children[i]];
      TextsOfSnoc(children[..i], children[i]);
    }
    assert children[..|children|] == children;
  }

  /** `replace(/\s+/g, ' ')`. */
  function Collapse(s: string): string
    decreases |s|
  {
    if s == "" then ""
    else if IsSpace(s[0]) then TrimStartShape(s[1..]); " " + Collapse(TrimStart(s[1..]))
    else [s[0]] + Collapse(s[1..])
  }

  function PlainText(doc: Node): string {
    Trim(Collapse(Join(Texts(doc), ' ')))
  }

  method ExtractPlainText(doc: Node) returns (text: string)
    ensures text == PlainText(doc)
  {
    var parts := new TextList();
    Walk(doc, parts);
    text := Trim(Collapse(Join(parts.parts, ' ')));
    assert parts.parts == Texts(doc);
  }

  // -------------------------------------------------------------- countWords

  /** Hiragana and Katakana, CJK Extension A, CJK Unified, CJK Compatibility, Hangul. */
  predicate IsCjk(c: char) {
    var n := c as int;
    0x3040 <= n <= 0x30FF || 0x3400 <= n <= 0x4DBF || 0x4E00 <= n <= 0x9FFF || 0xF900 <= n <= 0xFAFF
    || 0xAC00 <= n <= 0xD7AF
  }

  function CjkCount(s: string): nat {
    if s == "" then 0 else (if IsCjk(s[0]) then 1 else 0) + CjkCount(s[1..])
  }

  /** `replace(CJK_CHAR_REGEX, ' ')`. */
  function MaskCjk(s: string): string {
    if s == "" then "" else [if IsCjk(s[0]) then ' ' else s[0]] + MaskCjk(s[1..])
  }

  function BlankFreePrefix(s: string): (n: nat)
    ensures n <= |s| && (n < |s| ==> IsSpace(s[n])) && forall i :: 0 <= i < n ==> !IsSpace(s[i])
  {
    if s == "" || IsSpace(s[0]) then 0 else 1 + BlankFreePrefix(s[1..])
  }

  /** `split(/\s+/u)`. */
  function SplitBlank(s: string): seq<string>
    decreases |s|
  {
    var n := BlankFreePrefix(s);
    if n == |s| then [s]
    else TrimStartShape(s[n + 1..]); [s[..n]] + SplitBlank(TrimStart(s[n + 1..]))
  }

  predicate HasWord(token: string, isWord: char -> bool) {
    exists i :: 0 <= i < |token| && isWord(token[i])
  }

  function WordTokens(tokens: seq<string>, isWord: char -> bool): nat {
    if tokens == [] then 0 else (if HasWord(tokens[0], isWord) then 1 else 0) + WordTokens(tokens[1..], isWord)
  }

  function CountWords(text: string, isWord: char -> bool): nat {
    if text == "" then 0 else CjkCount(text) + WordTokens(SplitBlank(MaskCjk(text)), isWord)
  }

  // ------------------------------------------------- one pass over characters

  function Bit(b: bool): nat { if b then 1 else 0 }

  /** The number of word tokens still to be counted, `open` saying whether the current token has a word character. */
  function Scan(s: string, open: bool, isWord: char -> bool): nat {
    if s == "" then Bit(open)
    else if IsSpace(s[0]) then Bit(open) + Scan(s[1..], false, isWord)
    else Scan(s[1..], open || isWord(s[0]), isWord)
  }

  lemma {:induction false} ScanToken(p: string, rest: string, open: bool, isWord: char -> bool)
    requires forall i :: 0 <= i < |p| ==> !IsSpace(p[i])
    ensures Scan(p + rest, open, isWord) == Scan(rest, open || HasWord(p, isWord), isWord)
  {
    if p == "" {
      assert p + rest == rest;
    } else {
      assert (p + rest)[1..] == p[1..] + rest;
      ScanToken(p[1..], rest, open || isWord(p[0]), isWord);
      if HasWord(p, isWord) && !isWord(p[0]) {
        var i :| 0 <= i < |p| && isWord(p[i]);
        assert isWord(p[1..][i - 1]);
      }
      if HasWord(p[1..], isWord) {
        var i :| 0 <= i < |p[1..]| && isWord(p[1..][i]);
        assert isWord(p[i + 1]);
      }
    }
  }

  lemma {:induction false} ScanTrimStart(s: string, isWord: char -> bool)
    ensures Scan(TrimStart(s), false, isWord) == Scan(s, false, isWord)
  {
    if s != "" && IsSpace(s[0]) {
      ScanTrimStart(s[1..], isWord);
    }
  }

  lemma {:induction false} ScanCountsTokens(s: string, isWord: char -> bool)
    ensures WordTokens(SplitBlank(s), isWord) == Scan(s, false, isWord)
    decreases |s|
  {
    var n := BlankFreePrefix(s);
    assert s == s[..n] + s[n..];
    ScanToken(s[..n], s[n..], false, isWord);
    if n == |s| {
      assert s[..n] == s;
      assert WordTokens([s], isWord) == Bit(HasWord(s, isWord)) + WordTokens([s][1..], isWord);
    } else {
      var rest := TrimStart(s[n + 1..]);
      TrimStartShape(s[n + 1..]);
      ScanTrimStart(s[n + 1..], isWord);
      ScanCountsTokens(rest, isWord);
      assert s[n..][1..] == s[n + 1..];
      assert SplitBlank(s)[1..] == SplitBlank(rest);
    }
  }

  /** Words of a text by the one-pass reading: CJK characters one each, and they end the token around them. */
  function Words(text: string, isWord: char -> bool): nat {
    CjkCount(text) + Scan(MaskCjk(text), false, isWord)
  }

  lemma CountWordsByScan(text: string, isWord: char -> bool)
    ensures CountWords(text, isWord) == Words(text, isWord)
  {
    ScanCountsTokens(MaskCjk(text), isWord);
  }

  // -------------------------------------------------- blanks do not matter

  lemma {:induction false} ScanSeparator(a: string, sep: char, b: string, open: bool, isWord: char -> bool)
    requires IsSpace(sep)
    ensures Scan(a + [sep] + b, open, isWord) == Scan(a, open, isWord) + Scan(b, false, isWord)
  {
    var s := a + [sep] + b;
    if a == "" {
      assert s[1..] == b;
    } else {
      assert s[1..] == a[1..] + [sep] + b;
      if IsSpace(a[0]) {
        ScanSeparator(a[1..], sep, b, false, isWord);
      } else {
        ScanSeparator(a[1..], sep, b, open || isWord(a[0]), isWord);
      }
    }
  }

  lemma {:induction false} MaskConcat(a: string, b: string)
    ensures MaskCjk(a + b) == MaskCjk(a) + MaskCjk(b) && CjkCount(a + b) == CjkCount(a) + CjkCount(b)
  {
    if a == "" {
      assert a + b == b;
    } else {
      assert (a + b)[1..] == a[1..] + b;
      MaskConcat(a[1..], b);
    }
  }

  /** A blank neither fuses nor splits words: counts on its two sides add up. */
  lemma {:induction false} WordsSeparator(a: string, sep: char, b: string, isWord: char -> bool)
    requires IsSpace(sep)
    ensures Words(a + [sep] + b, isWord) == Words(a, isWord) + Words(b, isWord)
  {
    MaskConcat(a + [sep], b);
    MaskConcat(a, [sep]);
    assert MaskCjk([sep]) == [sep] && CjkCount([sep]) == 0 by {
      assert [sep][1..] == "";
    }
    ScanSeparator(MaskCjk(a), sep, MaskCjk(b), false, isWord);
  }

  lemma {:induction false} MaskTrimStart(s: string, isWord: char -> bool)
    ensures CjkCount(TrimStart(s)) == CjkCount(s)
    ensures Scan(MaskCjk(TrimStart(s)), false, isWord) == Scan(MaskCjk(s), false, isWord)
  {
    if s != "" && IsSpace(s[0]) {
      MaskTrimStart(s[1..], isWord);
      assert MaskCjk(s)[1..] == MaskCjk(s[1..]);
    }
  }

  lemma {:induction false} ScanCollapse(s: string, open: bool, isWord: char -> bool)
    ensures CjkCount(Collapse(s)) == CjkCount(s)
    ensures Scan(MaskCjk(Collapse(s)), open, isWord) == Scan(MaskCjk(s), open, isWord)
    decreases |s|
  {
    if s != "" {
      var t := Collapse(s);
      assert MaskCjk(s)[1..] == MaskCjk(s[1..]);
      assert MaskCjk(t)[1..] == MaskCjk(t[1..]);
      if IsSpace(s[0]) {
        var rest := TrimStart(s[1..]);
        TrimStartShape(s[1..]);
        MaskTrimStart(s[1..], isWord);
        ScanCollapse(rest, false, isWord);
        assert t[1..] == Collapse(rest);
      } else {
        assert t[1..] == Collapse(s[1..]);
        ScanCollapse(s[1..], open || isWord(s[0]), isWord);
        ScanCollapse(s[1..], false, isWord);
      }
    }
  }

  lemma {:induction false} WordsTrimEnd(s: string, isWord: char -> bool)
    ensures Words(TrimEnd(s), isWord) == Words(s, isWord)
  {
    if s != "" && IsSpace(s[|s| - 1]) {
      var a := s[..|s| - 1];
      WordsTrimEnd(a, isWord);
      assert s == a + [s[|s| - 1]] + "";
      WordsSeparator(a, s[|s| - 1], "", isWord);
    }
  }

  lemma WordsNormalised(s: string, isWord: char -> bool)
    ensures Words(Trim(Collapse(s)), isWord) == Words(s, isWord)
  {
    ScanCollapse(s, false, isWord);
    MaskTrimStart(Collapse(s), isWord);
    WordsTrimEnd(TrimStart(Collapse(s)), isWord);
  }

  function SumWords(texts: seq<string>, isWord: char -> bool): nat {
    if texts == [] then 0 else CountWords(texts[0], isWord) + SumWords(texts[1..], isWord)
  }

  lemma {:induction false} WordsJoin(texts: seq<string>, isWord: char -> bool)
    ensures Words(Join(texts, ' '), isWord) == SumWords(texts, isWord)
  {
    if |texts| == 1 {
      CountWordsByScan(texts[0], isWord);
      assert SumWords(texts[1..], isWord) == 0;
    } else if |texts| > 1 {
      CountWordsByScan(texts[0], isWord);
      WordsJoin(texts[1..], isWord);
      WordsSeparator(texts[0], ' ', Join(texts[1..], ' '), isWord);
    }
  }

  /** The word count of a document is the sum of the word counts of its text nodes. */
  lemma {:induction false} DocumentWords(doc: Node, isWord: char -> bool)
    ensures CountWords(PlainText(doc), isWord) == SumWords(Texts(doc), isWord)
  {
    CountWordsByScan(PlainText(doc), isWord);
    WordsNormalised(Join(Texts(doc), ' '), isWord);
    WordsJoin(Texts(doc), isWord);
  }

  lemma {:induction false} MaskEnds(a: string, c: char, b: string)
    requires IsCjk(c)
    ensures CjkCount(a + [c] + b) == CjkCount(a) + 1 + CjkCount(b)
    ensures MaskCjk(a + [c] + b) == MaskCjk(a) + [' '] + MaskCjk(b)
  {
    MaskConcat(a + [c], b);
    MaskConcat(a, [c]);
    assert MaskCjk([c]) == [' '] && CjkCount([c]) == 1 by {
      assert [c][1..] == "";
    }
  }

  /** Every character of these blocks counts as one word, and ends the words beside it. */
  lemma {:induction false} CjkCountsOne(a: string, c: char, b: string, isWord: char -> bool)
    requires var n := c as int;
             || 0x3040 <= n <= 0x30FF || 0x3400 <= n <= 0x4DBF || 0x4E00 <= n <= 0x9FFF
             || 0xF900 <= n <= 0xFAFF || 0xAC00 <= n <= 0xD7AF
    ensures CountWords(a + [c] + b, isWord) == CountWords(a, isWord) + 1 + CountWords(b, isWord)
  {
    CountWordsByScan(a + [c] + b, isWord);
    CountWordsByScan(a, isWord);
    CountWordsByScan(b, isWord);
    MaskEnds(a, c, b);
    ScanSeparator(MaskCjk(a), ' ', MaskCjk(b), false, isWord);
  }

  /** A text without blanks and without characters of these blocks is one word if it holds a letter or digit, and none
      if it does not. */
  lemma {:induction false} TokenCount(s: string, isWord: char -> bool)
    requires forall i :: 0 <= i < |s| ==> !IsSpace(s[i])
    requires forall i {:trigger s[i]} :: 0 <= i < |s| ==>
               var n := s[i] as int;
               && !(0x3040 <= n <= 0x30FF) && !(0x3400 <= n <= 0x4DBF) && !(0x4E00 <= n <= 0x9FFF)
               && !(0xF900 <= n <= 0xFAFF) && !(0xAC00 <= n <= 0xD7AF)
    ensures CountWords(s, isWord) == if exists i :: 0 <= i < |s| && isWord(s[i]) then 1 else 0
  {
    CountWordsByScan(s, isWord);
    MaskNone(s);
    ScanToken(s, "", false, isWord);
    assert s + "" == s;
  }

  // ------------------------------------------------- texts run together

  /** Whether the token that `s` leaves unfinished has a word character; `open` says so of the token it continues. */
  function OpenAfter(s: string, open: bool, isWord: char -> bool): bool {
    if s == "" then open
    else if IsSpace(s[0]) then OpenAfter(s[1..], false, isWord)
    else OpenAfter(s[1..], open || isWord(s[0]), isWord)
  }

  predicate HeadWord(s: string, isWord: char -> bool) {
    s != "" && !IsSpace(s[0]) && (isWord(s[0]) || HeadWord(s[1..], isWord))
  }

  lemma {:induction false} ScanOpen(s: string, isWord: char -> bool)
    ensures Scan(s, true, isWord) == 1 + Scan(s, false, isWord) - Bit(HeadWord(s, isWord))
  {
    if s != "" && !IsSpace(s[0]) && !isWord(s[0]) {
      ScanOpen(s[1..], isWord);
    }
  }

  lemma {:induction false} ScanConcat(a: string, b: string, open: bool, isWord: char -> bool)
    ensures Scan(a + b, open, isWord) ==
            Scan(a, open, isWord) + Scan(b, false, isWord) - Bit(OpenAfter(a, open, isWord) && HeadWord(b, isWord))
  {
    if a == "" {
      assert a + b == b;
      ScanOpen(b, isWord);
    } else {
      assert (a + b)[1..] == a[1..] + b;
      ScanConcat(a[1..], b, if IsSpace(a[0]) then false else open || isWord(a[0]), isWord);
    }
  }

  function FirstToken(s: string): string { SplitBlank(s)[0] }

  function LastToken(s: string): string {
    var tokens := SplitBlank(s);
    tokens[|tokens| - 1]
  }

  lemma {:induction false} HeadWordOfPrefix(s: string, isWord: char -> bool)
    ensures HeadWord(s, isWord) <==> HasWord(s[..BlankFreePrefix(s)], isWord)
  {
    var n := BlankFreePrefix(s);
    if n > 0 {
      HeadWordOfPrefix(s[1..], isWord);
      assert s[..n] == [s[0]] + s[1..][..n - 1];
      HasWordCons(s[0], s[1..][..n - 1], isWord);
    }
  }

  lemma HasWordCons(c: char, s: string, isWord: char -> bool)
    ensures HasWord([c] + s, isWord) <==> isWord(c) || HasWord(s, isWord)
  {
    var t := [c] + s;
    if isWord(c) {
      assert isWord(t[0]);
    }
    if HasWord(s, isWord) {
      var i :| 0 <= i < |s| && isWord(s[i]);
      assert isWord(t[i + 1]);
    }
  }

  lemma {:induction false} HeadWordIsFirstToken(s: string, isWord: char -> bool)
    ensures HeadWord(s, isWord) <==> HasWord(FirstToken(s), isWord)
  {
    HeadWordOfPrefix(s, isWord);
    assert BlankFreePrefix(s) == |s| ==> s[..BlankFreePrefix(s)] == s;
  }

  lemma {:induction false} OpenAfterToken(p: string, rest: string, open: bool, isWord: char -> bool)
    requires forall i :: 0 <= i < |p| ==> !IsSpace(p[i])
    ensures OpenAfter(p + rest, open, isWord) == OpenAfter(rest, open || HasWord(p, isWord), isWord)
  {
    if p == "" {
      assert p + rest == rest;
    } else {
      assert (p + rest)[1..] == p[1..] + rest;
      OpenAfterToken(p[1..], rest, open || isWord(p[0]), isWord);
      assert p == [p[0]] + p[1..];
      HasWordCons(p[0], p[1..], isWord);
    }
  }

  lemma {:induction false} OpenAfterTrimStart(s: string, isWord: char -> bool)
    ensures OpenAfter(TrimStart(s), false, isWord) == OpenAfter(s, false, isWord)
  {
    if s != "" && IsSpace(s[0]) {
      OpenAfterTrimStart(s[1..], isWord);
    }
  }

  lemma LastTokenAfterBlank(s: string)
    requires BlankFreePrefix(s) < |s|
    ensures var rest := TrimStart(s[BlankFreePrefix(s) + 1..]); |rest| < |s| && LastToken(s) == LastToken(rest)
  {
    var n := BlankFreePrefix(s);
    var rest := TrimStart(s[n + 1..]);
    TrimStartShape(s[n + 1..]);
    LastOfCons(s[..n], SplitBlank(rest));
  }

  lemma LastOfCons(token: string, tokens: seq<string>)
    requires tokens != []
    ensures var all := [token] + tokens; all[|all| - 1] == tokens[|tokens| - 1]
  {
  }

  lemma {:induction false} OpenAfterBlank(s: string, isWord: char -> bool)
    requires BlankFreePrefix(s) < |s|
    ensures OpenAfter(s, false, isWord) == OpenAfter(TrimStart(s[BlankFreePrefix(s) + 1..]), false, isWord)
  {
    var n := BlankFreePrefix(s);
    assert s == s[..n] + s[n..];
    OpenAfterToken(s[..n], s[n..], false, isWord);
    assert s[n..][1..] == s[n + 1..];
    OpenAfterTrimStart(s[n + 1..], isWord);
  }

  lemma {:induction false} OpenAfterIsLastToken(s: string, isWord: char -> bool)
    ensures OpenAfter(s, false, isWord) <==> HasWord(LastToken(s), isWord)
    decreases |s|
  {
    var n := BlankFreePrefix(s);
    if n == |s| {
      assert s + "" == s;
      OpenAfterToken(s, "", false, isWord);
    } else {
      OpenAfterBlank(s, isWord);
      LastTokenAfterBlank(s);
      OpenAfterIsLastToken(TrimStart(s[n + 1..]), isWord);
    }
  }

  /** Two texts meet inside a word: the token that ends the first and the one that begins the second each hold a
      word character, with no blank and no CJK character between them. */
  predicate Seam(a: string, b: string, isWord: char -> bool) {
    HasWord(LastToken(MaskCjk(a)), isWord) && HasWord(FirstToken(MaskCjk(b)), isWord)
  }

  /** Running two texts together loses one word exactly at a seam. */
  lemma {:induction false} SeamExact(a: string, b: string, isWord: char -> bool)
    ensures CountWords(a + b, isWord) == CountWords(a, isWord) + CountWords(b, isWord) - Bit(Seam(a, b, isWord))
  {
    CountWordsByScan(a, isWord);
    CountWordsByScan(b, isWord);
    CountWordsByScan(a + b, isWord);
    MaskConcat(a, b);
    ScanConcat(MaskCjk(a), MaskCjk(b), false, isWord);
    OpenAfterIsLastToken(MaskCjk(a), isWord);
    HeadWordIsFirstToken(MaskCjk(b), isWord);
  }

  function RunTogether(texts: seq<string>): string {
    if texts == [] then "" else RunTogether(texts[..|texts| - 1]) + texts[|texts| - 1]
  }

  /** The places where a text node meets those before it inside a word. */
  function Seams(texts: seq<string>, isWord: char -> bool): nat {
    if texts == [] then 0
    else
      var n := |texts| - 1;
      Seams(texts[..n], isWord) + Bit(Seam(RunTogether(texts[..n]), texts[n], isWord))
  }

  lemma {:induction false} SumWordsSnoc(texts: seq<string>, last: string, isWord: char -> bool)
    ensures SumWords(texts + [last], isWord) == SumWords(texts, isWord) + CountWords(last, isWord)
  {
    if texts == [] {
      assert [] + [last] == [last];
      assert SumWords([last], isWord) == CountWords(last, isWord) + SumWords([last][1..], isWord);
    } else {
      assert (texts + [last])[1..] == texts[1..] + [last];
      SumWordsSnoc(texts[1..], last, isWord);
    }
  }

  lemma {:induction false} SumWordsSeams(texts: seq<string>, isWord: char -> bool)
    ensures SumWords(texts, isWord) == CountWords(RunTogether(texts), isWord) + Seams(texts, isWord)
  {
    if texts != [] {
      var n := |texts| - 1;
      assert texts == texts[..n] + [texts[n]];
      SumWordsSnoc(texts[..n], texts[n], isWord);
      SumWordsSeams(texts[..n], isWord);
      SeamExact(RunTogether(texts[..n]), texts[n], isWord);
    }
  }

  /** The spaces put between text nodes raise the count of a document by exactly the seams between its nodes. */
  lemma {:induction false} DocumentSeams(doc: Node, isWord: char -> bool)
    ensures CountWords(PlainText(doc), isWord) ==
              CountWords(RunTogether(Texts(doc)), isWord) + Seams(Texts(doc), isWord)
  {
    DocumentWords(doc, isWord);
    SumWordsSeams(Texts(doc), isWord);
  }

  /** A block that holds two text nodes. */
  function TwoTexts(a: string, b: string): Node {
    Object(Some("paragraph"), None, [Object(Some("text"), Some(a), []), Object(Some("text"), Some(b), [])])
  }

  /** In one block the space between two text nodes changes the count exactly when they meet inside a word. */
  lemma {:induction false} SplitNodeExact(a: string, b: string, isWord: char -> bool)
    ensures CountWords(PlainText(TwoTexts(a, b)), isWord) == CountWords(a + b, isWord) + Bit(Seam(a, b, isWord))
  {
    var doc := TwoTexts(a, b);
    var first, second := doc.content[0], doc.content[1];
    assert doc.content[1..] == [second] && [second][1..] == [];
    assert Texts(first) == [a] && Texts(second) == [b];
    assert TextsOf([second]) == [b];
    assert TextsOf(doc.content) == [a] + [b];
    assert Texts(doc) == [a] + [b];
    DocumentWords(doc, isWord);
    SumWordsSnoc([a], b, isWord);
    SumWordsSnoc([], a, isWord);
    assert [] + [a] == [a];
    SeamExact(a, b, isWord);
  }

  /** A text with a word character and without blanks and CJK characters. */
  predicate PlainWord(s: string, isWord: char -> bool) {
    HasWord(s, isWord) && forall i :: 0 <= i < |s| ==> !IsSpace(s[i]) && !IsCjk(s[i])
  }

  lemma {:induction false} OneToken(s: string, isWord: char -> bool)
    requires PlainWord(s, isWord)
    ensures CountWords(s, isWord) == 1
    ensures HasWord(FirstToken(MaskCjk(s)), isWord) && HasWord(LastToken(MaskCjk(s)), isWord)
  {
    MaskNone(s);
    assert BlankFreePrefix(s) == |s|;
    assert SplitBlank(s) == [s];
    assert WordTokens([s], isWord) == Bit(HasWord(s, isWord)) + WordTokens([s][1..], isWord);
  }

  /** A word split over two text nodes of one block, each with a letter or digit of it, counts as two. */
  lemma {:induction false} SplitWordCountsTwice(a: string, b: string, isWord: char -> bool)
    requires PlainWord(a, isWord) && PlainWord(b, isWord)
    ensures CountWords(a + b, isWord) == 1 && CountWords(PlainText(TwoTexts(a, b)), isWord) == 2
  {
    SplitNodeExact(a, b, isWord);
    OneToken(a, isWord);
    OneToken(b, isWord);
    SeamExact(a, b, isWord);
  }

  lemma {:induction false} MaskNone(s: string)
    requires forall i :: 0 <= i < |s| ==> !IsCjk(s[i])
    ensures MaskCjk(s) == s && CjkCount(s) == 0
  {
    if s != "" {
      MaskNone(s[1..]);
      assert s == [s[0]] + s[1..];
    }
  }

  // -------------------------------------------------------- the plain text

  /** Only single plain spaces, none at an edge. */
  ghost predicate SingleSpaced(s: string) {
    && (forall i :: 0 <= i < |s| && IsSpace(s[i]) ==> s[i] == ' ' && 0 < i < |s| - 1)
    && (forall i :: 0 <= i < |s| - 1 && IsSpace(s[i]) ==> !IsSpace(s[i + 1]))
  }

  lemma {:induction false} CollapseSpaces(s: string)
    ensures var t := Collapse(s);
            && (forall i :: 0 <= i < |t| && IsSpace(t[i]) ==> t[i] == ' ')
            && (forall i :: 0 <= i < |t| - 1 && IsSpace(t[i]) ==> !IsSpace(t[i + 1]))
            && (s != "" ==> t != "" && IsSpace(t[0]) == IsSpace(s[0]))
    decreases |s|
  {
    if s != "" {
      if IsSpace(s[0]) {
        TrimStartShape(s[1..]);
        CollapseSpaces(TrimStart(s[1..]));
      } else {
        CollapseSpaces(s[1..]);
      }
    }
  }

  /** The plain text is in normal form whatever the document. */
  lemma {:induction false} PlainTextSingleSpaced(doc: Node)
    ensures SingleSpaced(PlainText(doc))
  {
    var s := Collapse(Join(Texts(doc), ' '));
    CollapseSpaces(Join(Texts(doc), ' '));
    var left, right := TrimShape(s);
    var t := Trim(s);
    assert forall i :: 0 <= i < |t| ==> t[i] == s[|left| + i];
  }
}
