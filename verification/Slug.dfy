/** Slug generation. Case folding and NFKD are the parameter `fold`; the letter,
    mark and digit classes are the parameter `allowed`. Lengths are in code points. */
module Slug {
  import opened JsText
  import Utf16

  const HYPHEN: char := '-'

  function SkipDisallowed(s: string, allowed: char -> bool): (r: string)
    ensures |r| <= |s| && (r != "" ==> allowed(r[0]))
    ensures r == s[|s| - |r|..]
  {
    if s != "" && !allowed(s[0]) then SkipDisallowed(s[1..], allowed) else s
  }

  /** Every run of disallowed characters becomes one hyphen. */
  function Hyphenate(s: string, allowed: char -> bool): string
    decreases |s|
  {
    if s == "" then ""
    else if allowed(s[0]) then [s[0]] + Hyphenate(s[1..], allowed)
    else [HYPHEN] + Hyphenate(SkipDisallowed(s[1..], allowed), allowed)
  }

  function StripStart(s: string): string {
    if s != "" && s[0] == HYPHEN then StripStart(s[1..]) else s
  }

  function StripEnd(s: string): string {
    if s != "" && s[|s| - 1] == HYPHEN then StripEnd(s[..|s| - 1]) else s
  }

  /** `slice(0, end)`: a negative end counts from the back. */
  function SliceTo(s: string, end: int): string {
    if end >= |s| then s else if end >= 0 then s[..end] else if |s| + end > 0 then s[..|s| + end] else ""
  }

  /** The slug before truncation. */
  function FullSlug(input: string, fold: string -> string, allowed: char -> bool): string {
    StripEnd(StripStart(Hyphenate(fold(input), allowed)))
  }

  function Truncate(slug: string, maxLength: int): string {
    if |slug| <= maxLength then slug else StripEnd(SliceTo(slug, maxLength))
  }

  function Slugify(input: string, maxLength: int, fold: string -> string, allowed: char -> bool): string {
    Truncate(FullSlug(input, fold, allowed), maxLength)
  }

  /** `suffix.length`: characters beyond the basic plane take two code units. */
  function UnitLength(s: string): (n: nat)
    ensures n >= |s|
  {
    if s == "" then 0 else (if s[0] as int >= 0x1_0000 then 2 else 1) + UnitLength(s[1..])
  }

  function AppendSuffix(slug: string, suffix: string, maxLength: int): string {
    var room := if maxLength - UnitLength(suffix) - 1 > 1 then maxLength - UnitLength(suffix) - 1 else 1;
    StripEnd(SliceTo(slug, room)) + [HYPHEN] + suffix
  }

  // ----------------------------------------------------------- canonical form

  /** Allowed characters with single inner hyphens. */
  ghost predicate Canonical(s: string, allowed: char -> bool) {
    && (forall i :: 0 <= i < |s| ==> allowed(s[i]) || s[i] == HYPHEN)
    && (forall i :: 0 <= i < |s| && s[i] == HYPHEN ==> 0 < i < |s| - 1 && s[i + 1] != HYPHEN)
  }

  function AllowedRun(s: string, allowed: char -> bool): (n: nat)
    ensures n <= |s| && (forall i :: 0 <= i < n ==> allowed(s[i])) && (n < |s| ==> !allowed(s[n]))
    ensures s != "" && allowed(s[0]) ==> n >= 1
  {
    if s != "" && allowed(s[0]) then 1 + AllowedRun(s[1..], allowed) else 0
  }

  /** Non-empty words of allowed characters. */
  ghost predicate WordList(words: seq<string>, allowed: char -> bool) {
    forall i :: 0 <= i < |words| ==> IsWord(words[i], allowed)
  }

  predicate IsWord(word: string, allowed: char -> bool) {
    word != "" && forall j :: 0 <= j < |word| ==> allowed(word[j])
  }

  /** The maximal runs of allowed characters. */
  function Words(s: string, allowed: char -> bool): (words: seq<string>)
    ensures WordList(words, allowed)
    decreases |s|
  {
    if s == "" then []
    else if !allowed(s[0]) then Words(s[1..], allowed)
    else var n := AllowedRun(s, allowed); [s[..n]] + Words(s[n..], allowed)
  }

  lemma {:induction false} HyphenateRun(s: string, n: nat, allowed: char -> bool)
    requires n <= |s| && forall i :: 0 <= i < n ==> allowed(s[i])
    ensures Hyphenate(s, allowed) == s[..n] + Hyphenate(s[n..], allowed)
  {
    if n > 0 {
      HyphenateRun(s[1..], n - 1, allowed);
      assert s[1..][n - 1..] == s[n..];
      assert s[..n] == [s[0]] + s[1..][..n - 1];
      Regroup([s[0]], s[1..][..n - 1], Hyphenate(s[n..], allowed));
    } else {
      assert s[0..] == s;
    }
  }

  lemma {:induction false} WordsSkip(s: string, allowed: char -> bool)
    ensures Words(SkipDisallowed(s, allowed), allowed) == Words(s, allowed)
  {
    if s != "" && !allowed(s[0]) {
      WordsSkip(s[1..], allowed);
    }
  }

  /** `s` is `words` joined by hyphens, with at most a hyphen before and a hyphen after. */
  ghost predicate Edged(s: string, lead: bool, words: seq<string>, trail: bool) {
    s == Edge(lead) + Join(words, HYPHEN) + Edge(trail)
  }

  function Edge(present: bool): string { if present then [HYPHEN] else "" }

  lemma EdgedWord(word: string, rest: string, lead: bool, words: seq<string>, trail: bool)
    requires Edged(rest, lead, words, trail) && (words == [] ==> !trail) && (words != [] ==> lead)
    ensures Edged(word + rest, false, [word] + words, if words == [] then lead else trail)
  {
    assert ([word] + words)[1..] == words;
    if words == [] {
      assert rest == Edge(lead);
      assert Join([word], HYPHEN) == word;
      assert word + rest == "" + word + Edge(lead);
    } else {
      var joined := Join(words, HYPHEN);
      assert Join([word] + words, HYPHEN) == word + [HYPHEN] + joined;
      assert word + ([HYPHEN] + joined + Edge(trail)) == "" + (word + [HYPHEN] + joined) + Edge(trail);
    }
  }

  lemma EdgedLead(rest: string, words: seq<string>, trail: bool)
    requires Edged(rest, false, words, trail)
    ensures Edged([HYPHEN] + rest, true, words, trail)
  {
    assert Edge(false) + Join(words, HYPHEN) == Join(words, HYPHEN);
  }

  /** Hyphenated text is the words joined by hyphens, with at most one hyphen at each end. */
  lemma {:induction false} HyphenateShape(s: string, allowed: char -> bool) returns (lead: bool, trail: bool)
    ensures Edged(Hyphenate(s, allowed), lead, Words(s, allowed), trail)
    ensures Words(s, allowed) == [] ==> !trail
    ensures lead <==> s != "" && !allowed(s[0])
    decreases |s|
  {
    if s == "" {
      lead, trail := false, false;
    } else if !allowed(s[0]) {
      var rest := SkipDisallowed(s[1..], allowed);
      WordsSkip(s[1..], allowed);
      lead, trail := HyphenateShape(rest, allowed);
      EdgedLead(Hyphenate(rest, allowed), Words(s, allowed), trail);
      lead := true;
    } else {
      var n := AllowedRun(s, allowed);
      HyphenateRun(s, n, allowed);
      var lead', trail' := HyphenateShape(s[n..], allowed);
      var words := Words(s[n..], allowed);
      EdgedWord(s[..n], Hyphenate(s[n..], allowed), lead', words, trail');
      assert Words(s, allowed) == [s[..n]] + words;
      lead, trail := false, if words == [] then lead' else trail';
    }
  }

  lemma {:induction false} JoinedCanonical(words: seq<string>, allowed: char -> bool)
    requires !allowed(HYPHEN) && WordList(words, allowed)
    ensures Canonical(Join(words, HYPHEN), allowed)
    ensures words != [] ==> Join(words, HYPHEN) != ""
  {
    if |words| > 1 {
      JoinedCanonical(words[1..], allowed);
      CanonicalJoin(words[0], Join(words[1..], HYPHEN), allowed);
    }
  }

  lemma {:induction false} CanonicalJoin(a: string, b: string, allowed: char -> bool)
    requires Canonical(a, allowed) && Canonical(b, allowed) && a != "" && b != ""
    ensures Canonical(a + [HYPHEN] + b, allowed)
  {
    var s := a + [HYPHEN] + b;
    forall i | 0 <= i < |s|
      ensures allowed(s[i]) || s[i] == HYPHEN
      ensures s[i] == HYPHEN ==> 0 < i < |s| - 1 && s[i + 1] != HYPHEN
    {
      if i < |a| {
        assert s[i] == a[i];
      } else if i == |a| {
        assert s[i + 1] == b[0];
      } else {
        assert s[i] == b[i - |a| - 1];
        if i + 1 < |s| { assert s[i + 1] == b[i - |a|]; }
      }
    }
  }

  lemma {:induction false} StripCanonical(lead: bool, s: string, trail: bool, allowed: char -> bool)
    requires Canonical(s, allowed) && s != ""
    ensures StripEnd(StripStart(Edge(lead) + s + Edge(trail))) == s
  {
    var t := s + Edge(trail);
    assert s[0] != HYPHEN && s[|s| - 1] != HYPHEN;
    assert Edge(lead) + s + Edge(trail) == Edge(lead) + t;
    assert t[0] == s[0];
    assert lead ==> (Edge(lead) + t)[1..] == t;
    assert !lead ==> Edge(lead) + t == t;
    assert StripStart(Edge(lead) + t) == t;
    assert trail ==> t[..|t| - 1] == s;
    assert !trail ==> t == s;
  }

  /** Before truncation the slug is the words of the folded input joined by hyphens, and nothing else. */
  lemma {:induction false} FullSlugIsWords(input: string, fold: string -> string, allowed: char -> bool)
    requires !allowed(HYPHEN)
    ensures FullSlug(input, fold, allowed) == Join(Words(fold(input), allowed), HYPHEN)
    ensures Canonical(FullSlug(input, fold, allowed), allowed)
  {
    var words := Words(fold(input), allowed);
    var lead, trail := HyphenateShape(fold(input), allowed);
    JoinedCanonical(words, allowed);
    if words == [] {
      assert Hyphenate(fold(input), allowed) == Edge(lead);
      assert lead ==> Edge(lead)[1..] == "";
      assert StripStart(Edge(lead)) == "";
    } else {
      StripCanonical(lead, Join(words, HYPHEN), trail, allowed);
    }
  }

  /** A canonical prefix cut at `end` loses at most one more character, a hyphen. */
  lemma {:induction false} CutCanonical(s: string, end: nat, allowed: char -> bool)
    requires Canonical(s, allowed) && end <= |s|
    ensures var t := StripEnd(s[..end]);
            Canonical(t, allowed) && t <= s && end - 1 <= |t| <= end && (|t| < end <==> end > 0 && s[end - 1] == HYPHEN)
  {
    var p := s[..end];
    if end > 0 && p[end - 1] == HYPHEN {
      assert p[..end - 1] == s[..end - 1];
      assert s[end - 2] != HYPHEN;
      assert StripEnd(s[..end - 1]) == s[..end - 1];
    }
  }

  /** Every slug is canonical and fits; a cut slug is the longest canonical prefix that does. */
  lemma {:induction false} SlugifyCanonical(input: string, maxLength: nat, fold: string -> string,
                                            allowed: char -> bool)
    requires !allowed(HYPHEN)
    ensures var full, slug := FullSlug(input, fold, allowed), Slugify(input, maxLength, fold, allowed);
            && Canonical(slug, allowed) && |slug| <= maxLength && slug <= full
            && (forall n :: |slug| < n <= maxLength && n <= |full| ==> !Canonical(full[..n], allowed))
  {
    FullSlugIsWords(input, fold, allowed);
    var full := FullSlug(input, fold, allowed);
    if |full| > maxLength {
      CutCanonical(full, maxLength, allowed);
      var slug := Slugify(input, maxLength, fold, allowed);
      forall n | |slug| < n <= maxLength && n <= |full|
        ensures !Canonical(full[..n], allowed)
      {
        assert n == maxLength && full[..n][n - 1] == HYPHEN;
      }
    }
  }

  /** A negative limit counts from the back: so many characters, and a hyphen before them, are taken off the end. */
  lemma {:induction false} SlugifyNegative(input: string, maxLength: int, fold: string -> string,
                                           allowed: char -> bool)
    requires !allowed(HYPHEN) && maxLength < 0
    ensures var full, slug := FullSlug(input, fold, allowed), Slugify(input, maxLength, fold, allowed);
            var room := if |full| + maxLength > 0 then |full| + maxLength else 0;
            && Canonical(slug, allowed) && |slug| <= room && slug <= full
            && (forall n :: |slug| < n <= room ==> !Canonical(full[..n], allowed))
  {
    var full := FullSlug(input, fold, allowed);
    var room := if |full| + maxLength > 0 then |full| + maxLength else 0;
    FullSlugIsWords(input, fold, allowed);
    CutCanonical(full, room, allowed);
    assert SliceTo(full, maxLength) == full[..room];
    var slug := Slugify(input, maxLength, fold, allowed);
    forall n | |slug| < n <= room
      ensures !Canonical(full[..n], allowed)
    {
      assert n == room && full[..n][n - 1] == HYPHEN;
    }
  }

  // -------------------------------------------------------------- idempotence

  lemma {:induction false} WordsAlone(word: string, allowed: char -> bool)
    requires IsWord(word, allowed)
    ensures Words(word, allowed) == [word]
  {
    assert AllowedRun(word, allowed) == |word|;
    assert word[|word|..] == "" && word[..|word|] == word;
  }

  lemma {:induction false} WordsBeforeHyphen(word: string, rest: string, allowed: char -> bool)
    requires !allowed(HYPHEN) && IsWord(word, allowed)
    ensures Words(word + [HYPHEN] + rest, allowed) == [word] + Words(rest, allowed)
  {
    var s := word + [HYPHEN] + rest;
    assert s[|word|] == HYPHEN;
    assert forall i :: 0 <= i < |word| ==> s[i] == word[i];
    assert AllowedRun(s, allowed) == |word|;
    assert s[..|word|] == word;
    assert s[|word|..] == [HYPHEN] + rest;
    assert s[|word|..][1..] == rest;
  }

  lemma CanonicalTail(s: string, n: nat, allowed: char -> bool)
    requires Canonical(s, allowed) && n < |s| && s[n] == HYPHEN
    ensures s == s[..n] + [HYPHEN] + s[n + 1..]
    ensures s[n + 1..] != "" && Canonical(s[n + 1..], allowed)
  {
    var rest := s[n + 1..];
    assert forall i :: 0 <= i < |rest| ==> rest[i] == s[n + 1 + i];
  }

  lemma {:induction false} JoinCons(word: string, words: seq<string>)
    requires words != []
    ensures Join([word] + words, HYPHEN) == word + [HYPHEN] + Join(words, HYPHEN)
  {
  }

  lemma {:induction false} CanonicalIsJoined(s: string, allowed: char -> bool)
    requires !allowed(HYPHEN) && Canonical(s, allowed)
    ensures Join(Words(s, allowed), HYPHEN) == s
    decreases |s|
  {
    if s != "" {
      assert s[0] != HYPHEN;
      var n := AllowedRun(s, allowed);
      if n < |s| {
        CanonicalTail(s, n, allowed);
        var rest := s[n + 1..];
        CanonicalIsJoined(rest, allowed);
        WordsBeforeHyphen(s[..n], rest, allowed);
        JoinCons(s[..n], Words(rest, allowed));
      } else {
        WordsAlone(s, allowed);
      }
    }
  }

  /** A canonical text that folding leaves alone is its own slug. */
  lemma {:induction false} SlugifyFixed(slug: string, maxLength: nat, fold: string -> string, allowed: char -> bool)
    requires !allowed(HYPHEN) && Canonical(slug, allowed) && |slug| <= maxLength && fold(slug) == slug
    ensures Slugify(slug, maxLength, fold, allowed) == slug
  {
    FullSlugIsWords(slug, fold, allowed);
    CanonicalIsJoined(slug, allowed);
  }

  lemma {:induction false} WordsOfJoined(words: seq<string>, allowed: char -> bool)
    requires !allowed(HYPHEN) && WordList(words, allowed)
    ensures Words(Join(words, HYPHEN), allowed) == words
  {
    if |words| == 1 {
      WordsAlone(words[0], allowed);
    } else if |words| > 1 {
      WordsOfJoined(words[1..], allowed);
      WordsBeforeHyphen(words[0], Join(words[1..], HYPHEN), allowed);
    }
  }

  /** The words of a text cut short: the first of `words`, the last of them perhaps not to its end. */
  predicate CutWords(cut: seq<string>, words: seq<string>) {
    || cut == []
    || (|cut| <= |words| && cut[..|cut| - 1] == words[..|cut| - 1] && cut[|cut| - 1] <= words[|cut| - 1])
  }

  lemma {:induction false} CutWordsCons(cut: seq<string>, words: seq<string>)
    requires |cut| > 1 && words != []
    ensures CutWords(cut, words) <==> cut[0] == words[0] && CutWords(cut[1..], words[1..])
  {
    var n := |cut| - 1;
    if |cut| <= |words| {
      assert cut[..n] == [cut[0]] + cut[1..][..n - 1];
      assert words[..n] == [words[0]] + words[1..][..n - 1];
      assert cut[1..][..n - 1] == cut[1..n] && words[1..][..n - 1] == words[1..n];
    }
  }

  /** Two words before hyphens are compared whole. */
  lemma {:induction false} PrefixOfWord(a: string, x: string, b: string, y: string)
    requires HYPHEN !in a && HYPHEN !in b
    ensures a + [HYPHEN] + x <= b + [HYPHEN] + y <==> a == b && x <= y
  {
    var s, t := a + [HYPHEN] + x, b + [HYPHEN] + y;
    assert s[|a|] == HYPHEN && t[|b|] == HYPHEN;
    assert s[|a| + 1..] == x && t[|b| + 1..] == y;
    assert s[..|a|] == a && t[..|b|] == b;
    if s <= t {
      assert forall i :: 0 <= i < |a| ==> t[i] == a[i];
      assert t[|a|] == HYPHEN;
      assert forall i :: 0 <= i < |b| ==> t[i] == b[i];
      assert |a| == |b|;
      assert x == t[..|s|][|a| + 1..];
    }
    if a == b && x <= y {
      assert t == a + [HYPHEN] + x + y[|x|..];
    }
  }

  lemma NoHyphen(word: string, allowed: char -> bool)
    requires !allowed(HYPHEN) && IsWord(word, allowed)
    ensures HYPHEN !in word
  {
  }

  lemma {:induction false} LastWordPrefix(word: string, words: seq<string>, allowed: char -> bool)
    requires !allowed(HYPHEN) && IsWord(word, allowed) && words != []
    ensures word <= Join(words, HYPHEN) <==> word <= words[0]
  {
    var joined := Join(words, HYPHEN);
    NoHyphen(word, allowed);
    assert words[0] <= joined;
    assert |joined| > |words[0]| ==> joined[|words[0]|] == HYPHEN;
    assert word <= joined ==> forall i :: 0 <= i < |word| ==> word[i] == joined[i];
  }

  /** One joined text begins another exactly when its words are the other's, cut short. */
  lemma {:induction false} JoinPrefix(cut: seq<string>, words: seq<string>, allowed: char -> bool)
    requires !allowed(HYPHEN) && WordList(cut, allowed) && WordList(words, allowed)
    ensures Join(cut, HYPHEN) <= Join(words, HYPHEN) <==> CutWords(cut, words)
  {
    if cut != [] && words != [] {
      NoHyphen(cut[0], allowed);
      NoHyphen(words[0], allowed);
      if |cut| == 1 {
        LastWordPrefix(cut[0], words, allowed);
      } else {
        CutWordsCons(cut, words);
        JoinPrefix(cut[1..], words[1..], allowed);
        if |words| > 1 {
          PrefixOfWord(cut[0], Join(cut[1..], HYPHEN), words[0], Join(words[1..], HYPHEN));
        } else {
          assert Join(cut, HYPHEN)[|cut[0]|] == HYPHEN;
        }
      }
    }
  }

  /** After whole words, short of all of them, comes a hyphen; after part of a word there is none. */
  lemma {:induction false} HyphenAfterCut(cut: seq<string>, words: seq<string>, allowed: char -> bool)
    requires !allowed(HYPHEN) && WordList(cut, allowed) && WordList(words, allowed) && cut != []
    requires CutWords(cut, words) && |Join(cut, HYPHEN)| < |Join(words, HYPHEN)|
    ensures Join(words, HYPHEN)[|Join(cut, HYPHEN)|] == HYPHEN <==> cut == words[..|cut|]
  {
    if |cut| == 1 {
      assert cut == [cut[0]];
      NoHyphen(words[0], allowed);
      assert cut[0] == words[0] <==> cut == words[..1];
      if |cut[0]| < |words[0]| {
        assert Join(words, HYPHEN)[|cut[0]|] == words[0][|cut[0]|];
      }
    } else {
      CutWordsCons(cut, words);
      var a, b := Join(cut[1..], HYPHEN), Join(words[1..], HYPHEN);
      assert Join(cut, HYPHEN) == cut[0] + [HYPHEN] + a && Join(words, HYPHEN) == cut[0] + [HYPHEN] + b;
      HyphenAfterCut(cut[1..], words[1..], allowed);
      assert Join(words, HYPHEN)[|Join(cut, HYPHEN)|] == b[|a|];
      assert words[..|cut|] == [words[0]] + words[1..][..|cut| - 1];
      assert cut == [cut[0]] + cut[1..];
    }
  }

  /** Where a canonical text is cut at `end`, what is left is `slug` exactly when `slug` reaches the cut, or stops one
      short of it before a hyphen. */
  lemma {:induction false} CutExact(full: string, end: nat, slug: string, allowed: char -> bool)
    requires Canonical(full, allowed) && end < |full|
    ensures StripEnd(full[..end]) == slug <==>
            slug <= full && |slug| == (if end > 0 && full[end - 1] == HYPHEN then end - 1 else end)
  {
    CutCanonical(full, end, allowed);
  }

  /** What is left of the joined `words` at a cut is `slug` exactly when its words are theirs, cut short: at the limit,
      or one short of it after whole words. */
  lemma {:induction false} CutJoinExact(words: seq<string>, end: nat, slug: string, allowed: char -> bool)
    requires !allowed(HYPHEN) && WordList(words, allowed) && Canonical(slug, allowed)
    requires end < |Join(words, HYPHEN)|
    ensures var cut := Words(slug, allowed);
            StripEnd(Join(words, HYPHEN)[..end]) == slug <==>
            CutWords(cut, words) && (|slug| == end || (0 < |slug| == end - 1 && cut == words[..|cut|]))
  {
    var full, cut := Join(words, HYPHEN), Words(slug, allowed);
    JoinedCanonical(words, allowed);
    CanonicalIsJoined(slug, allowed);
    JoinPrefix(cut, words, allowed);
    CutExact(full, end, slug, allowed);
    if slug <= full && slug != "" && |slug| < |full| {
      HyphenAfterCut(cut, words, allowed);
      assert slug[|slug| - 1] != HYPHEN;
      assert full[|slug| - 1] == slug[|slug| - 1];
    }
  }

  /** Slugging a slug again returns it exactly when folding it leaves its words as they are; or, where folding has made
      it too long, when its words are those of the folded text up to the cut. */
  lemma {:induction false} IdempotentExact(input: string, maxLength: nat, fold: string -> string, allowed: char -> bool)
    requires !allowed(HYPHEN)
    ensures var slug := Slugify(input, maxLength, fold, allowed);
            var words, folded := Words(slug, allowed), Words(fold(slug), allowed);
            Slugify(slug, maxLength, fold, allowed) == slug <==>
            if |Join(folded, HYPHEN)| <= maxLength then folded == words
            else CutWords(words, folded)
                 && (|slug| == maxLength || (0 < |slug| == maxLength - 1 && words == folded[..|words|]))
  {
    var slug := Slugify(input, maxLength, fold, allowed);
    var folded := Words(fold(slug), allowed);
    SlugifyCanonical(input, maxLength, fold, allowed);
    FullSlugIsWords(slug, fold, allowed);
    if |Join(folded, HYPHEN)| <= maxLength {
      WordsOfJoined(folded, allowed);
      CanonicalIsJoined(slug, allowed);
    } else {
      CutJoinExact(folded, maxLength, slug, allowed);
    }
  }

  /** Lower case, then NFKD, on the telephone sign U+2121 (which NFKD makes capital letters) and on those letters. */
  function FoldSample(s: string): string {
    if s == [0x2121 as char] then "TEL" else if s == "TEL" then "tel" else s
  }

  predicate SampleLetter(c: char) { c in "TELtel" }

  /** Slugs are not idempotent in general: folding lowers case before it decomposes. */
  lemma {:induction false} NotIdempotent()
    ensures var slug := Slugify([0x2121 as char], 80, FoldSample, SampleLetter);
            slug == "TEL" && Slugify(slug, 80, FoldSample, SampleLetter) == "tel"
  {
    var sign := [0x2121 as char];
    FullSlugIsWords(sign, FoldSample, SampleLetter);
    CanonicalIsJoined("TEL", SampleLetter);
    FullSlugIsWords("TEL", FoldSample, SampleLetter);
    CanonicalIsJoined("tel", SampleLetter);
  }

  // -------------------------------------------------------------- suffixes

  /** The length of the suffix counts UTF-16 code units, as `suffix.length` does. */
  lemma {:induction false} UnitLengthExact(s: string)
    ensures UnitLength(s) == |Utf16.FromText(s)|
  {
    if s != "" {
      UnitLengthExact(s[1..]);
    }
  }

  /** The slug is kept up to the room the suffix leaves, but one character at least: the longest canonical prefix that
      fits. */
  ghost predicate Kept(slug: string, base: string, room: int, allowed: char -> bool) {
    && base != "" && base <= slug && Canonical(base, allowed) && |base| <= (if room > 1 then room else 1)
    && forall n :: |base| < n <= room && n <= |slug| ==> !Canonical(slug[..n], allowed)
  }

  lemma {:induction false} AppendSuffixShape(slug: string, suffix: string, maxLength: int, allowed: char -> bool)
    requires !allowed(HYPHEN) && Canonical(slug, allowed) && slug != ""
    ensures exists base ::
              && AppendSuffix(slug, suffix, maxLength) == base + "-" + suffix
              && Kept(slug, base, maxLength - |Utf16.FromText(suffix)| - 1, allowed)
  {
    UnitLengthExact(suffix);
    var left := maxLength - UnitLength(suffix) - 1;
    var room := if left > 1 then left else 1;
    var end := if room >= |slug| then |slug| else room;
    CutCanonical(slug, end, allowed);
    assert SliceTo(slug, room) == slug[..end];
    assert slug[0] != HYPHEN;
    var base := StripEnd(slug[..end]);
    assert base != "" by { assert end >= 2 || slug[end - 1] != HYPHEN; }
    forall n | |base| < n <= left && n <= |slug|
      ensures !Canonical(slug[..n], allowed)
    {
      assert n == end && slug[..n][n - 1] == HYPHEN;
    }
    assert Kept(slug, base, left, allowed);
    assert AppendSuffix(slug, suffix, maxLength) == base + "-" + suffix;
  }

  /** A suffixed slug is canonical again, and fits exactly when the limit leaves room for one character of
      the slug, the hyphen and the suffix. */
  lemma {:induction false} AppendSuffixFits(slug: string, suffix: string, maxLength: int, allowed: char -> bool)
    requires !allowed(HYPHEN) && Canonical(slug, allowed) && Canonical(suffix, allowed) && slug != "" && suffix != ""
    ensures Canonical(AppendSuffix(slug, suffix, maxLength), allowed)
    ensures |AppendSuffix(slug, suffix, maxLength)| <= maxLength <==> maxLength >= |suffix| + 2
  {
    AppendSuffixShape(slug, suffix, maxLength, allowed);
    UnitLengthExact(suffix);
    var base :|
      && AppendSuffix(slug, suffix, maxLength) == base + "-" + suffix
      && Kept(slug, base, maxLength - |Utf16.FromText(suffix)| - 1, allowed);
    CanonicalJoin(base, suffix, allowed);
  }

  /** An empty slug is the one case that leaves a hyphen at the front. */
  lemma {:induction false} AppendToEmpty(suffix: string, maxLength: int, allowed: char -> bool)
    ensures AppendSuffix("", suffix, maxLength) == [HYPHEN] + suffix
    ensures !Canonical(AppendSuffix("", suffix, maxLength), allowed)
  {
    assert AppendSuffix("", suffix, maxLength)[0] == HYPHEN;
  }

  /** Suffixes of one length never collide, whatever slugs they are put on. */
  lemma AppendSuffixInjective(slug: string, other: string, suffix: string, suffix': string, maxLength: int)
    requires |suffix| == |suffix'| && AppendSuffix(slug, suffix, maxLength) == AppendSuffix(other, suffix', maxLength)
    ensures suffix == suffix'
  {
    var s, t := AppendSuffix(slug, suffix, maxLength), AppendSuffix(other, suffix', maxLength);
    assert s[|s| - |suffix|..] == suffix;
    assert t[|t| - |suffix'|..] == suffix';
  }
}
