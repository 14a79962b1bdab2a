/** Base64 (RFC 4648): the unpadded URL-safe printer of section 5, Node's lenient
    reader, and the forgiving reader behind the browser's `atob`. */
module Base64 {
  import opened Wrappers
  import opened Utf8

  type sextet = v: int | 0 <= v < 64

  function TwoFour(a: byte, b: byte): sextet { a % 4 * 16 + b / 16 }

  function FourTwo(b: byte, c: byte): sextet { b % 16 * 4 + c / 64 }

  /** Six-bit groups, the last one zero-filled. */
  function Sextets(bytes: seq<byte>): (q: seq<sextet>)
    ensures |q| % 4 != 1
  {
    if |bytes| == 0 then []
    else if |bytes| == 1 then [bytes[0] / 4, TwoFour(bytes[0], 0)]
    else if |bytes| == 2 then [bytes[0] / 4, TwoFour(bytes[0], bytes[1]), FourTwo(bytes[1], 0)]
    else
      [bytes[0] / 4, TwoFour(bytes[0], bytes[1]), FourTwo(bytes[1], bytes[2]), bytes[2] % 64] + Sextets(bytes[3..])
  }

  function First(a: int, b: int): int { a * 4 + b / 16 }

  function Second(a: int, b: int): int { a % 16 * 16 + b / 4 }

  function Third(a: int, b: int): int { a % 4 * 64 + b }

  /** Whole bytes of the groups; left-over bits and a lone last group are dropped. */
  function Bytes(q: seq<sextet>): seq<byte> {
    if |q| <= 1 then []
    else if |q| == 2 then [First(q[0], q[1])]
    else if |q| == 3 then [First(q[0], q[1]), Second(q[1], q[2])]
    else [First(q[0], q[1]), Second(q[1], q[2]), Third(q[2], q[3])] + Bytes(q[4..])
  }

  lemma FirstBack(a: byte, b: byte)
    ensures First(a / 4, TwoFour(a, b)) == a
  {
  }

  lemma SecondBack(a: byte, b: byte, c: byte)
    ensures Second(TwoFour(a, b), FourTwo(b, c)) == b
  {
  }

  lemma ThirdBack(b: byte, c: byte)
    ensures Third(FourTwo(b, c), c % 64) == c
  {
  }

  lemma SextetsGroup(bytes: seq<byte>)
    requires |bytes| >= 3
    ensures var q := Sextets(bytes);
            && |q| >= 4 && q[0] == bytes[0] / 4 && q[1] == TwoFour(bytes[0], bytes[1])
            && q[2] == FourTwo(bytes[1], bytes[2]) && q[3] == bytes[2] % 64 && q[4..] == Sextets(bytes[3..])
  {
  }

  lemma BytesGroup(q: seq<sextet>, a: byte, b: byte, c: byte)
    requires |q| >= 4 && q[0] == a / 4 && q[1] == TwoFour(a, b) && q[2] == FourTwo(b, c) && q[3] == c % 64
    ensures Bytes(q) == [a, b, c] + Bytes(q[4..])
  {
    FirstBack(a, b);
    SecondBack(a, b, c);
    ThirdBack(b, c);
  }

  lemma SextetsOfOne(a: byte)
    ensures Sextets([a]) == [a / 4, TwoFour(a, 0)]
  {
  }

  lemma SextetsOfTwo(a: byte, b: byte)
    ensures Sextets([a, b]) == [a / 4, TwoFour(a, b), FourTwo(b, 0)]
  {
  }

  lemma BytesOfOne(q: seq<sextet>, a: byte)
    requires |q| == 2 && q[0] == a / 4 && q[1] == TwoFour(a, 0)
    ensures Bytes(q) == [a]
  {
    FirstBack(a, 0);
  }

  lemma BytesOfTwo(q: seq<sextet>, a: byte, b: byte)
    requires |q| == 3 && q[0] == a / 4 && q[1] == TwoFour(a, b) && q[2] == FourTwo(b, 0)
    ensures Bytes(q) == [a, b]
  {
    FirstBack(a, b);
    SecondBack(a, b, 0);
  }

  lemma {:induction false} BytesOfSextets(bytes: seq<byte>)
    ensures Bytes(Sextets(bytes)) == bytes
  {
    if |bytes| == 1 {
      assert bytes == [bytes[0]];
      SextetsOfOne(bytes[0]);
      BytesOfOne(Sextets(bytes), bytes[0]);
    } else if |bytes| == 2 {
      assert bytes == [bytes[0], bytes[1]];
      SextetsOfTwo(bytes[0], bytes[1]);
      BytesOfTwo(Sextets(bytes), bytes[0], bytes[1]);
    } else if |bytes| >= 3 {
      var q := Sextets(bytes);
      SextetsGroup(bytes);
      BytesGroup(q, bytes[0], bytes[1], bytes[2]);
      BytesOfSextets(bytes[3..]);
    }
  }

  function Digit(v: sextet, c62: char, c63: char): char {
    if v < 26 then ('A' as int + v) as char
    else if v < 52 then ('a' as int + v - 26) as char
    else if v < 62 then ('0' as int + v - 52) as char
    else if v == 62 then c62 else c63
  }

  predicate UrlSafe(c: char) {
    'A' <= c <= 'Z' || 'a' <= c <= 'z' || '0' <= c <= '9' || c == '-' || c == '_'
  }

  function Digits(q: seq<sextet>, c62: char, c63: char): string {
    if q == [] then "" else [Digit(q[0], c62, c63)] + Digits(q[1..], c62, c63)
  }

  /** `toString('base64url')`: URL-safe digits, no padding. */
  function EncodeUrl(bytes: seq<byte>): string {
    Digits(Sextets(bytes), '-', '_')
  }

  lemma {:induction false} DigitsSafe(q: seq<sextet>)
    ensures var s := Digits(q, '-', '_'); |s| == |q| && forall i :: 0 <= i < |s| ==> UrlSafe(s[i])
  {
    if q != [] {
      DigitsSafe(q[1..]);
    }
  }

  /** The value of a digit of either alphabet. */
  function ValueOf(c: char): Option<sextet> {
    if 'A' <= c <= 'Z' then Some(c as int - 'A' as int)
    else if 'a' <= c <= 'z' then Some(c as int - 'a' as int + 26)
    else if '0' <= c <= '9' then Some(c as int - '0' as int + 52)
    else if c == '+' || c == '-' then Some(62)
    else if c == '/' || c == '_' then Some(63)
    else None
  }

  /** Node's `Buffer.from(s, 'base64url')`: both alphabets, other characters skipped, `=` ends the input. */
  function LenientSextets(s: string): seq<sextet> {
    if s == [] || s[0] == '=' then []
    else
      var rest := LenientSextets(s[1..]);
      match ValueOf(s[0])
      case Some(v) => [v] + rest
      case None => rest
  }

  function DecodeLenient(s: string): seq<byte> {
    Bytes(LenientSextets(s))
  }

  lemma {:induction false} LenientDigits(q: seq<sextet>)
    ensures LenientSextets(Digits(q, '-', '_')) == q
  {
    if q != [] {
      LenientDigits(q[1..]);
    }
  }

  /** The lenient reader undoes the URL-safe printer. */
  lemma DecodeLenientEncodeUrl(bytes: seq<byte>)
    ensures DecodeLenient(EncodeUrl(bytes)) == bytes
  {
    LenientDigits(Sextets(bytes));
    BytesOfSextets(bytes);
  }

  /** Strict digits of the standard alphabet; None on any other character. */
  function StrictSextets(s: string): Option<seq<sextet>> {
    if s == [] then Some([])
    else if s[0] == '-' || s[0] == '_' then None
    else
      match (ValueOf(s[0]), StrictSextets(s[1..]))
      case (Some(v), Some(rest)) => Some([v] + rest)
      case _ => None
  }

  predicate IsAsciiSpace(c: char) {
    c as int == 9 || c as int == 10 || c as int == 12 || c as int == 13 || c as int == 32
  }

  function StripAsciiSpace(s: string): string {
    if s == [] then "" else if IsAsciiSpace(s[0]) then StripAsciiSpace(s[1..]) else [s[0]] + StripAsciiSpace(s[1..])
  }

  /** At most two padding signs come off a text whose length is a multiple of four. */
  function StripPadding(s: string): string {
    if |s| % 4 == 0 && |s| > 0 && s[|s| - 1] == '=' then
      if s[|s| - 2] == '=' then s[..|s| - 2] else s[..|s| - 1]
    else s
  }

  /** `atob` (WHATWG Infra section 7): forgiving-base64 decode, None where it throws. */
  function Atob(s: string): Option<seq<byte>> {
    var data := StripPadding(StripAsciiSpace(s));
    if |data| % 4 == 1 then None
    else
      match StrictSextets(data)
      case None => None
      case Some(q) => Some(Bytes(q))
  }

  lemma {:induction false} StrictDigits(q: seq<sextet>)
    ensures StrictSextets(Digits(q, '+', '/')) == Some(q)
    ensures |Digits(q, '+', '/')| == |q| && '=' !in Digits(q, '+', '/')
  {
    if q != [] {
      StrictDigits(q[1..]);
      assert Digits(q, '+', '/')[1..] == Digits(q[1..], '+', '/');
      assert [q[0]] + q[1..] == q;
    }
  }

  lemma {:induction false} DigitsKeepSpace(q: seq<sextet>, pad: string)
    requires forall i :: 0 <= i < |pad| ==> pad[i] == '='
    ensures StripAsciiSpace(Digits(q, '+', '/') + pad) == Digits(q, '+', '/') + pad
    decreases |q| + |pad|
  {
    var s := Digits(q, '+', '/') + pad;
    if q != [] {
      assert s[1..] == Digits(q[1..], '+', '/') + pad;
      DigitsKeepSpace(q[1..], pad);
    } else if pad != [] {
      assert Digits(q, '+', '/') == "";
      assert s[1..] == Digits([], '+', '/') + pad[1..];
      DigitsKeepSpace([], pad[1..]);
    }
  }

  function Padding(n: nat): string {
    seq(n, _ => '=')
  }

  lemma StripPaddingPadded(s: string, n: nat)
    requires n <= 2 && '=' !in s && (|s| + n) % 4 == 0
    ensures StripPadding(s + Padding(n)) == s
  {
    var padded := s + Padding(n);
    if |s| > 0 {
      assert s[|s| - 1] != '=';
    }
    assert padded[..|s|] == s;
  }

  /** `atob` accepts standard digits padded to a multiple of four. */
  lemma {:induction false} AtobPadded(q: seq<sextet>, n: nat)
    requires n <= 2 && (|q| + n) % 4 == 0
    ensures Atob(Digits(q, '+', '/') + Padding(n)) == Some(Bytes(q))
  {
    var s := Digits(q, '+', '/');
    StrictDigits(q);
    DigitsKeepSpace(q, Padding(n));
    StripPaddingPadded(s, n);
    PaddedLength(|q|, n);
    AtobOf(s + Padding(n), s, q);
  }

  lemma PaddedLength(k: nat, n: nat)
    requires n <= 2 && (k + n) % 4 == 0
    ensures k % 4 != 1
  {
  }

  lemma AtobOf(s: string, data: string, q: seq<sextet>)
    requires StripPadding(StripAsciiSpace(s)) == data && |data| % 4 != 1 && StrictSextets(data) == Some(q)
    ensures Atob(s) == Some(Bytes(q))
  {
  }

  // ---------------------------------------------------------- what is accepted

  /** A digit of the standard alphabet, or of the URL-safe one. */
  predicate IsDigit(c: char) {
    'A' <= c <= 'Z' || 'a' <= c <= 'z' || '0' <= c <= '9' || c in "+-/_"
  }

  /** The lenient reader skips what is no digit and stops at `=`. */
  lemma {:induction false} LenientSkips(a: string, c: char, b: string)
    requires !IsDigit(c) && c != '='
    ensures DecodeLenient(a + [c] + b) == DecodeLenient(a + b)
  {
    LenientConcat(a, [c] + b);
    LenientConcat(a, b);
    LenientFront(c, b);
    assert a + [c] + b == a + ([c] + b);
  }

  lemma LenientFront(c: char, b: string)
    requires !IsDigit(c) && c != '='
    ensures LenientSextets([c] + b) == LenientSextets(b)
  {
    assert ([c] + b)[1..] == b;
  }

  lemma {:induction false} LenientStops(a: string, b: string)
    ensures DecodeLenient(a + "=" + b) == DecodeLenient(a)
  {
    LenientConcat(a, "=" + b);
    assert a + "=" + b == a + ("=" + b);
    assert LenientSextets(a) + [] == LenientSextets(a);
  }

  lemma {:induction false} LenientConcat(a: string, b: string)
    ensures LenientSextets(a + b) == if '=' in a then LenientSextets(a) else LenientSextets(a) + LenientSextets(b)
  {
    if a == "" {
      assert a + b == b;
      assert [] + LenientSextets(b) == LenientSextets(b);
    } else {
      assert (a + b)[1..] == a[1..] + b;
      LenientConcat(a[1..], b);
    }
  }

  /** Either alphabet, and their mixture, reads as the same groups. */
  lemma {:induction false} EitherAlphabet(q: seq<sextet>, c62: char, c63: char)
    requires c62 in "+-" && c63 in "/_"
    ensures DecodeLenient(Digits(q, c62, c63)) == Bytes(q)
  {
    LenientOf(q, c62, c63);
  }

  lemma {:induction false} LenientOf(q: seq<sextet>, c62: char, c63: char)
    requires c62 in "+-" && c63 in "/_"
    ensures LenientSextets(Digits(q, c62, c63)) == q
  {
    if q != [] {
      LenientOf(q[1..], c62, c63);
      assert Digits(q, c62, c63)[1..] == Digits(q[1..], c62, c63);
    }
  }

  lemma {:induction false} StrictExact(s: string, q: seq<sextet>)
    ensures StrictSextets(s) == Some(q) <==> s == Digits(q, '+', '/')
  {
    if s != "" {
      if q != [] {
        StrictExact(s[1..], q[1..]);
        assert s == [s[0]] + s[1..] && q == [q[0]] + q[1..];
        StrictDigit(s[0], q[0]);
      }
    } else if q != [] {
      assert Digits(q, '+', '/') != "";
    }
  }

  lemma StrictDigit(c: char, v: sextet)
    ensures c != '-' && c != '_' && ValueOf(c) == Some(v) <==> c == Digit(v, '+', '/')
  {
  }

  /** How much padding comes off. */
  predicate PaddingOk(digits: nat, n: nat) {
    if n == 0 then digits % 4 != 1 else n <= 2 && (digits + n) % 4 == 0
  }

  /** The text, white space aside, is the groups' standard digits, filled up with padding to a multiple of four, or
      without padding if that leaves no lone digit. */
  ghost predicate Spelled(s: string, q: seq<sextet>) {
    exists n :: StripAsciiSpace(s) == Digits(q, '+', '/') + Padding(n) && PaddingOk(|q|, n)
  }

  lemma {:induction false} AtobSpelled(s: string) returns (q: seq<sextet>)
    requires Atob(s).Some?
    ensures Spelled(s, q) && Atob(s) == Some(Bytes(q))
  {
    var text := StripAsciiSpace(s);
    q := StrictSextets(StripPadding(text)).value;
    StrictExact(StripPadding(text), q);
    StrictDigits(q);
    PaddingTaken(text, q);
  }

  lemma {:induction false} SpelledAtob(s: string, q: seq<sextet>)
    requires Spelled(s, q)
    ensures Atob(s) == Some(Bytes(q))
  {
    var n :| StripAsciiSpace(s) == Digits(q, '+', '/') + Padding(n) && PaddingOk(|q|, n);
    var digits := Digits(q, '+', '/');
    StrictDigits(q);
    if n == 0 {
      assert digits + Padding(0) == digits;
      assert digits != "" ==> digits[|digits| - 1] != '=';
    } else {
      StripPaddingPadded(digits, n);
    }
    AtobOf(s, digits, q);
  }

  /** `atob` accepts exactly what is so spelled, and returns the whole bytes of its groups. */
  lemma {:induction false} AtobExact(s: string, bytes: seq<byte>)
    ensures Atob(s) == Some(bytes) <==> exists q :: Spelled(s, q) && Bytes(q) == bytes
  {
    if Atob(s) == Some(bytes) {
      var q := AtobSpelled(s);
      assert Spelled(s, q) && Bytes(q) == bytes;
    }
    if q :| Spelled(s, q) && Bytes(q) == bytes {
      SpelledAtob(s, q);
    }
  }

  lemma PaddingTaken(text: string, q: seq<sextet>)
    requires StripPadding(text) == Digits(q, '+', '/') && |q| % 4 != 1 && |Digits(q, '+', '/')| == |q|
    ensures exists n :: text == Digits(q, '+', '/') + Padding(n) && PaddingOk(|q|, n)
  {
    var n := |text| - |q|;
    assert text == text[..|q|] + text[|q|..];
    assert text[|q|..] == Padding(n);
    assert text == Digits(q, '+', '/') + Padding(n) && PaddingOk(|q|, n);
  }
}
