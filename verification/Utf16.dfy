/** JavaScript strings as sequences of UTF-16 code units (RFC 2781), and their conversion to text. */
module Utf16 {
  import opened Utf8

  type codeunit = u: int | 0 <= u < 0x1_0000

  predicate High(u: int) { 0xD800 <= u < 0xDC00 }

  predicate Low(u: int) { 0xDC00 <= u < 0xE000 }

  function Units(c: char): seq<codeunit> {
    var n := c as int;
    if n < 0x1_0000 then [n] else [0xD800 + (n - 0x1_0000) / 0x400, 0xDC00 + (n - 0x1_0000) % 0x400]
  }

  function FromText(s: string): seq<codeunit> {
    if s == [] then [] else Units(s[0]) + FromText(s[1..])
  }

  function Combine(high: codeunit, low: codeunit): char
    requires High(high) && Low(low)
  {
    (0x1_0000 + (high - 0xD800) * 0x400 + (low - 0xDC00)) as char
  }

  /** What a UTF-8 printer sees: paired surrogates combine, a lone one becomes the replacement character. */
  function ToText(u: seq<codeunit>): string {
    if u == [] then ""
    else if |u| >= 2 && High(u[0]) && Low(u[1]) then [Combine(u[0], u[1])] + ToText(u[2..])
    else if High(u[0]) || Low(u[0]) then [REPLACEMENT] + ToText(u[1..])
    else [u[0] as char] + ToText(u[1..])
  }

  /** No lone surrogate anywhere. */
  predicate WellFormed(u: seq<codeunit>) {
    if u == [] then true
    else if High(u[0]) then |u| >= 2 && Low(u[1]) && WellFormed(u[2..])
    else !Low(u[0]) && WellFormed(u[1..])
  }

  lemma {:induction false} WellFormedConcat(a: seq<codeunit>, b: seq<codeunit>)
    requires WellFormed(a) && WellFormed(b)
    ensures WellFormed(a + b)
  {
    if a == [] {
      assert a + b == b;
    } else if High(a[0]) {
      assert (a + b)[2..] == a[2..] + b;
      WellFormedConcat(a[2..], b);
    } else {
      assert (a + b)[1..] == a[1..] + b;
      WellFormedConcat(a[1..], b);
    }
  }

  /** Text loses nothing of a well-formed string. */
  lemma {:induction false} FromTextToText(u: seq<codeunit>)
    requires WellFormed(u)
    ensures FromText(ToText(u)) == u
  {
    if u != [] {
      var s := ToText(u);
      if High(u[0]) {
        FromTextToText(u[2..]);
        assert s[1..] == ToText(u[2..]);
        assert u == [u[0], u[1]] + u[2..];
      } else {
        FromTextToText(u[1..]);
        assert s[1..] == ToText(u[1..]);
        assert u == [u[0]] + u[1..];
      }
    }
  }
}
