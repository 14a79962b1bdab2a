/** UTF-8 (RFC 3629): the encoder, and the streaming decoder of the WHATWG
    Encoding Standard section 8.1.1, which `TextDecoder` and `Buffer.toString` share. */
module Utf8 {

  type byte = b: int | 0 <= b < 0x100

  const REPLACEMENT: char := 0xFFFD as char

  predicate IsScalar(n: int) {
    0 <= n < 0xD800 || 0xE000 <= n < 0x11_0000
  }

  /** The shortest-form encoding of one code point (RFC 3629 section 3). */
  function EncodeChar(c: char): (bytes: seq<byte>)
    ensures 1 <= |bytes| <= 4
  {
    var n := c as int;
    if n < 0x80 then [n]
    else if n < 0x800 then [0xC0 + n / 0x40, 0x80 + n % 0x40]
    else if n < 0x1_0000 then [0xE0 + n / 0x1000, 0x80 + n / 0x40 % 0x40, 0x80 + n % 0x40]
    else [0xF0 + n / 0x4_0000, 0x80 + n / 0x1000 % 0x40, 0x80 + n / 0x40 % 0x40, 0x80 + n % 0x40]
  }

  function Encode(s: string): seq<byte> {
    if s == [] then [] else EncodeChar(s[0]) + Encode(s[1..])
  }

  /** Between characters, or `need` continuation bytes short of one, the next of
      which must lie in lower..upper; `acc` holds the bits read so far. */
  datatype State = Start | Pending(need: int, lower: int, upper: int, acc: int)

  /** Every state the decoder can be in leads only to scalar values. */
  predicate Legal(s: State) {
    s.Pending? ==>
      var plain := s.lower == 0x80 && s.upper == 0xBF;
      || (s.need == 1 && plain && 2 <= s.acc <= 0x43FF && !(0x360 <= s.acc < 0x380))
      || (s.need == 2 && plain && 1 <= s.acc <= 0x10F && s.acc != 0xD)
      || (s.need == 2 && s.lower == 0xA0 && s.upper == 0xBF && s.acc == 0)
      || (s.need == 2 && s.lower == 0x80 && s.upper == 0x9F && s.acc == 0xD)
      || (s.need == 3 && plain && 1 <= s.acc <= 3)
      || (s.need == 3 && s.lower == 0x90 && s.upper == 0xBF && s.acc == 0)
      || (s.need == 3 && s.lower == 0x80 && s.upper == 0x8F && s.acc == 4)
  }

  type Decoder = s: State | Legal(s) witness Start

  /** One byte read between characters. */
  function Lead(b: byte): (Decoder, string) {
    if b < 0x80 then (Start, [b as char])
    else if 0xC2 <= b <= 0xDF then (Pending(1, 0x80, 0xBF, b - 0xC0), "")
    else if b == 0xE0 then (Pending(2, 0xA0, 0xBF, 0), "")
    else if b == 0xED then (Pending(2, 0x80, 0x9F, 0xD), "")
    else if 0xE1 <= b <= 0xEF then (Pending(2, 0x80, 0xBF, b - 0xE0), "")
    else if b == 0xF0 then (Pending(3, 0x90, 0xBF, 0), "")
    else if b == 0xF4 then (Pending(3, 0x80, 0x8F, 4), "")
    else if 0xF1 <= b <= 0xF3 then (Pending(3, 0x80, 0xBF, b - 0xF0), "")
    else (Start, [REPLACEMENT])
  }

  /** One byte: an out-of-range continuation ends the broken character and is read again as a lead byte. */
  function Step(s: Decoder, b: byte): (Decoder, string) {
    match s
    case Start => Lead(b)
    case Pending(need, lower, upper, acc) =>
      if lower <= b <= upper then
        var acc' := acc * 0x40 + b - 0x80;
        if need == 1 then (Start, [acc' as char]) else (Pending(need - 1, 0x80, 0xBF, acc'), "")
      else
        var (s', out) := Lead(b);
        (s', [REPLACEMENT] + out)
  }

  function Decode(s: Decoder, bytes: seq<byte>): (Decoder, string)
    decreases |bytes|
  {
    if bytes == [] then (s, "")
    else
      var (s1, out1) := Step(s, bytes[0]);
      var (s2, out2) := Decode(s1, bytes[1..]);
      (s2, out1 + out2)
  }

  /** What the end of the input adds. */
  function Flush(s: Decoder): string {
    if s.Start? then "" else [REPLACEMENT]
  }

  /** Decoding a whole buffer at once, as `Buffer.toString('utf8')` does. */
  function DecodeAll(bytes: seq<byte>): string {
    var (s, out) := Decode(Start, bytes);
    out + Flush(s)
  }

  /** Where a byte stream is cut does not matter: the state carries everything. */
  lemma {:induction false} DecodeConcat(s: Decoder, a: seq<byte>, b: seq<byte>)
    ensures Decode(s, a + b) ==
            var (s1, out1) := Decode(s, a);
            var (s2, out2) := Decode(s1, b);
            (s2, out1 + out2)
    decreases |a|
  {
    if a == [] {
      assert a + b == b;
      assert "" + Decode(s, b).1 == Decode(s, b).1;
    } else {
      assert (a + b)[1..] == a[1..] + b;
      var (s1, out1) := Step(s, a[0]);
      DecodeConcat(s1, a[1..], b);
      var (s2, out2) := Decode(s1, a[1..]);
      assert out1 + (out2 + Decode(s2, b).1) == out1 + out2 + Decode(s2, b).1;
    }
  }

  lemma DecodeSilent(s: Decoder, bytes: seq<byte>)
    requires bytes != [] && Step(s, bytes[0]).1 == ""
    ensures Decode(s, bytes) == Decode(Step(s, bytes[0]).0, bytes[1..])
  {
    var out := Decode(Step(s, bytes[0]).0, bytes[1..]).1;
    assert "" + out == out;
  }

  lemma DecodeLast(s: Decoder, b: byte)
    ensures Decode(s, [b]) == Step(s, b)
  {
    var out := Step(s, b).1;
    assert out + "" == out;
  }

  /** A state one continuation byte short finishes its character. */
  lemma FinishOne(acc: int, low: int)
    requires Legal(Pending(1, 0x80, 0xBF, acc)) && 0 <= low < 0x40
    ensures IsScalar(acc * 0x40 + low)
    ensures Decode(Pending(1, 0x80, 0xBF, acc), [0x80 + low]) == (Start, [(acc * 0x40 + low) as char])
  {
    DecodeLast(Pending(1, 0x80, 0xBF, acc), 0x80 + low);
  }

  /** A state two bytes short accepts a continuation in its range and carries on. */
  lemma FinishTwo(s: Decoder, mid: int, low: int)
    requires s.Pending? && s.need == 2 && s.lower <= 0x80 + mid <= s.upper && 0 <= low < 0x40
    ensures IsScalar(s.acc * 0x1000 + mid * 0x40 + low)
    ensures Decode(s, [0x80 + mid, 0x80 + low]) == (Start, [(s.acc * 0x1000 + mid * 0x40 + low) as char])
  {
    DecodeSilent(s, [0x80 + mid, 0x80 + low]);
    assert [0x80 + mid, 0x80 + low][1..] == [0x80 + low];
    FinishOne(s.acc * 0x40 + mid, low);
  }

  lemma FinishThree(s: Decoder, high: int, mid: int, low: int)
    requires s.Pending? && s.need == 3 && s.lower <= 0x80 + high <= s.upper && 0 <= mid < 0x40 && 0 <= low < 0x40
    ensures IsScalar(s.acc * 0x4_0000 + high * 0x1000 + mid * 0x40 + low)
    ensures Decode(s, [0x80 + high, 0x80 + mid, 0x80 + low])
         == (Start, [(s.acc * 0x4_0000 + high * 0x1000 + mid * 0x40 + low) as char])
  {
    var bytes: seq<byte> := [0x80 + high, 0x80 + mid, 0x80 + low];
    DecodeSilent(s, bytes);
    assert bytes[1..] == [0x80 + mid, 0x80 + low];
    FinishTwo(Step(s, bytes[0]).0, mid, low);
  }

  lemma LongDigits(n: int)
    requires 0x1_0000 <= n < 0x11_0000
    ensures n == n / 0x4_0000 * 0x4_0000 + n / 0x1000 % 0x40 * 0x1000 + n / 0x40 % 0x40 * 0x40 + n % 0x40
    ensures 0 <= n / 0x4_0000 <= 4
    ensures n / 0x4_0000 == 0 ==> 0x10 <= n / 0x1000 % 0x40
    ensures n / 0x4_0000 == 4 ==> n / 0x1000 % 0x40 < 0x10
  {
  }

  lemma DecodeLong(n: int)
    requires 0x1_0000 <= n < 0x11_0000
    ensures Decode(Start, EncodeChar(n as char)) == (Start, [n as char])
  {
    LongDigits(n);
    var bytes := EncodeChar(n as char);
    DecodeSilent(Start, bytes);
    assert bytes[1..] == [0x80 + n / 0x1000 % 0x40, 0x80 + n / 0x40 % 0x40, 0x80 + n % 0x40];
    FinishThree(Step(Start, bytes[0]).0, n / 0x1000 % 0x40, n / 0x40 % 0x40, n % 0x40);
  }

  lemma MediumDigits(n: int)
    requires 0x800 <= n < 0x1_0000
    ensures n == n / 0x1000 * 0x1000 + n / 0x40 % 0x40 * 0x40 + n % 0x40
    ensures 0 <= n / 0x1000 < 0x10 && (n / 0x1000 == 0 ==> 0x20 <= n / 0x40 % 0x40)
    ensures n / 0x1000 == 0xD && IsScalar(n) ==> n / 0x40 % 0x40 < 0x20
  {
  }

  /** The state after the first of three bytes. */
  lemma LeadMedium(high: int)
    requires 0 <= high < 0x10
    ensures Step(Start, 0xE0 + high) ==
            (Pending(2, if high == 0 then 0xA0 else 0x80, if high == 0xD then 0x9F else 0xBF, high), "")
  {
  }

  lemma DecodeMedium(n: int)
    requires 0x800 <= n < 0x1_0000 && IsScalar(n)
    ensures Decode(Start, EncodeChar(n as char)) == (Start, [n as char])
  {
    var high, mid, low := n / 0x1000, n / 0x40 % 0x40, n % 0x40;
    MediumDigits(n);
    LeadMedium(high);
    var bytes: seq<byte> := [0xE0 + high, 0x80 + mid, 0x80 + low];
    DecodeSilent(Start, bytes);
    assert bytes[1..] == [0x80 + mid, 0x80 + low];
    FinishTwo(Step(Start, bytes[0]).0, mid, low);
  }

  /** Decoding one encoded code point yields it. */
  lemma DecodeChar(c: char)
    ensures Decode(Start, EncodeChar(c)) == (Start, [c])
  {
    var n := c as int;
    if n < 0x80 {
      DecodeLast(Start, n);
    } else if n < 0x800 {
      DecodeSilent(Start, EncodeChar(c));
      assert EncodeChar(c)[1..] == [0x80 + n % 0x40];
      FinishOne(n / 0x40, n % 0x40);
    } else if n < 0x1_0000 {
      DecodeMedium(n);
    } else {
      DecodeLong(n);
    }
  }

  /** The decoder undoes the encoder and ends between characters. */
  lemma {:induction false} DecodeEncode(s: string)
    ensures Decode(Start, Encode(s)) == (Start, s)
  {
    if s != [] {
      DecodeChar(s[0]);
      DecodeConcat(Start, EncodeChar(s[0]), Encode(s[1..]));
      DecodeEncode(s[1..]);
      assert [s[0]] + s[1..] == s;
    }
  }

  // ---------------------------------------------------------- malformed input

  /** The bytes of the unfinished character that a state has read. */
  function Held(s: Decoder): seq<byte> {
    match s
    case Start => []
    case Pending(need, _, _, acc) =>
      if need == 3 then [0xF0 + acc]
      else if need == 2 then (if acc < 0x10 then [0xE0 + acc] else [0xF0 + acc / 0x40, 0x80 + acc % 0x40])
      else if acc < 0x20 then [0xC0 + acc]
      else if acc < 0x400 then [0xE0 + acc / 0x40, 0x80 + acc % 0x40]
      else [0xF0 + acc / 0x1000, 0x80 + acc / 0x40 % 0x40, 0x80 + acc % 0x40]
  }

  lemma AccDigits(acc: int, low: int)
    requires 0 <= acc && 0 <= low < 0x40
    ensures (acc * 0x40 + low) / 0x40 == acc && (acc * 0x40 + low) % 0x40 == low
    ensures (acc * 0x40 + low) / 0x1000 == acc / 0x40
    ensures (acc * 0x40 + low) / 0x4_0000 == acc / 0x1000
  {
  }

  /** A byte read either spells a broken character, or is kept, or completes the encoding of the character it yields. */
  lemma StepFaithful(s: Decoder, b: byte)
    ensures var (s', out) := Step(s, b);
            || REPLACEMENT in out
            || (out == "" && Held(s') == Held(s) + [b])
            || (|out| == 1 && s' == Start && EncodeChar(out[0]) == Held(s) + [b])
  {
    if s.Pending? && s.lower <= b <= s.upper {
      AccDigits(s.acc, b - 0x80);
    } else if s.Pending? {
      assert Step(s, b).1[0] == REPLACEMENT;
    }
  }

  lemma EncodeKept(rest: string, held: seq<byte>, b: byte, bytes: seq<byte>)
    requires Encode(rest) == held + [b] + bytes
    ensures Encode("" + rest) == held + ([b] + bytes)
  {
    assert "" + rest == rest;
  }

  lemma EncodeYielded(out: string, rest: string, held: seq<byte>, b: byte, bytes: seq<byte>)
    requires |out| == 1 && Encode(rest) == [] + bytes && EncodeChar(out[0]) == held + [b]
    ensures Encode(out + rest) == held + ([b] + bytes)
  {
    EncodeCons(out[0], rest);
    assert out == [out[0]];
    Grouped(held, b, bytes);
  }

  lemma EncodeCons(c: char, rest: string)
    ensures Encode([c] + rest) == EncodeChar(c) + Encode(rest)
  {
    assert ([c] + rest)[1..] == rest;
  }

  lemma Grouped(held: seq<byte>, b: byte, bytes: seq<byte>)
    ensures held + [b] + ([] + bytes) == held + ([b] + bytes)
  {
  }

  lemma CleanParts(out: string, rest: string)
    requires REPLACEMENT !in out + rest
    ensures REPLACEMENT !in out && REPLACEMENT !in rest
  {
    assert forall i :: 0 <= i < |out| ==> (out + rest)[i] == out[i];
    assert forall i :: 0 <= i < |rest| ==> (out + rest)[|out| + i] == rest[i];
  }

  lemma {:induction false} DecodeFaithful(s: Decoder, bytes: seq<byte>)
    requires var (s', out) := Decode(s, bytes); s' == Start && REPLACEMENT !in out
    ensures Encode(Decode(s, bytes).1) == Held(s) + bytes
    decreases |bytes|
  {
    if bytes != [] {
      var (s1, out) := Step(s, bytes[0]);
      var rest := Decode(s1, bytes[1..]).1;
      CleanParts(out, rest);
      StepFaithful(s, bytes[0]);
      DecodeFaithful(s1, bytes[1..]);
      if out == "" {
        EncodeKept(rest, Held(s), bytes[0], bytes[1..]);
      } else {
        EncodeYielded(out, rest, Held(s), bytes[0], bytes[1..]);
      }
      assert bytes == [bytes[0]] + bytes[1..];
    }
  }

  /** Nothing but its encoding decodes to a text without U+FFFD: overlong forms, surrogates and cut characters do
      not. */
  lemma {:induction false} DecodeExact(bytes: seq<byte>, s: string)
    requires REPLACEMENT !in s
    ensures DecodeAll(bytes) == s <==> bytes == Encode(s)
  {
    if DecodeAll(bytes) == s {
      var (end, out) := Decode(Start, bytes);
      CleanParts(out, Flush(end));
      assert REPLACEMENT in [REPLACEMENT];
      assert out + "" == out;
      DecodeFaithful(Start, bytes);
    }
    DecodeEncode(s);
    assert s + "" == s;
  }

  /** An encoded text begins with no continuation byte, so it never finishes a broken character. */
  lemma {:induction false} BrokenThen(s: Decoder, b: string)
    requires s.Pending?
    ensures var (end, out) := Decode(s, Encode(b)); out + Flush(end) == [REPLACEMENT] + b
  {
    if b == "" {
      assert "" + [REPLACEMENT] == [REPLACEMENT] + "";
    } else {
      var bytes := Encode(b);
      DecodeEncode(b);
      assert bytes[0] == EncodeChar(b[0])[0];
      var (s1, out) := Lead(bytes[0]);
      var rest := Decode(s1, bytes[1..]).1;
      assert Decode(Start, bytes) == (Start, b);
      assert [REPLACEMENT] + out + rest == [REPLACEMENT] + (out + rest);
    }
  }

  lemma {:induction false} CutChar(c: char, k: nat)
    requires 0 < k < |EncodeChar(c)|
    ensures var (s, out) := Decode(Start, EncodeChar(c)[..k]); s.Pending? && out == ""
  {
    var bytes := EncodeChar(c)[..k];
    DecodeSilent(Start, bytes);
    if k > 1 {
      DecodeSilent(Step(Start, bytes[0]).0, bytes[1..]);
    }
    if k > 2 {
      DecodeSilent(Step(Step(Start, bytes[0]).0, bytes[1]).0, bytes[2..]);
    }
  }

  lemma {:induction false} BrokenBetween(a: string, cut: seq<byte>, b: string)
    requires var (s, out) := Decode(Start, cut); s.Pending? && out == ""
    ensures DecodeAll(Encode(a) + (cut + Encode(b))) == a + [REPLACEMENT] + b
  {
    DecodeEncode(a);
    DecodeConcat(Start, Encode(a), cut + Encode(b));
    DecodeConcat(Start, cut, Encode(b));
    var s := Decode(Start, cut).0;
    BrokenThen(s, b);
    var (end, out) := Decode(s, Encode(b));
    Outputs(a, out, Flush(end), [REPLACEMENT], b);
  }

  lemma Outputs(a: string, out: string, flush: string, x: string, b: string)
    requires out + flush == x + b
    ensures a + ("" + out) + flush == a + x + b
  {
    assert a + ("" + out) + flush == a + (out + flush);
  }

  /** A character cut short becomes one U+FFFD; what is around it is read as it is. */
  lemma {:induction false} CutCharacter(a: string, c: char, k: nat, b: string)
    requires 0 < k < |EncodeChar(c)|
    ensures DecodeAll(Encode(a) + (EncodeChar(c)[..k] + Encode(b))) == a + [REPLACEMENT] + b
  {
    CutChar(c, k);
    BrokenBetween(a, EncodeChar(c)[..k], b);
  }

  /** So does a byte that never occurs in UTF-8, or a continuation byte out of place. */
  lemma {:induction false} StrayByte(a: string, x: byte, b: string)
    requires 0x80 <= x < 0xC2 || x >= 0xF5
    ensures DecodeAll(Encode(a) + ([x] + Encode(b))) == a + [REPLACEMENT] + b
  {
    DecodeEncode(a);
    DecodeEncode(b);
    DecodeConcat(Start, Encode(a), [x] + Encode(b));
    DecodeConcat(Start, [x], Encode(b));
    DecodeLast(Start, x);
    assert a + ([REPLACEMENT] + b) + "" == a + [REPLACEMENT] + b;
  }
}
