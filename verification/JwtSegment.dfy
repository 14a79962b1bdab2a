/** The browser's reader of one JWT segment (RFC 7515 section 2): re-padding,
    `atob`, and the percent-escape detour through `decodeURIComponent`. */
module JwtSegment {
  import opened Wrappers
  import opened Utf8
  import Base64
  import Json
  import G = JsonGrammar
  import JsText
  import Utf16

  function HexChar(d: int): char
    requires 0 <= d < 16
  {
    if d < 10 then ('0' as int + d) as char else ('a' as int + d - 10) as char
  }

  /** `%${c.charCodeAt(0).toString(16).padStart(2, '0')}` of each byte, joined. */
  function PercentEscape(bytes: seq<byte>): string {
    if bytes == [] then ""
    else "%" + [HexChar(bytes[0] / 16), HexChar(bytes[0] % 16)] + PercentEscape(bytes[1..])
  }

  function HexValue(c: char): Option<int> {
    if '0' <= c <= '9' then Some(c as int - '0' as int)
    else if 'a' <= c <= 'f' then Some(c as int - 'a' as int + 10)
    else if 'A' <= c <= 'F' then Some(c as int - 'A' as int + 10)
    else None
  }

  /** The byte written as a percent escape at the start of `s`. */
  function EscapedByte(s: string): (r: Option<byte>) {
    if |s| < 3 || s[0] != '%' then None
    else
      match (HexValue(s[1]), HexValue(s[2]))
      case (Some(high), Some(low)) =>
        var b := high * 16 + low;
        if 0 <= b < 256 then Some(b) else None
      case _ => None
  }

  /** How many bytes a lead byte announces; 0 where `decodeURIComponent` throws. */
  function LeadLength(b: byte): (n: nat)
    ensures n <= 4
  {
    if b < 0x80 then 1
    else if 0xC0 <= b < 0xE0 then 2
    else if 0xE0 <= b < 0xF0 then 3
    else if 0xF0 <= b < 0xF8 then 4
    else 0
  }

  /** `n` consecutive percent escapes at the start of `s`. */
  function EscapedBytes(s: string, n: nat): (r: Option<seq<byte>>)
    ensures r.Some? ==> |r.value| == n && |s| >= 3 * n
  {
    if n == 0 then Some([])
    else
      match EscapedByte(s)
      case None => None
      case Some(b) =>
        match EscapedBytes(s[3..], n - 1)
        case None => None
        case Some(rest) => Some([b] + rest)
  }

  predicate Continuation(b: byte) { 0x80 <= b < 0xC0 }

  /** The number whose six-bit digits follow the lead bits `top`. */
  function Value2(top: int, b: int): int { top * 0x40 + b }

  function Value3(top: int, b: int, c: int): int { top * 0x1000 + b * 0x40 + c }

  function Value4(top: int, b: int, c: int, d: int): int { top * 0x4_0000 + b * 0x1000 + c * 0x40 + d }

  function Low(b: int): int { b - 0x80 }

  function LeadBits(b: int, offset: int): int { b - offset }

  /** The code point of a complete octet group: shortest form, in range, not a surrogate. */
  function GroupChar(o: seq<byte>): Option<char> {
    if |o| == 1 then (if o[0] < 0x80 then Some(o[0] as char) else None)
    else if |o| == 2 && Continuation(o[1]) then
      ScalarFrom(Value2(LeadBits(o[0], 0xC0), Low(o[1])), 0x80)
    else if |o| == 3 && Continuation(o[1]) && Continuation(o[2]) then
      ScalarFrom(Value3(LeadBits(o[0], 0xE0), Low(o[1]), Low(o[2])), 0x800)
    else if |o| == 4 && Continuation(o[1]) && Continuation(o[2]) && Continuation(o[3]) then
      ScalarFrom(Value4(LeadBits(o[0], 0xF0), Low(o[1]), Low(o[2]), Low(o[3])), 0x1_0000)
    else None
  }

  function ScalarFrom(n: int, least: int): Option<char> {
    if least <= n && IsScalar(n) then Some(n as char) else None
  }

  /** `decodeURIComponent` (ECMA-262 section 19.2.6.5); None where it throws a URIError. */
  function DecodeUriComponent(s: string): Option<string>
    decreases |s|
  {
    if s == "" then Some("")
    else if s[0] != '%' then
      (match DecodeUriComponent(s[1..])
       case None => None
       case Some(rest) => Some([s[0]] + rest))
    else
      match EscapedByte(s)
      case None => None
      case Some(b) =>
        var n := LeadLength(b);
        if n == 0 then None
        else
          match EscapedBytes(s, n)
          case None => None
          case Some(group) =>
            match (GroupChar(group), DecodeUriComponent(s[3 * n..]))
            case (Some(c), Some(rest)) => Some([c] + rest)
            case _ => None
  }

  /** `replace(/-/g, '+').replace(/_/g, '/')`. */
  function ToStandard(s: string): string {
    if s == "" then ""
    else [if s[0] == '-' then '+' else if s[0] == '_' then '/' else s[0]] + ToStandard(s[1..])
  }

  function Pad(s: string): string {
    s + Base64.Padding((4 - |s| % 4) % 4)
  }

  /** The text of a segment; None where `atob` or `decodeURIComponent` throws. */
  function SegmentText(segment: string): Option<string> {
    match Base64.Atob(Pad(ToStandard(segment)))
    case None => None
    case Some(bytes) => DecodeUriComponent(PercentEscape(bytes))
  }

  /** `decodeSegment`: None stands for the `null` of a malformed segment. */
  function DecodeSegment(segment: string): Option<Json.Value> {
    match SegmentText(segment)
    case None => None
    case Some(text) => Json.Parse(Utf16.FromText(text))
  }

  // ---------------------------------------------------- the percent detour

  lemma EscapedByteOf(b: byte, tail: string)
    ensures EscapedByte("%" + [HexChar(b / 16), HexChar(b % 16)] + tail) == Some(b)
  {
    assert HexValue(HexChar(b / 16)) == Some(b / 16);
    assert HexValue(HexChar(b % 16)) == Some(b % 16);
  }

  lemma {:induction false} PercentEscapeHead(bytes: seq<byte>)
    requires bytes != []
    ensures EscapedByte(PercentEscape(bytes)) == Some(bytes[0])
    ensures |PercentEscape(bytes)| >= 3 && PercentEscape(bytes)[0] == '%'
    ensures PercentEscape(bytes)[3..] == PercentEscape(bytes[1..])
  {
    EscapedByteOf(bytes[0], PercentEscape(bytes[1..]));
  }

  lemma {:induction false} PercentEscapeGroup(bytes: seq<byte>, n: nat)
    ensures n <= |bytes| ==> EscapedBytes(PercentEscape(bytes), n) == Some(bytes[..n])
    ensures n <= |bytes| ==>
              |PercentEscape(bytes)| >= 3 * n && PercentEscape(bytes)[3 * n..] == PercentEscape(bytes[n..])
    ensures n > |bytes| ==> EscapedBytes(PercentEscape(bytes), n).None?
  {
    if n > 0 && bytes != [] {
      PercentEscapeHead(bytes);
      PercentEscapeGroup(bytes[1..], n - 1);
      if n <= |bytes| {
        assert bytes[..n] == [bytes[0]] + bytes[1..][..n - 1];
        assert bytes[1..][n - 1..] == bytes[n..];
        assert PercentEscape(bytes)[3 * n..] == PercentEscape(bytes)[3..][3 * (n - 1)..];
      }
    }
  }

  lemma LastDigit(q: int, r: int)
    requires 0 <= r < 0x40
    ensures (q * 0x40 + r) / 0x40 == q && (q * 0x40 + r) % 0x40 == r
  {
  }

  lemma ShiftTwice(n: int)
    requires 0 <= n
    ensures n / 0x40 / 0x40 == n / 0x1000
  {
  }

  lemma Digits3(top: int, b: int, c: int)
    requires 0 <= b < 0x40 && 0 <= c < 0x40 && 0 <= top
    ensures var n := Value3(top, b, c); n / 0x1000 == top && n / 0x40 % 0x40 == b && n % 0x40 == c
  {
    LastDigit(top, b);
    LastDigit(top * 0x40 + b, c);
    ShiftTwice(Value3(top, b, c));
  }

  lemma ShiftThrice(n: int)
    requires 0 <= n
    ensures n / 0x40 / 0x1000 == n / 0x4_0000
  {
  }

  lemma Digits4(top: int, b: int, c: int, d: int)
    requires 0 <= b < 0x40 && 0 <= c < 0x40 && 0 <= d < 0x40 && 0 <= top
    ensures var n := Value4(top, b, c, d);
            n / 0x4_0000 == top && n / 0x1000 % 0x40 == b && n / 0x40 % 0x40 == c && n % 0x40 == d
  {
    var m, n := Value3(top, b, c), Value4(top, b, c, d);
    Digits3(top, b, c);
    LastDigit(m, d);
    ShiftTwice(n);
    ShiftThrice(n);
  }

  lemma Compose2(n: int)
    requires 0 <= n
    ensures n / 0x40 * 0x40 + n % 0x40 == n
  {
  }

  lemma Compose3(n: int)
    requires 0 <= n
    ensures Value3(n / 0x1000, n / 0x40 % 0x40, n % 0x40) == n
  {
    ShiftTwice(n);
    Compose2(n);
    Compose2(n / 0x40);
  }

  lemma Compose4(n: int)
    requires 0 <= n
    ensures Value4(n / 0x4_0000, n / 0x1000 % 0x40, n / 0x40 % 0x40, n % 0x40) == n
  {
    ShiftTwice(n);
    ShiftThrice(n);
    Compose2(n);
    Compose3(n / 0x40);
  }

  lemma GroupCharTwo(o: seq<byte>, c: char)
    requires |o| == 2 && LeadLength(o[0]) == 2
    ensures GroupChar(o) == Some(c) <==> EncodeChar(c) == o
  {
  }

  lemma GroupCharThree(o: seq<byte>, c: char)
    requires |o| == 3 && LeadLength(o[0]) == 3
    ensures GroupChar(o) == Some(c) <==> EncodeChar(c) == o
  {
    Compose3(c as int);
    if Continuation(o[1]) && Continuation(o[2]) {
      Digits3(LeadBits(o[0], 0xE0), Low(o[1]), Low(o[2]));
    }
  }

  lemma GroupCharFour(o: seq<byte>, c: char)
    requires |o| == 4 && LeadLength(o[0]) == 4
    ensures GroupChar(o) == Some(c) <==> EncodeChar(c) == o
  {
    Compose4(c as int);
    if Continuation(o[1]) && Continuation(o[2]) && Continuation(o[3]) {
      Digits4(LeadBits(o[0], 0xF0), Low(o[1]), Low(o[2]), Low(o[3]));
    }
  }

  /** A group has a code point exactly when it is that code point's encoding. */
  lemma GroupCharExact(o: seq<byte>, c: char)
    requires o != [] && LeadLength(o[0]) == |o|
    ensures GroupChar(o) == Some(c) <==> EncodeChar(c) == o
  {
    if |o| == 2 {
      GroupCharTwo(o, c);
    } else if |o| == 3 {
      GroupCharThree(o, c);
    } else if |o| == 4 {
      GroupCharFour(o, c);
    }
  }

  lemma LeadLengthOfEncoded(c: char)
    ensures LeadLength(EncodeChar(c)[0]) == |EncodeChar(c)|
  {
  }

  lemma {:induction false} DecodePercentUnfold(bytes: seq<byte>)
    requires bytes != []
    ensures var n := LeadLength(bytes[0]);
            DecodeUriComponent(PercentEscape(bytes)) ==
            if n == 0 || n > |bytes| then None
            else match (GroupChar(bytes[..n]), DecodeUriComponent(PercentEscape(bytes[n..])))
                 case (Some(c), Some(rest)) => Some([c] + rest)
                 case _ => None
  {
    PercentEscapeHead(bytes);
    PercentEscapeGroup(bytes, LeadLength(bytes[0]));
  }

  lemma {:induction false} EncodeUnfold(bytes: seq<byte>, s: string)
    requires bytes != []
    ensures var n := LeadLength(bytes[0]);
            bytes == Encode(s) <==>
            s != "" && 0 < n <= |bytes| && EncodeChar(s[0]) == bytes[..n] && Encode(s[1..]) == bytes[n..]
  {
    var n := LeadLength(bytes[0]);
    if s != "" {
      LeadLengthOfEncoded(s[0]);
      if bytes == Encode(s) {
        assert bytes[0] == EncodeChar(s[0])[0];
      } else if 0 < n <= |bytes| {
        assert bytes == bytes[..n] + bytes[n..];
      }
    }
  }

  /** The percent detour is exactly a strict UTF-8 decoder: it yields `s` on the encoding of `s` and on nothing else. */
  lemma {:induction false} PercentDetourExact(bytes: seq<byte>, s: string)
    ensures DecodeUriComponent(PercentEscape(bytes)) == Some(s) <==> bytes == Encode(s)
    decreases |bytes|
  {
    if bytes == [] {
      assert s != "" ==> Encode(s) != [];
    } else {
      var n := LeadLength(bytes[0]);
      DecodePercentUnfold(bytes);
      EncodeUnfold(bytes, s);
      if s != "" && 0 < n <= |bytes| {
        PercentDetourExact(bytes[n..], s[1..]);
        GroupCharExact(bytes[..n], s[0]);
        assert s == [s[0]] + s[1..];
      }
    }
  }

  // --------------------------------------------------------- whole segments

  lemma {:induction false} ToStandardDigits(q: seq<Base64.sextet>)
    ensures ToStandard(Base64.Digits(q, '-', '_')) == Base64.Digits(q, '+', '/')
  {
    if q != [] {
      var s := Base64.Digits(q, '-', '_');
      assert s[1..] == Base64.Digits(q[1..], '-', '_');
      ToStandardDigits(q[1..]);
    }
  }

  /** Re-padding always reaches a multiple of four, by at most three signs. */
  lemma PadLength(s: string)
    ensures |Pad(s)| % 4 == 0 && |s| <= |Pad(s)| <= |s| + 3
  {
  }

  lemma {:induction false} AtobSegment(bytes: seq<byte>)
    ensures Base64.Atob(Pad(ToStandard(Base64.EncodeUrl(bytes)))) == Some(bytes)
  {
    var q := Base64.Sextets(bytes);
    ToStandardDigits(q);
    Base64.StrictDigits(q);
    Base64.AtobPadded(q, (4 - |q| % 4) % 4);
    Base64.BytesOfSextets(bytes);
  }

  /** A segment of any bytes, of all three length residues, reads as `s` exactly when the bytes are UTF-8 of `s`. */
  lemma {:induction false} SegmentTextExact(bytes: seq<byte>, s: string)
    ensures SegmentText(Base64.EncodeUrl(bytes)) == Some(s) <==> bytes == Encode(s)
  {
    AtobSegment(bytes);
    PercentDetourExact(bytes, s);
  }

  /** Any segment reads as the JSON value of the text whose UTF-8 encoding its digits give, and as nothing else. */
  lemma {:induction false} SegmentExact(segment: string, value: Json.Value)
    ensures DecodeSegment(segment) == Some(value) <==>
            exists text :: Base64.Atob(Pad(ToStandard(segment))) == Some(Encode(text))
                           && G.Denotes(Utf16.FromText(text), value)
  {
    var bytes := Base64.Atob(Pad(ToStandard(segment)));
    if bytes.Some? {
      if DecodeSegment(segment) == Some(value) {
        var text := SegmentText(segment).value;
        PercentDetourExact(bytes.value, text);
        G.ParseExact(Utf16.FromText(text), value);
        assert bytes == Some(Encode(text));
      }
      if text :| bytes == Some(Encode(text)) && G.Denotes(Utf16.FromText(text), value) {
        PercentDetourExact(bytes.value, text);
        G.ParseExact(Utf16.FromText(text), value);
      }
    }
  }

  /** The groups that the digits of either alphabet stand for. */
  predicate Groups(segment: string, q: seq<Base64.sextet>) {
    |segment| == |q| && forall i :: 0 <= i < |q| ==> Base64.ValueOf(segment[i]) == Some(q[i])
  }

  lemma {:induction false} ToStandardGroups(segment: string, q: seq<Base64.sextet>)
    requires Groups(segment, q)
    ensures ToStandard(segment) == Base64.Digits(q, '+', '/')
  {
    if q != [] {
      assert Groups(segment[1..], q[1..]);
      ToStandardGroups(segment[1..], q[1..]);
    }
  }

  lemma {:induction false} PadTooMuch(q: seq<Base64.sextet>)
    requires |q| % 4 == 1
    ensures Base64.Atob(Base64.Digits(q, '+', '/') + Base64.Padding(3)) == None
  {
    var s := Base64.Digits(q, '+', '/');
    Base64.StrictDigits(q);
    Base64.DigitsKeepSpace(q, Base64.Padding(3));
    if Base64.Atob(s + Base64.Padding(3)).Some? {
      var p := Base64.AtobSpelled(s + Base64.Padding(3));
      var n :| s + Base64.Padding(3) == Base64.Digits(p, '+', '/') + Base64.Padding(n) && Base64.PaddingOk(|p|, n);
      Base64.StrictDigits(p);
      FirstPadding(s, 3);
      FirstPadding(Base64.Digits(p, '+', '/'), n);
    }
  }

  lemma FirstPadding(s: string, n: nat)
    requires '=' !in s
    ensures JsText.IndexOf(s + Base64.Padding(n), '=') == if n == 0 then -1 else |s|
  {
    var text := s + Base64.Padding(n);
    assert n > 0 ==> text[|s|] == '=';
    assert n == 0 ==> text == s;
    assert forall i :: 0 <= i < |s| ==> text[i] == s[i];
  }

  lemma {:induction false} StandardBytes(q: seq<Base64.sextet>)
    ensures Base64.Atob(Pad(Base64.Digits(q, '+', '/'))) == if |q| % 4 == 1 then None else Some(Base64.Bytes(q))
  {
    Base64.StrictDigits(q);
    if |q| % 4 == 1 {
      PadTooMuch(q);
    } else {
      Base64.AtobPadded(q, (4 - |q| % 4) % 4);
    }
  }

  /** An unpadded segment of digits of either alphabet gives the bytes of its groups, unless one digit is left over. */
  lemma {:induction false} SegmentBytes(segment: string, q: seq<Base64.sextet>)
    requires Groups(segment, q)
    ensures Base64.Atob(Pad(ToStandard(segment))) == if |q| % 4 == 1 then None else Some(Base64.Bytes(q))
  {
    ToStandardGroups(segment, q);
    StandardBytes(q);
  }

  // ------------------------------------------------------- the access token

  const SUB: Json.JsString := [0x73, 0x75, 0x62]
  const ROLE: Json.JsString := [0x72, 0x6F, 0x6C, 0x65]
  const SV: Json.JsString := [0x73, 0x76]
  const EXP: Json.JsString := [0x65, 0x78, 0x70]

  /** Numbers keep their JSON text; a missing `sv` is the number 0. */
  datatype DecodedAccessToken = DecodedAccessToken(
    sub: Json.JsString, role: Json.JsString, sv: Json.JsString, exp: Option<Json.JsString>)

  const ZERO: Json.JsString := [0x30]

  /** A claim where `typeof` says it is a string. */
  function StringClaim(members: seq<(Json.JsString, Json.Value)>, name: Json.JsString): Option<Json.JsString> {
    match Json.Lookup(members, name)
    case Some(String(s)) => Some(s)
    case _ => None
  }

  function NumberClaim(members: seq<(Json.JsString, Json.Value)>, name: Json.JsString): Option<Json.JsString> {
    match Json.Lookup(members, name)
    case Some(Number(n)) => Some(n)
    case _ => None
  }

  function RoleOf(claim: Option<Json.JsString>, roles: set<Json.JsString>, user: Json.JsString): Json.JsString {
    if claim.Some? && claim.value in roles then claim.value else user
  }

  function ClaimsOf(payload: Json.Value, roles: set<Json.JsString>, user: Json.JsString): Option<DecodedAccessToken> {
    if !payload.Object? then None
    else
      match StringClaim(payload.members, SUB)
      case None => None
      case Some(sub) =>
        var sv := NumberClaim(payload.members, SV);
        Some(DecodedAccessToken(sub, RoleOf(StringClaim(payload.members, ROLE), roles, user),
                                if sv.Some? then sv.value else ZERO, NumberClaim(payload.members, EXP)))
  }

  /** `decodeAccessToken`; `roles` are the role values and `user` the least privileged of them. */
  function DecodeAccessToken(token: Option<string>, roles: set<Json.JsString>,
                             user: Json.JsString): Option<DecodedAccessToken> {
    if token.None? || token.value == "" then None
    else
      var parts := JsText.Split(token.value, '.');
      if |parts| != 3 || parts[1] == "" then None
      else
        match DecodeSegment(parts[1])
        case None => None
        case Some(payload) => ClaimsOf(payload, roles, user)
  }

  ghost predicate RoleIs(members: seq<(Json.JsString, Json.Value)>, roles: set<Json.JsString>, user: Json.JsString,
                         role: Json.JsString) {
    if exists r :: r in roles && Json.LastMember(members, [0x72, 0x6F, 0x6C, 0x65], Json.String(r))
    then Json.LastMember(members, [0x72, 0x6F, 0x6C, 0x65], Json.String(role)) else role == user
  }

  ghost predicate VersionIs(members: seq<(Json.JsString, Json.Value)>, sv: Json.JsString) {
    if exists n :: Json.LastMember(members, [0x73, 0x76], Json.Number(n))
    then Json.LastMember(members, [0x73, 0x76], Json.Number(sv)) else sv == [0x30]
  }

  ghost predicate ExpiryIs(members: seq<(Json.JsString, Json.Value)>, exp: Option<Json.JsString>) {
    match exp
    case Some(n) => Json.LastMember(members, [0x65, 0x78, 0x70], Json.Number(n))
    case None => !exists n :: Json.LastMember(members, [0x65, 0x78, 0x70], Json.Number(n))
  }

  /** The claims `d` are those of the payload: `sub` is the last member of that name, a string; `role` is the last one
      if it is a string among the roles, and the least privileged role otherwise; `sv` and `exp` are the last ones if
      they are numbers, and 0 and absent otherwise. */
  ghost predicate Claims(payload: Json.Value, roles: set<Json.JsString>, user: Json.JsString, d: DecodedAccessToken) {
    && payload.Object?
    && Json.LastMember(payload.members, [0x73, 0x75, 0x62], Json.String(d.sub))
    && RoleIs(payload.members, roles, user, d.role)
    && VersionIs(payload.members, d.sv) && ExpiryIs(payload.members, d.exp)
  }

  lemma {:induction false} StringClaimExact(members: seq<(Json.JsString, Json.Value)>, name: Json.JsString)
    ensures forall s :: StringClaim(members, name) == Some(s) <==> Json.LastMember(members, name, Json.String(s))
  {
    Json.LookupExact(members, name);
  }

  lemma {:induction false} NumberClaimExact(members: seq<(Json.JsString, Json.Value)>, name: Json.JsString)
    ensures forall n :: NumberClaim(members, name) == Some(n) <==> Json.LastMember(members, name, Json.Number(n))
  {
    Json.LookupExact(members, name);
  }

  lemma {:induction false} RoleExact(members: seq<(Json.JsString, Json.Value)>, roles: set<Json.JsString>,
                                     user: Json.JsString, role: Json.JsString)
    ensures RoleOf(StringClaim(members, ROLE), roles, user) == role <==> RoleIs(members, roles, user, role)
  {
    StringClaimExact(members, ROLE);
    var claim := StringClaim(members, ROLE);
    assert claim.Some? ==> Json.LastMember(members, ROLE, Json.String(claim.value));
  }

  lemma {:induction false} VersionExact(members: seq<(Json.JsString, Json.Value)>, sv: Json.JsString)
    ensures (var n := NumberClaim(members, SV); if n.Some? then n.value else ZERO) == sv <==> VersionIs(members, sv)
  {
    NumberClaimExact(members, SV);
    var claim := NumberClaim(members, SV);
    assert claim.Some? ==> Json.LastMember(members, SV, Json.Number(claim.value));
  }

  lemma {:induction false} ExpiryExact(members: seq<(Json.JsString, Json.Value)>, exp: Option<Json.JsString>)
    ensures NumberClaim(members, EXP) == exp <==> ExpiryIs(members, exp)
  {
    NumberClaimExact(members, EXP);
    var claim := NumberClaim(members, EXP);
    assert claim.Some? ==> Json.LastMember(members, EXP, Json.Number(claim.value));
  }

  lemma {:induction false} ClaimsExact(payload: Json.Value, roles: set<Json.JsString>, user: Json.JsString,
                                       d: DecodedAccessToken)
    ensures ClaimsOf(payload, roles, user) == Some(d) <==> Claims(payload, roles, user, d)
  {
    if payload.Object? {
      StringClaimExact(payload.members, SUB);
      RoleExact(payload.members, roles, user, d.role);
      VersionExact(payload.members, d.sv);
      ExpiryExact(payload.members, d.exp);
    }
  }

  /** A token carries claims if it is three parts joined by dots, whose non-empty middle is a segment of a payload with
      them. */
  ghost predicate Carries(token: string, roles: set<Json.JsString>, user: Json.JsString, d: DecodedAccessToken) {
    exists header, segment, signature, payload ::
      && token == header + "." + segment + "." + signature && segment != ""
      && '.' !in header && '.' !in segment && '.' !in signature
      && DecodeSegment(segment) == Some(payload) && Claims(payload, roles, user, d)
  }

  /** Every token decodes to the claims it carries, and to none if it carries none. */
  lemma {:induction false} DecodeCarries(token: string, roles: set<Json.JsString>, user: Json.JsString,
                                         d: DecodedAccessToken)
    requires DecodeAccessToken(Some(token), roles, user) == Some(d)
    ensures Carries(token, roles, user, d)
  {
    var parts := JsText.Split(token, '.');
    JsText.JoinSplit(token, '.');
    ThreeParts(parts);
    ClaimsExact(DecodeSegment(parts[1]).value, roles, user, d);
  }

  lemma {:induction false} CarriedDecodes(token: string, roles: set<Json.JsString>, user: Json.JsString,
                                          d: DecodedAccessToken)
    requires Carries(token, roles, user, d)
    ensures DecodeAccessToken(Some(token), roles, user) == Some(d)
  {
    var header, segment, signature, payload :|
      && token == header + "." + segment + "." + signature && segment != ""
      && '.' !in header && '.' !in segment && '.' !in signature
      && DecodeSegment(segment) == Some(payload) && Claims(payload, roles, user, d);
    SplitThree(header, segment, signature);
    ClaimsExact(payload, roles, user, d);
  }

  /** Every token decodes to the claims it carries, and to none if it carries none. */
  lemma {:induction false} DecodeExact(token: string, roles: set<Json.JsString>, user: Json.JsString,
                                       d: DecodedAccessToken)
    ensures DecodeAccessToken(None, roles, user) == None && DecodeAccessToken(Some(""), roles, user) == None
    ensures DecodeAccessToken(Some(token), roles, user) == Some(d) <==> Carries(token, roles, user, d)
  {
    if DecodeAccessToken(Some(token), roles, user) == Some(d) {
      DecodeCarries(token, roles, user, d);
    }
    if Carries(token, roles, user, d) {
      CarriedDecodes(token, roles, user, d);
    }
  }

  lemma ThreeParts(parts: seq<string>)
    requires |parts| == 3
    ensures JsText.Join(parts, '.') == parts[0] + "." + parts[1] + "." + parts[2]
  {
    assert parts[1..][1..] == [parts[2]];
    assert JsText.Join(parts[1..], '.') == parts[1] + "." + parts[2];
  }

  lemma SplitThree(header: string, segment: string, signature: string)
    requires '.' !in header && '.' !in segment && '.' !in signature
    ensures JsText.Split(header + "." + segment + "." + signature, '.') == [header, segment, signature]
  {
    var rest := segment + ['.'] + signature;
    assert header + "." + segment + "." + signature == header + ['.'] + rest;
    JsText.SplitAtSeparator(header, rest, '.');
    JsText.SplitAtSeparator(segment, signature, '.');
    JsText.SplitWithoutSeparator(signature, '.');
  }

  lemma {:induction false} EncodedSegmentShape(text: string)
    ensures '.' !in Base64.EncodeUrl(Encode(text))
    ensures text != "" ==> Base64.EncodeUrl(Encode(text)) != ""
  {
    Base64.DigitsSafe(Base64.Sextets(Encode(text)));
    if text != "" {
      assert |Encode(text)| >= |EncodeChar(text[0])|;
      assert Base64.Sextets(Encode(text)) != [];
    }
  }

  /** Whatever header and signature surround it, a token's payload text is read back and its claims are those of the
      text. */
  lemma {:induction false} DecodeSignedToken(header: string, text: string, signature: string, roles: set<Json.JsString>,
                                             user: Json.JsString)
    requires '.' !in header && '.' !in signature && text != ""
    ensures var token := header + "." + Base64.EncodeUrl(Encode(text)) + "." + signature;
            DecodeAccessToken(Some(token), roles, user) ==
            match Json.Parse(Utf16.FromText(text))
            case None => None
            case Some(payload) => ClaimsOf(payload, roles, user)
  {
    var segment := Base64.EncodeUrl(Encode(text));
    EncodedSegmentShape(text);
    SegmentTextExact(Encode(text), text);
    SplitThree(header, segment, signature);
  }

  // ------------------------------------------------------------ printed claims

  function Name(s: Json.JsString): seq<G.Char> {
    seq(|s|, i requires 0 <= i < |s| => G.Plain(s[i]))
  }

  /** A member as an issuer prints it, without blanks. */
  function Member(name: Json.JsString, value: G.Tree): G.Entry {
    G.Entry([], Name(name), [], [], value, [])
  }

  /** The derivation of a payload as an issuer prints it: `{"sub":…,"role":…,"sv":…,"exp":…}`. */
  function ClaimsTree(sub: seq<G.Char>, role: seq<G.Char>, sv: G.Num, exp: G.Num): G.Tree {
    G.Record([], [Member(SUB, G.Quoted(sub)), Member(ROLE, G.Quoted(role)),
                  Member(SV, G.Numeral(sv)), Member(EXP, G.Numeral(exp))])
  }

  function ClaimsMembers(d: DecodedAccessToken): seq<(Json.JsString, Json.Value)>
    requires d.exp.Some?
  {
    [(SUB, Json.String(d.sub)), (ROLE, Json.String(d.role)), (SV, Json.Number(d.sv)), (EXP, Json.Number(d.exp.value))]
  }

  ghost predicate Fits(e: G.Entry, m: (Json.JsString, Json.Value)) {
    && G.Blank(e.before) && G.Spells(e.key, m.0) && G.Blank(e.afterKey)
    && G.Blank(e.beforeValue) && G.Derives(e.tree, m.1) && G.Blank(e.after)
  }

  lemma {:induction false} MemberFits(name: Json.JsString, tree: G.Tree, value: Json.Value)
    requires forall i :: 0 <= i < |name| ==> name[i] >= 0x20 && name[i] != 0x22 && name[i] != 0x5C
    requires G.Derives(tree, value)
    ensures Fits(Member(name, tree), (name, value))
  {
  }

  lemma EntriesFrom(es: seq<G.Entry>, ms: seq<(Json.JsString, Json.Value)>, i: nat)
    requires i < |es| == |ms| && G.EntriesDerive(es[i + 1..], ms[i + 1..]) && Fits(es[i], ms[i])
    ensures G.EntriesDerive(es[i..], ms[i..])
  {
    assert es[i..][1..] == es[i + 1..] && ms[i..][1..] == ms[i + 1..];
  }

  lemma {:induction false} FourEntries(es: seq<G.Entry>, ms: seq<(Json.JsString, Json.Value)>)
    requires |es| == |ms| == 4 && forall i :: 0 <= i < 4 ==> Fits(es[i], ms[i])
    ensures G.EntriesDerive(es, ms)
  {
    assert G.EntriesDerive(es[4..], ms[4..]);
    EntriesFrom(es, ms, 3);
    EntriesFrom(es, ms, 2);
    EntriesFrom(es, ms, 1);
    EntriesFrom(es, ms, 0);
    assert es[0..] == es && ms[0..] == ms;
  }

  lemma {:induction false} ClaimsDerive(sub: seq<G.Char>, role: seq<G.Char>, sv: G.Num, exp: G.Num,
                                        d: DecodedAccessToken)
    requires G.Spells(sub, d.sub) && G.Spells(role, d.role) && G.NumOk(sv) && G.NumOk(exp)
    requires d.sv == G.NumText(sv) && d.exp == Some(G.NumText(exp))
    ensures G.Derives(ClaimsTree(sub, role, sv, exp), Json.Object(ClaimsMembers(d)))
  {
    MemberFits(SUB, G.Quoted(sub), Json.String(d.sub));
    MemberFits(ROLE, G.Quoted(role), Json.String(d.role));
    MemberFits(SV, G.Numeral(sv), Json.Number(d.sv));
    MemberFits(EXP, G.Numeral(exp), Json.Number(d.exp.value));
    FourEntries(ClaimsTree(sub, role, sv, exp).entries, ClaimsMembers(d));
  }

  lemma {:induction false} ClaimsHold(d: DecodedAccessToken, roles: set<Json.JsString>, user: Json.JsString)
    requires d.exp.Some? && d.role in roles
    ensures Claims(Json.Object(ClaimsMembers(d)), roles, user, d)
  {
    var ms := ClaimsMembers(d);
    assert ms[0] == ([0x73, 0x75, 0x62], Json.String(d.sub));
    assert ms[1] == ([0x72, 0x6F, 0x6C, 0x65], Json.String(d.role));
    assert ms[2] == ([0x73, 0x76], Json.Number(d.sv));
    assert ms[3] == ([0x65, 0x78, 0x70], Json.Number(d.exp.value));
    assert Json.LastMember(ms, [0x73, 0x75, 0x62], Json.String(d.sub));
    assert Json.LastMember(ms, [0x72, 0x6F, 0x6C, 0x65], Json.String(d.role));
    assert Json.LastMember(ms, [0x73, 0x76], Json.Number(d.sv));
    assert Json.LastMember(ms, [0x65, 0x78, 0x70], Json.Number(d.exp.value));
  }

  /** An access token is read back: the claims an issuer prints, in any spelling of the strings and with any numbers,
      are the claims its token decodes to. */
  lemma {:induction false} IssuedToken(sub: seq<G.Char>, role: seq<G.Char>, sv: G.Num, exp: G.Num,
                                       d: DecodedAccessToken, text: string, header: string, signature: string,
                                       roles: set<Json.JsString>, user: Json.JsString)
    requires G.Spells(sub, d.sub) && G.Spells(role, d.role) && G.NumOk(sv) && G.NumOk(exp)
    requires d.sv == G.NumText(sv) && d.exp == Some(G.NumText(exp)) && d.role in roles
    requires Utf16.FromText(text) == G.Text(ClaimsTree(sub, role, sv, exp))
    requires '.' !in header && '.' !in signature
    ensures var token := header + "." + Base64.EncodeUrl(Encode(text)) + "." + signature;
            DecodeAccessToken(Some(token), roles, user) == Some(d)
  {
    var tree, value := ClaimsTree(sub, role, sv, exp), Json.Object(ClaimsMembers(d));
    ClaimsDerive(sub, role, sv, exp, d);
    assert G.Text(tree)[0] == 0x7B;
    var json := G.Text(tree);
    assert json == [] + (json + []);
    assert G.Denotes(json, value);
    G.ParseExact(json, value);
    assert text != "";
    DecodeSignedToken(header, text, signature, roles, user);
    ClaimsHold(d, roles, user);
    ClaimsExact(value, roles, user, d);
  }
}
