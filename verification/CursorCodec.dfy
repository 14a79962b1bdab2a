/** The opaque keyset cursor: base64url of UTF-8 of `JSON.stringify({ k, id })`. */
module CursorCodec {
  import opened Wrappers
  import Base64
  import Json
  import JsonGrammar
  import Utf16
  import Utf8

  type JsString = Json.JsString

  datatype CursorPayload = CursorPayload(k: JsString, id: JsString)

  const KEY_K: JsString := [0x6B]
  const KEY_ID: JsString := [0x69, 0x64]

  /** `JSON.stringify` prints the two properties in the order the caller's object holds them. */
  function Members(p: CursorPayload, idFirst: bool): seq<(JsString, JsString)> {
    if idFirst then [(KEY_ID, p.id), (KEY_K, p.k)] else [(KEY_K, p.k), (KEY_ID, p.id)]
  }

  function EncodeCursor(p: CursorPayload, idFirst: bool): string {
    Base64.EncodeUrl(Utf8.Encode(Utf16.ToText(Json.PrintObject(Members(p, idFirst)))))
  }

  /** None stands for the `null` of a missing or malformed cursor; the argument is None when the client sent none. */
  function DecodeCursor(raw: Option<string>): Option<CursorPayload> {
    if raw.None? || raw.value == "" then None
    else
      var text := Utf8.DecodeAll(Base64.DecodeLenient(raw.value));
      match Json.Parse(Utf16.FromText(text))
      case Some(Object(members)) =>
        (match (Json.Lookup(members, KEY_K), Json.Lookup(members, KEY_ID))
         case (Some(String(k)), Some(String(id))) => Some(CursorPayload(k, id))
         case _ => None)
      case _ => None
  }

  /** The text a cursor stands for, as JavaScript sees it. */
  function CursorText(raw: string): JsString {
    Utf16.FromText(Utf8.DecodeAll(Base64.DecodeLenient(raw)))
  }

  /** A text holds a position if it is a JSON text of an object whose last `k` and last `id` are its two strings. */
  ghost predicate Holds(text: JsString, p: CursorPayload) {
    exists members ::
      && JsonGrammar.Denotes(text, Json.Object(members))
      && Json.LastMember(members, [0x6B], Json.String(p.k))
      && Json.LastMember(members, [0x69, 0x64], Json.String(p.id))
  }

  /** No cursor is no position; any other cursor is the position its text holds, and none if it holds none. */
  lemma {:induction false} DecodeExact(raw: string)
    ensures DecodeCursor(None) == None && DecodeCursor(Some("")) == None
    ensures raw != "" ==> forall p :: DecodeCursor(Some(raw)) == Some(p) <==> Holds(CursorText(raw), p)
    ensures raw != "" ==> (DecodeCursor(Some(raw)) == None <==> !exists p :: Holds(CursorText(raw), p))
  {
    if raw != "" {
      forall p
        ensures DecodeCursor(Some(raw)) == Some(p) <==> Holds(CursorText(raw), p)
      {
        forall members
          ensures Json.Parse(CursorText(raw)) == Some(Json.Object(members)) <==>
                  JsonGrammar.Denotes(CursorText(raw), Json.Object(members))
        {
          JsonGrammar.ParseExact(CursorText(raw), Json.Object(members));
        }
        match Json.Parse(CursorText(raw))
        case Some(Object(members)) =>
          Json.LookupExact(members, [0x6B]);
          Json.LookupExact(members, [0x69, 0x64]);
        case _ =>
      }
    }
  }

  lemma {:induction false} TextPipeline(json: JsString)
    requires Utf16.WellFormed(json)
    ensures Utf16.FromText(Utf8.DecodeAll(Base64.DecodeLenient(Base64.EncodeUrl(Utf8.Encode(Utf16.ToText(json)))))) ==
              json
  {
    var text := Utf16.ToText(json);
    Base64.DecodeLenientEncodeUrl(Utf8.Encode(text));
    Utf8.DecodeEncode(text);
    assert text + Utf8.Flush(Utf8.Start) == text;
    Utf16.FromTextToText(json);
  }

  lemma {:induction false} LookupMembers(p: CursorPayload, idFirst: bool)
    ensures var ms := Json.StringMembers(Members(p, idFirst));
            Json.Lookup(ms, KEY_K) == Some(Json.String(p.k)) && Json.Lookup(ms, KEY_ID) == Some(Json.String(p.id))
  {
    var ms := Json.StringMembers(Members(p, idFirst));
    assert |ms| == 2;
    assert Json.Lookup(ms[..1], ms[0].0) == Some(ms[0].1);
    assert KEY_K != KEY_ID;
  }

  lemma {:induction false} EncodedNotEmpty(p: CursorPayload, idFirst: bool)
    ensures EncodeCursor(p, idFirst) != ""
  {
    var json := Json.PrintObject(Members(p, idFirst));
    assert json[0] == Json.OPEN_BRACE;
    var text := Utf16.ToText(json);
    assert text != "";
    var bytes := Utf8.Encode(text);
    assert |bytes| >= |Utf8.EncodeChar(text[0])|;
    assert Base64.Sextets(bytes) != [];
  }

  /** Every cursor decodes to the position it was made from: any strings at all, lone surrogates
      and control characters included, through JSON escaping, UTF-8 and unpadded base64url. */
  lemma {:induction false} DecodeEncode(p: CursorPayload, idFirst: bool)
    ensures DecodeCursor(Some(EncodeCursor(p, idFirst))) == Some(p)
  {
    EncodedNotEmpty(p, idFirst);
    Json.PrintObjectWellFormed(Members(p, idFirst));
    TextPipeline(Json.PrintObject(Members(p, idFirst)));
    Json.ParsePrintedObject(Members(p, idFirst));
    LookupMembers(p, idFirst);
  }

  /** Different positions never share a cursor. */
  lemma {:induction false} EncodeInjective(p: CursorPayload, q: CursorPayload, pIdFirst: bool, qIdFirst: bool)
    requires EncodeCursor(p, pIdFirst) == EncodeCursor(q, qIdFirst)
    ensures p == q
  {
    DecodeEncode(p, pIdFirst);
    DecodeEncode(q, qIdFirst);
  }

  /** A cursor can go into a URL as it is. */
  lemma {:induction false} EncodeUrlSafe(p: CursorPayload, idFirst: bool)
    ensures forall i :: 0 <= i < |EncodeCursor(p, idFirst)| ==> Base64.UrlSafe(EncodeCursor(p, idFirst)[i])
  {
    Base64.DigitsSafe(Base64.Sextets(Utf8.Encode(Utf16.ToText(Json.PrintObject(Members(p, idFirst))))));
  }
}
