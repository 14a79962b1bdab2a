/** Parsing of the `id:base64,id2:base64` list of field-encryption keys. */
module KeyList {
  import opened Wrappers
  import opened JsText

  datatype KeyMaterial = KeyMaterial(id: string, keyBase64: string)

  /** One list entry; None when it is dropped. */
  function ParseEntry(piece: string): Option<KeyMaterial> {
    var pair := Trim(piece);
    var idx := IndexOf(pair, ':');
    if pair == "" || idx <= 0 then None
    else if pair[idx + 1..] == "" then None
    else Some(KeyMaterial(pair[..idx], pair[idx + 1..]))
  }

  function ParseEntries(pieces: seq<string>): seq<KeyMaterial> {
    if pieces == [] then []
    else
      var rest := ParseEntries(pieces[1..]);
      match ParseEntry(pieces[0])
      case Some(k) => [k] + rest
      case None => rest
  }

  function ParseEncryptionKeys(raw: string): seq<KeyMaterial> {
    if Trim(raw) == "" then [] else ParseEntries(Split(raw, ','))
  }

  /** `configured` is the ENCRYPTION_ACTIVE_KEY_ID variable, None when unset. */
  function ActiveKeyId(configured: Option<string>, keys: seq<KeyMaterial>): string {
    if configured.Some? && configured.value != "" then configured.value
    else if keys == [] then "" else keys[|keys| - 1].id
  }

  // ----------------------------------------------------------- round trips

  function Print(k: KeyMaterial): string {
    k.id + ":" + k.keyBase64
  }

  /** The keys that survive printing and parsing. */
  predicate Listable(k: KeyMaterial) {
    && k.id != "" && ':' !in k.id && ',' !in k.id && !IsSpace(k.id[0])
    && k.keyBase64 != "" && ',' !in k.keyBase64 && !IsSpace(k.keyBase64[|k.keyBase64| - 1])
  }

  lemma {:induction false} IndexOfFirst(a: string, b: string, c: char)
    requires c !in a
    ensures IndexOf(a + [c] + b, c) == |a|
  {
    var s := a + [c] + b;
    assert s[|a|] == c;
    assert forall i :: 0 <= i < |a| ==> s[i] == a[i];
  }

  /** A padded printed key parses to itself. */
  lemma {:induction false} ParsePrinted(left: string, k: KeyMaterial, right: string)
    requires Listable(k) && AllSpace(left) && AllSpace(right)
    ensures ParseEntry(left + Print(k) + right) == Some(k)
  {
    TrimPad(left, Print(k), right);
    assert Print(k) == k.id + [':'] + k.keyBase64;
    IndexOfFirst(k.id, k.keyBase64, ':');
    assert Print(k)[..|k.id|] == k.id;
    assert Print(k)[|k.id| + 1..] == k.keyBase64;
  }

  /** An entry that parses to exactly the key it was printed from is listable. */
  lemma {:induction false} ParsePrintedOnly(k: KeyMaterial)
    requires ParseEntry(Print(k)) == Some(k) && ',' !in Print(k)
    ensures Listable(k)
  {
    var left, right := TrimShape(Print(k));
    var pair := Trim(Print(k));
    assert |pair| == |k.id| + 1 + |k.keyBase64| == |Print(k)|;
    assert left == "" && right == "";
    assert Print(k) == pair;
    assert forall i :: 0 <= i < |k.id| ==> k.id[i] == Print(k)[i];
    assert forall i :: 0 <= i < |k.keyBase64| ==> k.keyBase64[i] == Print(k)[|k.id| + 1 + i];
  }

  /** One entry of a list as an operator may write it. */
  datatype Item = Key(left: string, key: KeyMaterial, right: string) | Junk(text: string)

  function ItemText(item: Item): string {
    match item
    case Key(left, key, right) => left + Print(key) + right
    case Junk(text) => text
  }

  predicate Acceptable(item: Item) {
    match item
    case Key(left, key, right) =>
      (forall i :: 0 <= i < |left| ==> IsSpace(left[i])) && (forall i :: 0 <= i < |right| ==> IsSpace(right[i]))
        && Listable(key)
    case Junk(text) =>
      // blank, without a colon, with nothing before its first colon, or with nothing after it
      ',' !in text && (var t := Trim(text); ':' !in t || t[0] == ':' || (t[|t| - 1] == ':' && ':' !in t[..|t| - 1]))
  }

  function KeysOf(items: seq<Item>): seq<KeyMaterial> {
    if items == [] then []
    else (if items[0].Key? then [items[0].key] else []) + KeysOf(items[1..])
  }

  function Texts(items: seq<Item>): (texts: seq<string>)
    ensures |texts| == |items| && forall i :: 0 <= i < |items| ==> texts[i] == ItemText(items[i])
  {
    if items == [] then [] else [ItemText(items[0])] + Texts(items[1..])
  }

  lemma {:induction false} JunkDropped(text: string)
    requires Acceptable(Junk(text))
    ensures ParseEntry(text).None?
  {
    var t := Trim(text);
    var idx := IndexOf(t, ':');
    if idx > 0 {
      assert t[0] != ':';
      assert forall i :: 0 <= i < |t| - 1 ==> t[..|t| - 1][i] == t[i];
    }
  }

  lemma {:induction false} AcceptableNoComma(item: Item)
    requires Acceptable(item)
    ensures ',' !in ItemText(item)
  {
  }

  lemma {:induction false} ParseTexts(items: seq<Item>)
    requires forall i :: 0 <= i < |items| ==> Acceptable(items[i])
    ensures ParseEntries(Texts(items)) == KeysOf(items)
  {
    if items != [] {
      ParseTexts(items[1..]);
      match items[0] {
        case Key(left, key, right) => ParsePrinted(left, key, right);
        case Junk(text) => JunkDropped(text);
      }
      assert Texts(items)[1..] == Texts(items[1..]);
    }
  }

  /** The early return for a blank list is the general answer. */
  lemma {:induction false} ParseAsEntries(raw: string)
    ensures ParseEncryptionKeys(raw) == ParseEntries(Split(raw, ','))
  {
    if Trim(raw) == "" {
      var left, right := TrimShape(raw);
      assert AllSpace(raw);
      assert ',' !in raw;
      SplitWithoutSeparator(raw, ',');
      assert ParseEntries([raw]) == ParseEntries([raw][1..]);
    }
  }

  /** Parsing inverts printing: blanks around entries and dropped entries between them change nothing,
      and without a configured id the last listed key is the active one. */
  lemma {:induction false} ParseList(items: seq<Item>)
    requires forall i :: 0 <= i < |items| ==> Acceptable(items[i])
    ensures ParseEncryptionKeys(Join(Texts(items), ',')) == KeysOf(items)
    ensures KeysOf(items) != [] ==>
              ActiveKeyId(None, ParseEncryptionKeys(Join(Texts(items), ','))) == KeysOf(items)[|KeysOf(items)| - 1].id
  {
    ParseAsEntries(Join(Texts(items), ','));
    if items == [] {
      assert Split("", ',') == [""];
      assert ParseEntries([""]) == ParseEntries([""][1..]);
    } else {
      forall i | 0 <= i < |items|
        ensures ',' !in Texts(items)[i]
      {
        AcceptableNoComma(items[i]);
      }
      SplitJoin(Texts(items), ',');
      ParseTexts(items);
    }
  }

  // ------------------------------------------------- exactly the listable keys

  function Printed(keys: seq<KeyMaterial>): (texts: seq<string>)
    ensures |texts| == |keys| && forall i :: 0 <= i < |keys| ==> texts[i] == Print(keys[i])
  {
    if keys == [] then [] else [Print(keys[0])] + Printed(keys[1..])
  }

  lemma {:induction false} EntryNoComma(piece: string)
    requires ',' !in piece && ParseEntry(piece).Some?
    ensures ',' !in Print(ParseEntry(piece).value)
  {
    var left, right := TrimShape(piece);
    var pair := Trim(piece);
    var idx := IndexOf(pair, ':');
    assert Print(ParseEntry(piece).value) == pair;
    assert forall i :: 0 <= i < |pair| ==> pair[i] == piece[|left| + i];
  }

  lemma {:induction false} EntriesNoComma(pieces: seq<string>)
    requires forall i :: 0 <= i < |pieces| ==> ',' !in pieces[i]
    ensures forall i :: 0 <= i < |ParseEntries(pieces)| ==> ',' !in Print(ParseEntries(pieces)[i])
    ensures |ParseEntries(pieces)| <= |pieces|
  {
    if pieces != [] {
      EntriesNoComma(pieces[1..]);
      if ParseEntry(pieces[0]).Some? {
        EntryNoComma(pieces[0]);
      }
    }
  }

  lemma {:induction false} AllEntriesKept(keys: seq<KeyMaterial>)
    requires forall i :: 0 <= i < |keys| ==> ',' !in Print(keys[i])
    requires ParseEntries(Printed(keys)) == keys
    ensures forall i :: 0 <= i < |keys| ==> Listable(keys[i])
  {
    if keys != [] {
      var texts := Printed(keys);
      assert texts[1..] == Printed(keys[1..]);
      EntriesNoComma(texts[1..]);
      assert ParseEntry(texts[0]).Some?;
      assert keys == [ParseEntry(texts[0]).value] + ParseEntries(texts[1..]);
      ParsePrintedOnly(keys[0]);
      AllEntriesKept(keys[1..]);
    }
  }

  lemma {:induction false} ParsePrintedList(keys: seq<KeyMaterial>)
    requires forall i :: 0 <= i < |keys| ==> Listable(keys[i])
    ensures ParseEntries(Printed(keys)) == keys
  {
    if keys != [] {
      ParsePrintedList(keys[1..]);
      ParsePrinted("", keys[0], "");
      assert "" + Print(keys[0]) + "" == Print(keys[0]);
      assert Printed(keys)[1..] == Printed(keys[1..]);
    }
  }

  /** A list of keys survives printing and parsing exactly when each of its keys is listable. */
  lemma {:induction false} RoundTripExact(keys: seq<KeyMaterial>)
    ensures ParseEncryptionKeys(Join(Printed(keys), ',')) == keys <==> forall i :: 0 <= i < |keys| ==> Listable(keys[i])
  {
    var raw := Join(Printed(keys), ',');
    ParseAsEntries(raw);
    if keys == [] {
      assert Split("", ',') == [""];
      assert ParseEntries([""]) == ParseEntries([""][1..]);
    } else {
      if ParseEncryptionKeys(raw) == keys {
        EntriesNoComma(Split(raw, ','));
        SplitJoin(Printed(keys), ',');
        AllEntriesKept(keys);
      }
      if forall i :: 0 <= i < |keys| ==> Listable(keys[i]) {
        SplitJoin(Printed(keys), ',');
        ParsePrintedList(keys);
      }
    }
  }

  /** A configured id is active whatever the list; without one, or with an empty one, the last listed key is, and none
      of an empty list. */
  lemma {:induction false} ActiveExact(configured: Option<string>, keys: seq<KeyMaterial>)
    ensures configured.Some? && configured.value != "" ==> ActiveKeyId(configured, keys) == configured.value
    ensures configured == None || configured == Some("") ==>
              (keys == [] ==> ActiveKeyId(configured, keys) == "")
              && forall rest, last :: keys == rest + [last] ==> ActiveKeyId(configured, keys) == last.id
  {
  }
}
