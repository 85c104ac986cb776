/**
  The decision logic of `WebServerLauncher`: the code-to-item index built from the menu
  (`buildMenuIndex`), the content type chosen from a file name (`detectMimeType`) and what
  `POST /api/orders` (`handleCreate`) answers for a request body and which order it records.
  The HTTP exchange itself, the body bytes and the JSON written back are not modelled.
*/
module WebServer {
  import opened JavaLang
  import opened ModelTypes
  import opened JsonValue
  import opened JsonGrammar
  import opened JsonWriter
  import JsonParser
  import opened OrderLines
  import opened Orders
  import opened OrderManagement
  import opened MenuData

  // ---------------------------------------------------------------------------
  // buildMenuIndex

  /** The `HashMap` that `put(item.getCode(), item)` for each item in turn builds: a later item wins its code. */
  function MenuIndex(items: seq<MenuItem>): map<Text, MenuItem>
  {
    if items == [] then map[]
    else
      var last := items[|items| - 1];
      MenuIndex(items[..|items| - 1])[last.code := last]
  }

  /** Putting one more item of a category. */
  lemma IndexStep(before: seq<MenuItem>, list: seq<MenuItem>, j: nat)
    requires j < |list|
    ensures MenuIndex(before + list[..j + 1]) == MenuIndex(before + list[..j])[list[j].code := list[j]]
  {
    assert (before + list[..j + 1])[..|before| + j] == before + list[..j];
  }

  /** `buildMenuIndex(menu)`: every item of every category, in map order, put under its code. */
  method BuildMenuIndex(menu: Menu) returns (index: map<Text, MenuItem>)
    ensures index == MenuIndex(Flatten(menu))
  {
    index := map[];
    for i := 0 to |menu|
      invariant index == MenuIndex(Flatten(menu[..i]))
    {
      var list := menu[i].1;
      assert Flatten(menu[..i]) + list[..0] == Flatten(menu[..i]);
      for j := 0 to |list|
        invariant index == MenuIndex(Flatten(menu[..i]) + list[..j])
      {
        IndexStep(Flatten(menu[..i]), list, j);
        index := index[list[j].code := list[j]];
      }
      assert list[..|list|] == list;
      assert menu[..i + 1][..i] == menu[..i];
    }
    assert menu[..|menu|] == menu;
  }

  /** The index has exactly the codes of the items, and under each code an item with that code. */
  lemma {:induction false} IndexEntries(items: seq<MenuItem>)
    ensures MenuIndex(items).Keys == set x | x in items :: x.code
    ensures forall c | c in MenuIndex(items) :: MenuIndex(items)[c] in items && MenuIndex(items)[c].code == c
    decreases |items|
  {
    if items != [] {
      var init := items[..|items| - 1];
      IndexEntries(init);
      assert items == init + [items[|items| - 1]];
    }
  }

  /** The last item of a list with unique codes has a code the earlier items do not put. */
  lemma LastCodeFresh(items: seq<MenuItem>)
    requires UniqueCodes(items) && items != []
    ensures UniqueCodes(items[..|items| - 1])
    ensures items[|items| - 1].code !in MenuIndex(items[..|items| - 1])
  {
    var init, last := items[..|items| - 1], items[|items| - 1];
    IndexEntries(init);
  }

  /** With unique codes every item is found under its own code, and the index has one entry per item. */
  lemma {:induction false} IndexOfUnique(items: seq<MenuItem>)
    requires UniqueCodes(items)
    ensures forall x | x in items :: x.code in MenuIndex(items) && MenuIndex(items)[x.code] == x
    ensures |MenuIndex(items)| == |items|
    decreases |items|
  {
    if items != [] {
      var init, last := items[..|items| - 1], items[|items| - 1];
      LastCodeFresh(items);
      IndexOfUnique(init);
      var index := MenuIndex(init);
      assert MenuIndex(items) == index[last.code := last];
      forall x | x in items
        ensures x.code in MenuIndex(items) && MenuIndex(items)[x.code] == x
      {
        if x != last {
          var i :| 0 <= i < |items| && items[i] == x;
          assert x in init;
        }
      }
    }
  }

  /** The index of the fixed menu: 16 codes, each mapped to its item. */
  lemma MenuIndexOfMenu()
    ensures |MenuIndex(Flatten(LoadMenu()))| == 16
    ensures forall x | x in Flatten(LoadMenu()) ::
      x.code in MenuIndex(Flatten(LoadMenu())) && MenuIndex(Flatten(LoadMenu()))[x.code] == x
  {
    MenuCodesDistinct();
    IndexOfUnique(Flatten(LoadMenu()));
  }

  // ---------------------------------------------------------------------------
  // detectMimeType

  const HTML_SUFFIX: Text := Lit(".html")
  const CSS_SUFFIX: Text := Lit(".css")
  const JS_SUFFIX: Text := Lit(".js")
  const JSON_SUFFIX: Text := Lit(".json")
  const PNG_SUFFIX: Text := Lit(".png")
  const JPG_SUFFIX: Text := Lit(".jpg")
  const JPEG_SUFFIX: Text := Lit(".jpeg")

  const HTML_TYPE: Text := Lit("text/html; charset=UTF-8")
  const CSS_TYPE: Text := Lit("text/css; charset=UTF-8")
  const JS_TYPE: Text := Lit("application/javascript; charset=UTF-8")
  const JSON_TYPE: Text := Lit("application/json; charset=UTF-8")
  const PNG_TYPE: Text := Lit("image/png")
  const JPEG_TYPE: Text := Lit("image/jpeg")
  const OCTET_TYPE: Text := Lit("application/octet-stream")

  /** `detectMimeType(path)` on the file name: the first listed suffix of the lower-cased name decides. */
  function MimeType(fileName: Text): Text
  {
    MimeTypeOf(Lower(fileName))
  }

  /** The suffix chain of `detectMimeType` on an already lower-cased name. */
  function MimeTypeOf(file: Text): Text
  {
    if EndsWith(file, HTML_SUFFIX) then HTML_TYPE
    else if EndsWith(file, CSS_SUFFIX) then CSS_TYPE
    else if EndsWith(file, JS_SUFFIX) then JS_TYPE
    else if EndsWith(file, JSON_SUFFIX) then JSON_TYPE
    else if EndsWith(file, PNG_SUFFIX) then PNG_TYPE
    else if EndsWith(file, JPG_SUFFIX) || EndsWith(file, JPEG_SUFFIX) then JPEG_TYPE
    else OCTET_TYPE
  }

  /** The unit `k` places from the end of a text with the suffix is the suffix's. */
  lemma SuffixUnit(file: Text, suffix: Text, k: nat)
    requires EndsWith(file, suffix) && 1 <= k <= |suffix|
    ensures file[|file| - k] == suffix[|suffix| - k]
  {
    assert file[|file| - |suffix|..][|suffix| - k] == file[|file| - k];
  }

  /** The listed suffixes exclude each other, except that `.jpg` and `.jpeg` share a type. */
  lemma SuffixesExclusive(file: Text)
    ensures EndsWith(file, HTML_SUFFIX) ==> (
      && !EndsWith(file, CSS_SUFFIX) && !EndsWith(file, JS_SUFFIX) && !EndsWith(file, JSON_SUFFIX)
      && !EndsWith(file, PNG_SUFFIX) && !EndsWith(file, JPG_SUFFIX) && !EndsWith(file, JPEG_SUFFIX))
    ensures EndsWith(file, CSS_SUFFIX) ==> (
      && !EndsWith(file, JS_SUFFIX) && !EndsWith(file, JSON_SUFFIX)
      && !EndsWith(file, PNG_SUFFIX) && !EndsWith(file, JPG_SUFFIX) && !EndsWith(file, JPEG_SUFFIX))
    ensures EndsWith(file, JS_SUFFIX) ==> (
      && !EndsWith(file, JSON_SUFFIX)
      && !EndsWith(file, PNG_SUFFIX) && !EndsWith(file, JPG_SUFFIX) && !EndsWith(file, JPEG_SUFFIX))
    ensures EndsWith(file, JSON_SUFFIX) ==> (
      && !EndsWith(file, PNG_SUFFIX) && !EndsWith(file, JPG_SUFFIX) && !EndsWith(file, JPEG_SUFFIX))
    ensures EndsWith(file, PNG_SUFFIX) ==> !EndsWith(file, JPG_SUFFIX) && !EndsWith(file, JPEG_SUFFIX)
  {
    if EndsWith(file, HTML_SUFFIX) { SuffixUnit(file, HTML_SUFFIX, 1); }
    if EndsWith(file, CSS_SUFFIX) { SuffixUnit(file, CSS_SUFFIX, 1); SuffixUnit(file, CSS_SUFFIX, 2); }
    if EndsWith(file, JS_SUFFIX) { SuffixUnit(file, JS_SUFFIX, 1); SuffixUnit(file, JS_SUFFIX, 2); }
    if EndsWith(file, JSON_SUFFIX) { SuffixUnit(file, JSON_SUFFIX, 1); }
    if EndsWith(file, PNG_SUFFIX) { SuffixUnit(file, PNG_SUFFIX, 2); }
    if EndsWith(file, JPG_SUFFIX) { SuffixUnit(file, JPG_SUFFIX, 2); SuffixUnit(file, JPG_SUFFIX, 3); }
    if EndsWith(file, JPEG_SUFFIX) { SuffixUnit(file, JPEG_SUFFIX, 2); }
  }

  /**
    Each content type is chosen exactly for its suffixes of the lower-cased name, and any
    other name is `application/octet-stream`.
  */
  lemma MimeTypeBySuffix(fileName: Text)
    ensures var file := Lower(fileName);
      && (MimeType(fileName) == HTML_TYPE <==> EndsWith(file, HTML_SUFFIX))
      && (MimeType(fileName) == CSS_TYPE <==> EndsWith(file, CSS_SUFFIX))
      && (MimeType(fileName) == JS_TYPE <==> EndsWith(file, JS_SUFFIX))
      && (MimeType(fileName) == JSON_TYPE <==> EndsWith(file, JSON_SUFFIX))
      && (MimeType(fileName) == PNG_TYPE <==> EndsWith(file, PNG_SUFFIX))
      && (MimeType(fileName) == JPEG_TYPE <==> EndsWith(file, JPG_SUFFIX) || EndsWith(file, JPEG_SUFFIX))
      && (MimeType(fileName) == OCTET_TYPE <==>
        !EndsWith(file, HTML_SUFFIX) && !EndsWith(file, CSS_SUFFIX) && !EndsWith(file, JS_SUFFIX)
        && !EndsWith(file, JSON_SUFFIX) && !EndsWith(file, PNG_SUFFIX)
        && !EndsWith(file, JPG_SUFFIX) && !EndsWith(file, JPEG_SUFFIX))
  {
    SuffixesExclusive(Lower(fileName));
    TypesDistinct();
  }

  /** The seven content types are different texts. */
  lemma TypesDistinct()
    ensures HTML_TYPE != CSS_TYPE && HTML_TYPE != JS_TYPE && HTML_TYPE != JSON_TYPE
    ensures HTML_TYPE != PNG_TYPE && HTML_TYPE != JPEG_TYPE && HTML_TYPE != OCTET_TYPE
    ensures CSS_TYPE != JS_TYPE && CSS_TYPE != JSON_TYPE && CSS_TYPE != PNG_TYPE
    ensures CSS_TYPE != JPEG_TYPE && CSS_TYPE != OCTET_TYPE
    ensures JS_TYPE != JSON_TYPE && JS_TYPE != PNG_TYPE && JS_TYPE != JPEG_TYPE && JS_TYPE != OCTET_TYPE
    ensures JSON_TYPE != PNG_TYPE && JSON_TYPE != JPEG_TYPE && JSON_TYPE != OCTET_TYPE
    ensures PNG_TYPE != JPEG_TYPE && PNG_TYPE != OCTET_TYPE && JPEG_TYPE != OCTET_TYPE
  {
    assert HTML_TYPE[0] != OCTET_TYPE[0];
  }

  /** The case of the name does not matter. */
  lemma MimeTypeIgnoresCase(fileName: Text)
    ensures MimeType(fileName) == MimeType(Lower(fileName))
  {
    LowerIdempotent(fileName);
  }

  // ---------------------------------------------------------------------------
  // handleCreate

  const ITEMS_KEY: Text := Lit("items")
  const TABLE_KEY: Text := Lit("table")
  const NOTES_KEY: Text := Lit("notes")
  const CODE_KEY: Text := Lit("code")
  const QUANTITY_KEY: Text := Lit("quantity")
  const TBD_TEXT: Text := Lit("TBD")
  const INVALID_JSON_PREFIX: Text := Lit("Invalid JSON: ")
  const NO_ITEMS_TEXT: Text := Lit("Order must include at least one item")
  const UNKNOWN_CODE_PREFIX: Text := Lit("Unknown menu item code: ")
  const LIST_SEPARATOR: Text := Lit(", ")
  const EQUALS: Unit := 0x3D

  /**
    `String.valueOf(value)` for what the parser produces: `"null"`, `true`/`false`, the
    decimal integer, the string itself, and the `toString` of `ArrayList` (`[a, b]`) and
    `LinkedHashMap` (`{k=v, k=v}`). `Double.toString` is the parameter `doubleText`.
  */
  function ValueText(v: Value, doubleText: Text -> Text): Text
    decreases v
  {
    match v
    case JNull => NULL_TEXT
    case JBool(b) => if b then TRUE_TEXT else FALSE_TEXT
    case JInt(n) => DecimalText(n)
    case JLong(n) => DecimalText(n)
    case JFrac(t) => doubleText(t)
    case JStr(t) => t
    case JArr(items) => [LBRACKET] + ListText(items, doubleText) + [RBRACKET]
    case JObj(fields) => [LBRACE] + MapText(fields, doubleText) + [RBRACE]
  }

  /** The elements of a list, separated by `", "`. */
  function ListText(items: seq<Value>, doubleText: Text -> Text): Text
    decreases items
  {
    if items == [] then []
    else if |items| == 1 then ValueText(items[0], doubleText)
    else ValueText(items[0], doubleText) + LIST_SEPARATOR + ListText(items[1..], doubleText)
  }

  /** The entries of a map as `key=value`, separated by `", "`. */
  function MapText(fields: seq<(Text, Value)>, doubleText: Text -> Text): Text
    decreases fields
  {
    if fields == [] then []
    else if |fields| == 1 then EntryText(fields[0], doubleText)
    else EntryText(fields[0], doubleText) + LIST_SEPARATOR + MapText(fields[1..], doubleText)
  }

  function EntryText(f: (Text, Value), doubleText: Text -> Text): Text
    decreases f
  {
    f.0 + [EQUALS] + ValueText(f.1, doubleText)
  }

  /**
    `String.valueOf` and `writeValue` agree on null, booleans and integers, and
    `writeValue` writes a string as its `String.valueOf` quoted and escaped.
  */
  lemma ValueTextAgrees(v: Value, doubleText: Text -> Text)
    ensures (v.JNull? || v.JBool? || v.JInt? || v.JLong?) ==> ValueText(v, doubleText) == Serialize(v)
    ensures v.JStr? ==> Serialize(v) == Quoted(ValueText(v, doubleText))
  {
  }

  /** `map.getOrDefault(key, d)`: the stored value when the key is present (even `null`), else `d`. */
  function GetOrDefault(fields: seq<(Text, Value)>, key: Text, d: Value): (r: Value)
    ensures key !in Keys(fields) ==> r == d
    ensures key in Keys(fields) ==> Lookup(fields, key) == Some(r)
  {
    KeyIndexFirst(fields, key);
    match Lookup(fields, key)
    case None => d
    case Some(v) => v
  }

  /**
    `qtyNumber == null ? 1 : Math.max(1, qtyNumber.intValue())`; `None` is the
    `ClassCastException` of a quantity that is not a number. `Long.intValue` keeps the low
    32 bits; `Double.intValue` is the parameter `intValue`.
  */
  function QuantityOf(q: Option<Value>, intValue: Text -> Int32): (r: Option<Int32>)
    ensures r.Some? ==> r.value >= 1
    ensures q.None? || q == Some(JNull) ==> r == Some(1)
    ensures (q.Some? && q.value.JInt?) ==> r == Some(Max(1, q.value.i))
  {
    match q
    case None => Some(1)
    case Some(v) =>
      match v
      case JNull => Some(1)
      case JInt(n) => Some(Max(1, n))
      case JLong(n) => Some(Max(1, Wrap32(n)))
      case JFrac(t) => Some(Max(1, intValue(t)))
      case _ => None
  }

  /** What one element of `items` comes to. */
  datatype ItemRead =
    | Found(item: MenuItem, quantity: Int32)   // a known code and its quantity
    | Missing(code: Text)                      // "Unknown menu item code"
    | Failed                                   // an exception: not a map, or a quantity that is not a number

  /**
    One turn of the `items` loop: the code is `String.valueOf(item.get("code"))`, then the
    quantity is read (its cast may throw), then the code is looked up in the index. A
    `null` element throws on `item.get`, any other non-map on the cast to `Map`.
  */
  function ReadItem(x: Value, menuIndex: map<Text, MenuItem>, intValue: Text -> Int32, doubleText: Text -> Text): (r: ItemRead)
    ensures r.Found? ==> r.item in menuIndex.Values && r.quantity >= 1
    ensures r.Missing? ==> r.code !in menuIndex
  {
    if !x.JObj? then Failed
    else
      var code := ValueText(GetOrDefault(x.fields, CODE_KEY, JNull), doubleText);
      match QuantityOf(Lookup(x.fields, QUANTITY_KEY), intValue)
      case None => Failed
      case Some(q) =>
        if code in menuIndex then Found(menuIndex[code], q) else Missing(code)
  }

  /** What the `items` loop comes to: the lines of the order, or the first element that stops it. */
  datatype ItemsRead =
    | Built(lines: seq<Line>)
    | UnknownCode(code: Text)
    | Thrown

  /** One more element read into the lines built so far. */
  function Next(lines: seq<Line>, r: ItemRead): ItemsRead
  {
    match r
    case Found(m, q) => Built(WithItem(lines, m, q))
    case Missing(code) => UnknownCode(code)
    case Failed => Thrown
  }

  /**
    The `items` loop from element `i` on, with `lines` built so far: each found item is
    `addItem`ed; the first failing element ends the loop.
  */
  function ReadFrom(xs: seq<Value>, i: nat, lines: seq<Line>, menuIndex: map<Text, MenuItem>,
                    intValue: Text -> Int32, doubleText: Text -> Text): ItemsRead
    requires i <= |xs|
    decreases |xs| - i
  {
    if i == |xs| then Built(lines)
    else
      match Next(lines, ReadItem(xs[i], menuIndex, intValue, doubleText))
      case Built(more) => ReadFrom(xs, i + 1, more, menuIndex, intValue, doubleText)
      case stopped => stopped
  }

  /** The whole `items` loop, from an empty order. */
  function ReadItems(xs: seq<Value>, menuIndex: map<Text, MenuItem>, intValue: Text -> Int32, doubleText: Text -> Text): ItemsRead
  {
    ReadFrom(xs, 0, [], menuIndex, intValue, doubleText)
  }

  /** The codes of the menu items the elements from `i` on find. */
  function FoundCodes(xs: seq<Value>, i: nat, menuIndex: map<Text, MenuItem>,
                      intValue: Text -> Int32, doubleText: Text -> Text): set<Text>
  {
    set k | i <= k < |xs| && ReadItem(xs[k], menuIndex, intValue, doubleText).Found?
      :: ReadItem(xs[k], menuIndex, intValue, doubleText).item.code
  }

  /**
    When the loop runs to the end, every element found its menu item, and the order keeps
    its codes distinct, its quantities at least 1, its lines, and holds only menu items
    it held or found in the index.
  */
  lemma {:induction false} ReadFromBuilt(xs: seq<Value>, i: nat, lines: seq<Line>, menuIndex: map<Text, MenuItem>,
                                         intValue: Text -> Int32, doubleText: Text -> Text)
    requires i <= |xs| && DistinctCodes(lines) && Positive(lines)
    requires ReadFrom(xs, i, lines, menuIndex, intValue, doubleText).Built?
    ensures forall k | i <= k < |xs| :: ReadItem(xs[k], menuIndex, intValue, doubleText).Found?
    ensures var r := ReadFrom(xs, i, lines, menuIndex, intValue, doubleText).lines;
      && DistinctCodes(r) && Positive(r) && |lines| <= |r|
      && Items(r) <= Items(lines) + menuIndex.Values
    decreases |xs| - i
  {
    if i < |xs| {
      var x := ReadItem(xs[i], menuIndex, intValue, doubleText);
      var more := WithItem(lines, x.item, x.quantity);
      WithItemKeeps(lines, x.item, x.quantity);
      WithItemSets(lines, x.item, x.quantity);
      assert ReadFrom(xs, i, lines, menuIndex, intValue, doubleText) == ReadFrom(xs, i + 1, more, menuIndex, intValue, doubleText);
      ReadFromBuilt(xs, i + 1, more, menuIndex, intValue, doubleText);
      forall k | i <= k < |xs|
        ensures ReadItem(xs[k], menuIndex, intValue, doubleText).Found?
      {
        if k == i {
          assert x.Found?;
        }
      }
    }
  }

  /** When the loop runs to the end, the order holds exactly the codes it held and the codes found. */
  lemma {:induction false} ReadFromCodes(xs: seq<Value>, i: nat, lines: seq<Line>, menuIndex: map<Text, MenuItem>,
                                         intValue: Text -> Int32, doubleText: Text -> Text)
    requires i <= |xs|
    requires ReadFrom(xs, i, lines, menuIndex, intValue, doubleText).Built?
    ensures Codes(ReadFrom(xs, i, lines, menuIndex, intValue, doubleText).lines)
      == Codes(lines) + FoundCodes(xs, i, menuIndex, intValue, doubleText)
    decreases |xs| - i
  {
    if i == |xs| {
      assert FoundCodes(xs, i, menuIndex, intValue, doubleText) == {};
    } else {
      var x := ReadItem(xs[i], menuIndex, intValue, doubleText);
      var more := WithItem(lines, x.item, x.quantity);
      WithItemSets(lines, x.item, x.quantity);
      assert ReadFrom(xs, i, lines, menuIndex, intValue, doubleText) == ReadFrom(xs, i + 1, more, menuIndex, intValue, doubleText);
      ReadFromCodes(xs, i + 1, more, menuIndex, intValue, doubleText);
      FoundCodesStep(xs, i, menuIndex, intValue, doubleText);
    }
  }

  lemma FoundCodesStep(xs: seq<Value>, i: nat, menuIndex: map<Text, MenuItem>,
                       intValue: Text -> Int32, doubleText: Text -> Text)
    requires i < |xs| && ReadItem(xs[i], menuIndex, intValue, doubleText).Found?
    ensures FoundCodes(xs, i, menuIndex, intValue, doubleText)
      == {ReadItem(xs[i], menuIndex, intValue, doubleText).item.code} + FoundCodes(xs, i + 1, menuIndex, intValue, doubleText)
  {
  }

  /** When every element from `i` on finds its menu item, the loop runs to the end. */
  lemma {:induction false} ReadFromAllFound(xs: seq<Value>, i: nat, lines: seq<Line>, menuIndex: map<Text, MenuItem>,
                                            intValue: Text -> Int32, doubleText: Text -> Text)
    requires i <= |xs|
    requires forall k | i <= k < |xs| :: ReadItem(xs[k], menuIndex, intValue, doubleText).Found?
    ensures ReadFrom(xs, i, lines, menuIndex, intValue, doubleText).Built?
    decreases |xs| - i
  {
    if i < |xs| {
      var x := ReadItem(xs[i], menuIndex, intValue, doubleText);
      ReadFromAllFound(xs, i + 1, WithItem(lines, x.item, x.quantity), menuIndex, intValue, doubleText);
    }
  }

  /** The element read stops the loop with this outcome. */
  predicate StopsWith(r: ItemRead, outcome: ItemsRead)
  {
    || (r.Missing? && outcome == UnknownCode(r.code))
    || (r.Failed? && outcome == Thrown)
  }

  /**
    When the loop does not run to the end, it stops at the first element that did not
    find its menu item: an unknown code is reported, a failed read throws.
  */
  lemma {:induction false} ReadFromStops(xs: seq<Value>, i: nat, lines: seq<Line>, menuIndex: map<Text, MenuItem>,
                                         intValue: Text -> Int32, doubleText: Text -> Text)
    requires i <= |xs|
    requires !ReadFrom(xs, i, lines, menuIndex, intValue, doubleText).Built?
    ensures exists k | i <= k < |xs| ::
      && (forall j | i <= j < k :: ReadItem(xs[j], menuIndex, intValue, doubleText).Found?)
      && StopsWith(ReadItem(xs[k], menuIndex, intValue, doubleText), ReadFrom(xs, i, lines, menuIndex, intValue, doubleText))
    decreases |xs| - i
  {
    var x := ReadItem(xs[i], menuIndex, intValue, doubleText);
    if x.Found? {
      var more := WithItem(lines, x.item, x.quantity);
      ReadFromStops(xs, i + 1, more, menuIndex, intValue, doubleText);
      var k :| i + 1 <= k < |xs|
        && (forall j | i + 1 <= j < k :: ReadItem(xs[j], menuIndex, intValue, doubleText).Found?)
        && StopsWith(ReadItem(xs[k], menuIndex, intValue, doubleText), ReadFrom(xs, i + 1, more, menuIndex, intValue, doubleText));
      assert forall j | i <= j < k :: ReadItem(xs[j], menuIndex, intValue, doubleText).Found?;
    } else {
      assert StopsWith(ReadItem(xs[i], menuIndex, intValue, doubleText), ReadFrom(xs, i, lines, menuIndex, intValue, doubleText));
    }
  }

  /**
    The `items` loop places the order exactly when every element finds its menu item;
    otherwise the first element that does not decides the outcome.
  */
  lemma ReadItemsOutcome(xs: seq<Value>, menuIndex: map<Text, MenuItem>, intValue: Text -> Int32, doubleText: Text -> Text)
    ensures ReadItems(xs, menuIndex, intValue, doubleText).Built?
      <==> forall k | 0 <= k < |xs| :: ReadItem(xs[k], menuIndex, intValue, doubleText).Found?
    ensures !ReadItems(xs, menuIndex, intValue, doubleText).Built? ==> exists k | 0 <= k < |xs| ::
      && (forall j | 0 <= j < k :: ReadItem(xs[j], menuIndex, intValue, doubleText).Found?)
      && StopsWith(ReadItem(xs[k], menuIndex, intValue, doubleText), ReadItems(xs, menuIndex, intValue, doubleText))
  {
    if ReadItems(xs, menuIndex, intValue, doubleText).Built? {
      ReadFromBuilt(xs, 0, [], menuIndex, intValue, doubleText);
    } else {
      if forall k | 0 <= k < |xs| :: ReadItem(xs[k], menuIndex, intValue, doubleText).Found? {
        ReadFromAllFound(xs, 0, [], menuIndex, intValue, doubleText);
      }
      ReadFromStops(xs, 0, [], menuIndex, intValue, doubleText);
    }
  }

  /** What `handleCreate` does with a request body. */
  datatype Decision =
    | Reject(status: int, message: Text)                 // `sendStatus`, no order recorded
    | Place(table: Text, notes: Text, lines: seq<Line>)  // `addOrder` of this order, then 201
    | Throw                                              // an exception escapes `handle`; no order recorded

  /**
    `handleCreate`: parse the body as an object; insist on a non-empty `items` list; read
    `table` and `notes` with their defaults; then read the items in order.
  */
  function CreateDecision(body: Text, menuIndex: map<Text, MenuItem>, intValue: Text -> Int32, doubleText: Text -> Text): Decision
  {
    match DecodeObject(Some(body))
    case Err(e) => Reject(400, INVALID_JSON_PREFIX + Message(e))
    case Ok(fields) =>
      match Lookup(fields, ITEMS_KEY)
      case None => Reject(400, NO_ITEMS_TEXT)
      case Some(items) =>
        if items.JNull? || items == JArr([]) then Reject(400, NO_ITEMS_TEXT)
        else if !items.JArr? then Throw
        else
          var table := ValueText(GetOrDefault(fields, TABLE_KEY, JStr(TBD_TEXT)), doubleText);
          var notes := ValueText(GetOrDefault(fields, NOTES_KEY, JStr([])), doubleText);
          match ReadItems(items.items, menuIndex, intValue, doubleText)
          case Built(lines) => Place(table, notes, lines)
          case UnknownCode(code) => Reject(400, UNKNOWN_CODE_PREFIX + code)
          case Thrown => Throw
  }

  /** The answer the client gets. */
  datatype Response =
    | Plain(status: int, message: Text)   // `sendStatus`: a text/plain body
    | Created                             // 201 with the order summary
    | NoAnswer                            // the exchange ends without a response

  function Answer(d: Decision): Response
  {
    match d
    case Reject(status, message) => Plain(status, message)
    case Place(_, _, _) => Created
    case Throw => NoAnswer
  }

  /** A body that is not a JSON object, and only such a body, gets the 400 "Invalid JSON: " answer. */
  lemma CreateInvalidJson(body: Text, menuIndex: map<Text, MenuItem>, intValue: Text -> Int32, doubleText: Text -> Text)
    ensures DecodeObject(Some(body)).Err? ==>
      (CreateDecision(body, menuIndex, intValue, doubleText)
       == Reject(400, INVALID_JSON_PREFIX + Message(DecodeObject(Some(body)).error)))
    ensures DecodeObject(Some(body)).Ok? ==>
      (var d := CreateDecision(body, menuIndex, intValue, doubleText);
       !(d.Reject? && StartsWithAt(d.message, INVALID_JSON_PREFIX, 0)))
  {
    var d := CreateDecision(body, menuIndex, intValue, doubleText);
    if DecodeObject(Some(body)).Ok? && d.Reject? {
      // the other refusals start with 'O' or 'U', this prefix with 'I'
      assert |d.message| > 0 && d.message[0] != INVALID_JSON_PREFIX[0];
    }
  }

  /**
    An object whose `items` is absent, `null` or an empty list, and only such an object,
    gets the 400 "Order must include at least one item" answer.
  */
  lemma CreateNeedsItems(body: Text, menuIndex: map<Text, MenuItem>, intValue: Text -> Int32, doubleText: Text -> Text)
    requires DecodeObject(Some(body)).Ok?
    ensures var items := Lookup(DecodeObject(Some(body)).value, ITEMS_KEY);
      (items.None? || items == Some(JNull) || items == Some(JArr([])))
      <==> CreateDecision(body, menuIndex, intValue, doubleText) == Reject(400, NO_ITEMS_TEXT)
  {
    var d := CreateDecision(body, menuIndex, intValue, doubleText);
    if d.Reject? && d.message != NO_ITEMS_TEXT {
      assert d.message[0] == UNKNOWN_CODE_PREFIX[0] != NO_ITEMS_TEXT[0];
    }
  }

  /** `getOrDefault(key, text)` then `String.valueOf`: a string field gives its own text, a missing one the default. */
  lemma FieldText(fields: seq<(Text, Value)>, key: Text, default: Text, doubleText: Text -> Text)
    ensures key !in Keys(fields) ==> ValueText(GetOrDefault(fields, key, JStr(default)), doubleText) == default
    ensures Lookup(fields, key).Some? && Lookup(fields, key).value.JStr? ==>
      ValueText(GetOrDefault(fields, key, JStr(default)), doubleText) == Lookup(fields, key).value.s
  {
    KeyIndexFirst(fields, key);
  }

  /**
    An accepted request names a non-empty list of items, every one of which found its
    menu item; the order's lines are for exactly the codes found, each once, with
    quantities of at least 1 and items from the index. The table and notes are the
    request's strings, or "TBD" and "" when absent.
  */
  lemma CreatePlaced(body: Text, menuIndex: map<Text, MenuItem>, intValue: Text -> Int32, doubleText: Text -> Text)
    requires CreateDecision(body, menuIndex, intValue, doubleText).Place?
    ensures DecodeObject(Some(body)).Ok?
    ensures var items := Lookup(DecodeObject(Some(body)).value, ITEMS_KEY);
      items.Some? && items.value.JArr? && items.value.items != []
    ensures var xs := Lookup(DecodeObject(Some(body)).value, ITEMS_KEY).value.items;
      forall k | 0 <= k < |xs| :: ReadItem(xs[k], menuIndex, intValue, doubleText).Found?
    ensures var xs := Lookup(DecodeObject(Some(body)).value, ITEMS_KEY).value.items;
      var lines := CreateDecision(body, menuIndex, intValue, doubleText).lines;
      && DistinctCodes(lines) && Positive(lines) && 1 <= |lines|
      && Items(lines) <= menuIndex.Values
      && Codes(lines) == FoundCodes(xs, 0, menuIndex, intValue, doubleText)
    ensures var fields := DecodeObject(Some(body)).value;
      var d := CreateDecision(body, menuIndex, intValue, doubleText);
      && (TABLE_KEY !in Keys(fields) ==> d.table == TBD_TEXT)
      && (NOTES_KEY !in Keys(fields) ==> d.notes == [])
      && (Lookup(fields, TABLE_KEY).Some? && Lookup(fields, TABLE_KEY).value.JStr? ==> d.table == Lookup(fields, TABLE_KEY).value.s)
      && (Lookup(fields, NOTES_KEY).Some? && Lookup(fields, NOTES_KEY).value.JStr? ==> d.notes == Lookup(fields, NOTES_KEY).value.s)
  {
    var fields := DecodeObject(Some(body)).value;
    var xs := Lookup(fields, ITEMS_KEY).value.items;
    var table := ValueText(GetOrDefault(fields, TABLE_KEY, JStr(TBD_TEXT)), doubleText);
    var notes := ValueText(GetOrDefault(fields, NOTES_KEY, JStr([])), doubleText);
    assert CreateDecision(body, menuIndex, intValue, doubleText)
      == Place(table, notes, ReadItems(xs, menuIndex, intValue, doubleText).lines);
    FieldText(fields, TABLE_KEY, TBD_TEXT, doubleText);
    FieldText(fields, NOTES_KEY, [], doubleText);
    ReadFromBuilt(xs, 0, [], menuIndex, intValue, doubleText);
    ReadFromCodes(xs, 0, [], menuIndex, intValue, doubleText);
    var lines := ReadItems(xs, menuIndex, intValue, doubleText).lines;
    assert ReadItem(xs[0], menuIndex, intValue, doubleText).item.code in Codes(lines);
  }

  /**
    The `items` loop of `handleCreate`: a new order with the given table and notes gets
    `addItem` for each element in turn; the first element that fails ends the loop.
    `placed` is the order when every element was read.
  */
  method ReadOrder(xs: seq<Value>, menuIndex: map<Text, MenuItem>, intValue: Text -> Int32,
                   doubleText: Text -> Text, table: Text, notes: Text)
    returns (read: ItemsRead, placed: Option<Order>)
    ensures read == ReadItems(xs, menuIndex, intValue, doubleText)
    ensures placed.Some? <==> read.Built?
    ensures placed.Some? ==> fresh(placed.value) && placed.value.Valid() && placed.value.Lines() == read.lines
    ensures placed.Some? ==> placed.value.tableNumber == table && placed.value.notes == notes
    ensures placed.Some? ==> placed.value.status == New
  {
    var order := new Order();
    order.SetTableNumber(table);
    order.SetNotes(notes);
    for i := 0 to |xs|
      invariant fresh(order) && order.Valid() && forall x | x in order.items :: fresh(x)
      invariant order.tableNumber == table && order.notes == notes && order.status == New
      invariant ReadItems(xs, menuIndex, intValue, doubleText)
        == ReadFrom(xs, i, order.Lines(), menuIndex, intValue, doubleText)
    {
      match ReadItem(xs[i], menuIndex, intValue, doubleText)
      case Found(m, q) =>
        forall k | 0 <= k < |order.items|
          ensures fresh(order.items[k])
        {
          assert order.items[k] in order.items;
        }
        order.AddItem(m, q);
      case Missing(code) =>
        return UnknownCode(code), None;
      case Failed =>
        return Thrown, None;
    }
    return Built(order.Lines()), Some(order);
  }

  /**
    `handleCreate`: the response is what `CreateDecision` says; exactly an accepted
    request records a new order, marked served, with the decided table, notes and lines,
    at the front of the history; every other request leaves the history as it was.
  */
  method HandleCreate(manager: OrderManager, menuIndex: map<Text, MenuItem>, body: Text,
                      intValue: Text -> Int32, doubleText: Text -> Text)
    returns (response: Response, placed: Option<Order>)
    requires manager.Valid()
    modifies manager
    ensures manager.Valid()
    ensures response == Answer(CreateDecision(body, menuIndex, intValue, doubleText))
    ensures placed.Some? <==> CreateDecision(body, menuIndex, intValue, doubleText).Place?
    ensures placed.None? ==> manager.history == old(manager.history)
    ensures placed.Some? ==> fresh(placed.value) && placed.value.Valid()
    ensures placed.Some? ==> manager.history == Admit(old(manager.history), placed.value, manager.historyLimit)
    ensures placed.Some? ==> var d := CreateDecision(body, menuIndex, intValue, doubleText);
      && placed.value.Lines() == d.lines && placed.value.tableNumber == d.table
      && placed.value.notes == d.notes && placed.value.status == Served
  {
    var parsed := JsonParser.ParseObject(Some(body));
    match parsed
    case Err(e) =>
      return Plain(400, INVALID_JSON_PREFIX + Message(e)), None;
    case Ok(fields) =>
      var items := Lookup(fields, ITEMS_KEY);
      if items.None? || items.value.JNull? || items.value == JArr([]) {
        return Plain(400, NO_ITEMS_TEXT), None;
      }
      if !items.value.JArr? {
        return NoAnswer, None;
      }
      var table := ValueText(GetOrDefault(fields, TABLE_KEY, JStr(TBD_TEXT)), doubleText);
      var notes := ValueText(GetOrDefault(fields, NOTES_KEY, JStr([])), doubleText);
      var read, order := ReadOrder(items.value.items, menuIndex, intValue, doubleText, table, notes);
      match read
      case Thrown =>
        return NoAnswer, None;
      case UnknownCode(code) =>
        return Plain(400, UNKNOWN_CODE_PREFIX + code), None;
      case Built(lines) =>
        assert CreateDecision(body, menuIndex, intValue, doubleText) == Place(table, notes, lines);
        manager.AddOrder(order.value);
        return Created, order;
  }
}
