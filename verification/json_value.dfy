/**
  The values the JSON codec exchanges. `JsonUtil` works on plain Java objects; here each
  kind of object it produces or accepts is one constructor:
  `null`, `Boolean`, `Integer`, `Long`, `Double` (kept as the literal's text),
  `String`, `ArrayList` and `LinkedHashMap` (an ordered association list with unique keys).
*/
module JsonValue {
  import opened JavaLang

  datatype Value =
    | JNull
    | JBool(b: bool)
    | JInt(i: Int32)
    | JLong(l: Int64)
    | JFrac(text: Text)
    | JStr(s: Text)
    | JArr(items: seq<Value>)
    | JObj(fields: seq<(Text, Value)>)

  /** The `IllegalArgumentException`s (and `NumberFormatException`s) the codec throws. */
  datatype JsonError =
    | UnexpectedEnd
    | TrailingData
    | Expected(expected: Unit, found: Option<Unit>)
    | InvalidEscape
    | UnknownEscape(escape: Unit)
    | IncompleteUnicode
    | NumberFormat(input: Text, radix: nat)
    | InvalidBoolean
    | InvalidNull
    | NotAnObject

  datatype Result<+T> = Ok(value: T) | Err(error: JsonError)

  // The code units the grammar dispatches on.
  const QUOTE: Unit := 0x22
  const BACKSLASH: Unit := 0x5C
  const SLASH: Unit := 0x2F
  const LBRACE: Unit := 0x7B
  const RBRACE: Unit := 0x7D
  const LBRACKET: Unit := 0x5B
  const RBRACKET: Unit := 0x5D
  const COLON: Unit := 0x3A
  const COMMA: Unit := 0x2C
  const DOT: Unit := 0x2E
  const LOWER_E: Unit := 0x65
  const UPPER_E: Unit := 0x45
  const LOWER_T: Unit := 0x74
  const LOWER_F: Unit := 0x66
  const LOWER_N: Unit := 0x6E
  const LOWER_U: Unit := 0x75
  const BS: Unit := 0x08
  const FF: Unit := 0x0C
  const LF: Unit := 0x0A
  const CR: Unit := 0x0D
  const TAB: Unit := 0x09

  /** The key sequence of an object, in iteration order. */
  function Keys(fields: seq<(Text, Value)>): (ks: seq<Text>)
    ensures |ks| == |fields|
    ensures forall k | 0 <= k < |fields| :: ks[k] == fields[k].0
  {
    seq(|fields|, k requires 0 <= k < |fields| => fields[k].0)
  }

  predicate UniqueKeys(fields: seq<(Text, Value)>)
  {
    forall p, q | 0 <= p < q < |fields| :: fields[p].0 != fields[q].0
  }

  /** The position of `key` among the fields, if present. */
  function KeyIndex(fields: seq<(Text, Value)>, key: Text): (r: Option<nat>)
    ensures r.Some? ==> r.value < |fields|
  {
    if fields == [] then None
    else if fields[0].0 == key then Some(0)
    else match KeyIndex(fields[1..], key)
      case None => None
      case Some(p) => Some(p + 1)
  }

  /** `KeyIndex` finds the first field with the key, and finds nothing exactly when the key is absent. */
  lemma {:induction false} KeyIndexFirst(fields: seq<(Text, Value)>, key: Text)
    ensures var r := KeyIndex(fields, key);
      && (r.Some? ==> fields[r.value].0 == key && forall p | 0 <= p < r.value :: fields[p].0 != key)
      && (r.None? <==> key !in Keys(fields))
  {
    if fields != [] && fields[0].0 != key {
      KeyIndexFirst(fields[1..], key);
      assert Keys(fields) == [fields[0].0] + Keys(fields[1..]);
    }
  }

  /** `Map.get`: the value stored under `key`, `None` when the key is absent. */
  function Lookup(fields: seq<(Text, Value)>, key: Text): Option<Value>
  {
    match KeyIndex(fields, key)
    case None => None
    case Some(p) => Some(fields[p].1)
  }

  /**
    `LinkedHashMap.put`: a new key is appended; an existing key keeps its position and
    gets the new value.
  */
  function Put(fields: seq<(Text, Value)>, key: Text, v: Value): seq<(Text, Value)>
  {
    match KeyIndex(fields, key)
    case Some(p) => fields[p := (key, v)]
    case None => fields + [(key, v)]
  }

  /** `put` keeps the key order, appending a new key at the end, and keeps keys unique. */
  lemma PutKeys(fields: seq<(Text, Value)>, key: Text, v: Value)
    ensures Keys(Put(fields, key, v)) == if key in Keys(fields) then Keys(fields) else Keys(fields) + [key]
    ensures UniqueKeys(fields) ==> UniqueKeys(Put(fields, key, v))
  {
    KeyIndexFirst(fields, key);
    var r := Put(fields, key, v);
    match KeyIndex(fields, key)
    case Some(p) =>
      assert Keys(r) == Keys(fields);
    case None =>
      assert Keys(r) == Keys(fields) + [key];
  }

  /** After `put`, the key maps to the new value and every other key to what it did before. */
  lemma PutLookup(fields: seq<(Text, Value)>, key: Text, v: Value)
    requires UniqueKeys(fields)
    ensures Lookup(Put(fields, key, v), key) == Some(v)
    ensures forall k | k != key :: Lookup(Put(fields, key, v), k) == Lookup(fields, k)
  {
    var r := Put(fields, key, v);
    PutKeys(fields, key, v);
    KeyIndexFirst(fields, key);
    forall k | k != key ensures Lookup(r, k) == Lookup(fields, k) {
      KeyIndexFirst(fields, k);
      KeyIndexFirst(r, k);
      match KeyIndex(fields, k)
      case None =>
        assert k !in Keys(r);
      case Some(p) =>
        LookupUnique(r, k, p);
    }
    match KeyIndex(fields, key)
    case Some(p) => LookupUnique(r, key, p);
    case None => LookupUnique(r, key, |fields|);
  }

  /** With unique keys, the field at `p` is what `Lookup` finds for its key. */
  lemma LookupUnique(fields: seq<(Text, Value)>, key: Text, p: nat)
    requires UniqueKeys(fields)
    requires p < |fields| && fields[p].0 == key
    ensures Lookup(fields, key) == Some(fields[p].1)
  {
    KeyIndexFirst(fields, key);
    assert key in Keys(fields);
  }

  const UNEXPECTED_END_TEXT: Text := Lit("Unexpected end of JSON input")
  const TRAILING_DATA_TEXT: Text := Lit("Unexpected trailing data in JSON payload")
  const INVALID_ESCAPE_TEXT: Text := Lit("Invalid escape sequence")
  const INCOMPLETE_UNICODE_TEXT: Text := Lit("Incomplete unicode escape")
  const INVALID_BOOLEAN_TEXT: Text := Lit("Invalid boolean literal")
  const INVALID_NULL_TEXT: Text := Lit("Invalid null literal")
  const NOT_AN_OBJECT_TEXT: Text := Lit("JSON payload is not an object")
  const EXPECTED_PREFIX: Text := Lit("Expected '")
  const EXPECTED_MIDDLE: Text := Lit("' but found '")
  const EOF_TEXT: Text := Lit("EOF")
  const CLOSING_TICK: Text := Lit("'")
  const UNKNOWN_ESCAPE_PREFIX: Text := Lit("Unknown escape: \\")
  const FOR_INPUT_PREFIX: Text := Lit("For input string: \"")
  const FOR_INPUT_SUFFIX: Text := Lit("\"")
  const UNDER_RADIX: Text := Lit(" under radix ")

  /**
    The exception messages: `"Expected '" + expected + "' but found '" + (EOF or the
    unit) + "'"` and the fixed texts; a `NumberFormatException` carries the library's
    `For input string` text.
  */
  function Message(e: JsonError): Text
  {
    match e
    case UnexpectedEnd => UNEXPECTED_END_TEXT
    case TrailingData => TRAILING_DATA_TEXT
    case Expected(c, found) =>
      EXPECTED_PREFIX + [c] + EXPECTED_MIDDLE
      + (match found case None => EOF_TEXT case Some(f) => [f]) + CLOSING_TICK
    case InvalidEscape => INVALID_ESCAPE_TEXT
    case UnknownEscape(c) => UNKNOWN_ESCAPE_PREFIX + [c]
    case IncompleteUnicode => INCOMPLETE_UNICODE_TEXT
    case NumberFormat(input, radix) =>
      FOR_INPUT_PREFIX + input + FOR_INPUT_SUFFIX
      + (if radix == 10 then [] else UNDER_RADIX + DecimalText(radix))
    case InvalidBoolean => INVALID_BOOLEAN_TEXT
    case InvalidNull => INVALID_NULL_TEXT
    case NotAnObject => NOT_AN_OBJECT_TEXT
  }
}
