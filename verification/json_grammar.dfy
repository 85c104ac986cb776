/**
  What `JsonUtil.parse` computes, as functions of the input text and a cursor position.
  Each function stands for one routine of the recursive-descent `Parser`: it takes the
  cursor `i` the routine starts from and returns the parsed value together with the
  cursor the routine leaves behind, or the exception the routine throws.
  The imperative `JsonParser.Parser` class is proved to compute exactly these.
*/
module JsonGrammar {
  import opened JavaLang
  import opened JsonValue

  const TRUE_TEXT: Text := Lit("true")
  const FALSE_TEXT: Text := Lit("false")
  const NULL_TEXT: Text := Lit("null")

  /** `peek(c)`: the cursor is on `c`. */
  predicate IsAt(s: Text, i: nat, c: Unit)
  {
    i < |s| && s[i] == c
  }

  /** What `expect` reports as found: the unit under the cursor, or the end of input. */
  function FoundAt(s: Text, i: nat): Option<Unit>
  {
    if i < |s| then Some(s[i]) else None
  }

  /** `skipWhitespace`: the first position at or after `i` that is not whitespace. */
  function SkipWs(s: Text, i: nat): (j: nat)
    requires i <= |s|
    ensures i <= j <= |s|
    decreases |s| - i
  {
    if i < |s| && IsWhitespace(s[i]) then SkipWs(s, i + 1) else i
  }

  /** `skipWhitespace` passes over whitespace only, and stops at the first unit that is not. */
  lemma {:induction false} SkipWsSpan(s: Text, i: nat)
    requires i <= |s|
    ensures forall k | i <= k < SkipWs(s, i) :: IsWhitespace(s[k])
    ensures SkipWs(s, i) < |s| ==> !IsWhitespace(s[SkipWs(s, i)])
    decreases |s| - i
  {
    if i < |s| && IsWhitespace(s[i]) {
      SkipWsSpan(s, i + 1);
    }
  }

  /** A `while (Character.isDigit(...)) index++` loop: the end of the digit run at `i`. */
  function DigitsEnd(s: Text, i: nat): (j: nat)
    requires i <= |s|
    ensures i <= j <= |s|
    decreases |s| - i
  {
    if i < |s| && IsDecimalDigit(s[i]) then DigitsEnd(s, i + 1) else i
  }

  /** The digit run at `i` holds digits only, and ends at the first unit that is not one. */
  lemma {:induction false} DigitsSpan(s: Text, i: nat)
    requires i <= |s|
    ensures forall k | i <= k < DigitsEnd(s, i) :: IsDecimalDigit(s[k])
    ensures DigitsEnd(s, i) < |s| ==> !IsDecimalDigit(s[DigitsEnd(s, i)])
    decreases |s| - i
  {
    if i < |s| && IsDecimalDigit(s[i]) {
      DigitsSpan(s, i + 1);
    }
  }

  /** The optional `-` of `parseNumber`. */
  function SignEnd(s: Text, i: nat): (a: nat)
    requires i <= |s|
    ensures i <= a <= |s|
  {
    if IsAt(s, i, MINUS) then i + 1 else i
  }

  /** The optional fraction of `parseNumber`: a `.` and a digit run. */
  function FractionEnd(s: Text, b: nat): (c: nat)
    requires b <= |s|
    ensures b <= c <= |s|
  {
    if IsAt(s, b, DOT) then DigitsEnd(s, b + 1) else b
  }

  /** Where the exponent's digit run starts, the cursor being on `e` or `E` at `c`. */
  function ExponentDigitsStart(s: Text, c: nat): nat
  {
    if IsAt(s, c + 1, PLUS) || IsAt(s, c + 1, MINUS) then c + 2 else c + 1
  }

  /** The optional exponent of `parseNumber`: `e` or `E`, an optional sign, a digit run. */
  function ExponentEnd(s: Text, c: nat): (d: nat)
    requires c <= |s|
    ensures c <= d <= |s|
  {
    if IsAt(s, c, LOWER_E) || IsAt(s, c, UPPER_E) then DigitsEnd(s, ExponentDigitsStart(s, c)) else c
  }

  /**
    The scan of `parseNumber`: an optional `-`, a digit run, optionally `.` and a digit
    run, optionally `e`/`E`, an optional sign and a digit run. Every run may be empty.
  */
  function NumberEnd(s: Text, i: nat): (d: nat)
    requires i <= |s|
    ensures i <= d <= |s|
  {
    ExponentEnd(s, FractionEnd(s, DigitsEnd(s, SignEnd(s, i))))
  }

  /** The test `number.contains(".") || number.contains("e") || number.contains("E")`. */
  predicate HasFracMarker(t: Text)
  {
    DOT in t || LOWER_E in t || UPPER_E in t
  }

  /**
    What `parseNumber` makes of the scanned literal: one with a fraction or exponent
    marker is a `Double` (kept as its text); otherwise `Integer.parseInt`, and when that
    throws, `Long.parseLong`, whose exception escapes.
  */
  function NumberValue(token: Text): (r: Result<Value>)
    ensures r.Ok? && r.value.JInt? ==> ParseInteger(token, 10, INT_MIN, INT_MAX) == Some(r.value.i)
    ensures r.Ok? && r.value.JLong? ==>
      ParseInteger(token, 10, INT_MIN, INT_MAX) == None && ParseInteger(token, 10, LONG_MIN, LONG_MAX) == Some(r.value.l)
    ensures r.Ok? ==> r.value.JInt? || r.value.JLong? || r.value == JFrac(token)
    ensures r.Err? <==> !HasFracMarker(token) && ParseInteger(token, 10, LONG_MIN, LONG_MAX).None?
  {
    if HasFracMarker(token) then Ok(JFrac(token))
    else
      match ParseInteger(token, 10, INT_MIN, INT_MAX)
      case Some(n) => Ok(JInt(n))
      case None =>
        match ParseInteger(token, 10, LONG_MIN, LONG_MAX)
        case Some(n) => Ok(JLong(n))
        case None => Err(NumberFormat(token, 10))
  }

  /** `parseNumber`: scan the literal, then classify it. */
  function NumberAt(s: Text, i: nat): (r: Result<(Value, nat)>)
    requires i <= |s|
    ensures r.Ok? ==> i < r.value.1 == NumberEnd(s, i) <= |s|
  {
    var d := NumberEnd(s, i);
    match NumberValue(s[i..d])
    case Ok(v) => Ok((v, d))
    case Err(e) => Err(e)
  }

  /** `parseBoolean`. */
  function BooleanAt(s: Text, i: nat): (r: Result<(Value, nat)>)
    requires i <= |s|
    ensures r.Ok? ==> i < r.value.1 <= |s|
  {
    if StartsWithAt(s, TRUE_TEXT, i) then Ok((JBool(true), i + 4))
    else if StartsWithAt(s, FALSE_TEXT, i) then Ok((JBool(false), i + 5))
    else Err(InvalidBoolean)
  }

  /** `parseNull`. */
  function NullAt(s: Text, i: nat): (r: Result<(Value, nat)>)
    requires i <= |s|
    ensures r.Ok? ==> i < r.value.1 <= |s|
  {
    if StartsWithAt(s, NULL_TEXT, i) then Ok((JNull, i + 4)) else Err(InvalidNull)
  }

  /** The one-unit escapes `\" \\ \/ \b \f \n \r \t` and what each stands for. */
  function EscapedUnit(esc: Unit): Option<Unit>
  {
    if esc == QUOTE then Some(QUOTE)
    else if esc == BACKSLASH then Some(BACKSLASH)
    else if esc == SLASH then Some(SLASH)
    else if esc == 0x62 then Some(BS)
    else if esc == 0x66 then Some(FF)
    else if esc == 0x6E then Some(LF)
    else if esc == 0x72 then Some(CR)
    else if esc == 0x74 then Some(TAB)
    else None
  }

  /** `parseUnicode`: four units read by `Integer.parseInt(hex, 16)`, cast to `char`. */
  function UnicodeAt(s: Text, i: nat): (r: Result<(Unit, nat)>)
    requires i <= |s|
    ensures r.Ok? ==> r.value.1 == i + 4 <= |s|
  {
    if i + 4 > |s| then Err(IncompleteUnicode)
    else
      var hex := s[i..i + 4];
      match ParseInteger(hex, 16, INT_MIN, INT_MAX)
      case None => Err(NumberFormat(hex, 16))
      case Some(n) => Ok((n % 0x1_0000, i + 4))
  }

  /**
    The loop of `parseString` after the opening quote, `acc` being what the
    `StringBuilder` holds. The end of input ends the string as the closing quote would.
  */
  function CharsAt(s: Text, i: nat, acc: Text): (r: Result<(Text, nat)>)
    requires i <= |s|
    ensures r.Ok? ==> i <= r.value.1 <= |s|
    decreases |s| - i
  {
    if i == |s| then Ok((acc, i))
    else if s[i] == QUOTE then Ok((acc, i + 1))
    else if s[i] == BACKSLASH then
      if i + 1 == |s| then Err(InvalidEscape)
      else if s[i + 1] == LOWER_U then
        match UnicodeAt(s, i + 2)
        case Err(e) => Err(e)
        case Ok((c, k)) => CharsAt(s, k, acc + [c])
      else
        match EscapedUnit(s[i + 1])
        case None => Err(UnknownEscape(s[i + 1]))
        case Some(c) => CharsAt(s, i + 2, acc + [c])
    else CharsAt(s, i + 1, acc + [s[i]])
  }

  /** `parseString`. */
  function StringAt(s: Text, i: nat): (r: Result<(Text, nat)>)
    requires i <= |s|
    ensures r.Ok? ==> i < r.value.1 <= |s|
  {
    if !IsAt(s, i, QUOTE) then Err(Expected(QUOTE, FoundAt(s, i))) else CharsAt(s, i + 1, [])
  }

  /** `parseValue`: skip whitespace, then dispatch on the unit under the cursor. */
  function ValueAt(s: Text, i: nat): (r: Result<(Value, nat)>)
    requires i <= |s|
    ensures r.Ok? ==> i < r.value.1 <= |s|
    decreases |s| - i, 2
  {
    var j := SkipWs(s, i);
    if j == |s| then Err(UnexpectedEnd)
    else if s[j] == LBRACE then ObjectAt(s, j)
    else if s[j] == LBRACKET then ArrayAt(s, j)
    else if s[j] == QUOTE then
      match StringAt(s, j)
      case Err(e) => Err(e)
      case Ok((t, k)) => Ok((JStr(t), k))
    else if s[j] == LOWER_T || s[j] == LOWER_F then BooleanAt(s, j)
    else if s[j] == LOWER_N then NullAt(s, j)
    else NumberAt(s, j)
  }

  /**
    The end of a turn of the `while (true)` loops of `parseObject` and `parseArray`: skip
    whitespace, then either the closing unit ends the loop (`true`) or a comma must follow
    (`false`).
  */
  function SeparatorAt(s: Text, i: nat, close: Unit): (r: Result<(bool, nat)>)
    requires i <= |s|
    ensures r.Ok? ==> i < r.value.1 <= |s|
  {
    var n := SkipWs(s, i);
    if IsAt(s, n, close) then Ok((true, n + 1))
    else if !IsAt(s, n, COMMA) then Err(Expected(COMMA, FoundAt(s, n)))
    else Ok((false, n + 1))
  }

  /** `parseObject`: `{`, then either `}` or the member loop. */
  function ObjectAt(s: Text, i: nat): (r: Result<(Value, nat)>)
    requires i <= |s|
    ensures r.Ok? ==> i < r.value.1 <= |s|
    decreases |s| - i, 1
  {
    if !IsAt(s, i, LBRACE) then Err(Expected(LBRACE, FoundAt(s, i)))
    else
      var j := SkipWs(s, i + 1);
      if IsAt(s, j, RBRACE) then Ok((JObj([]), j + 1))
      else MembersAt(s, j, [])
  }

  /**
    The first half of a turn of the `while (true)` loop of `parseObject`: the key, the
    colon and the value, with the cursor after the value.
  */
  function MemberAt(s: Text, i: nat): (r: Result<((Text, Value), nat)>)
    requires i <= |s|
    ensures r.Ok? ==> i < r.value.1 <= |s|
    decreases |s| - i, 0
  {
    match StringAt(s, SkipWs(s, i))
    case Err(e) => Err(e)
    case Ok((key, k)) =>
      var c := SkipWs(s, k);
      if !IsAt(s, c, COLON) then Err(Expected(COLON, FoundAt(s, c)))
      else
        match ValueAt(s, c + 1)
        case Err(e) => Err(e)
        case Ok((v, m)) => Ok(((key, v), m))
  }

  /**
    A turn of the `while (true)` loop of `parseObject` and the turns after it, `fields`
    being what the `LinkedHashMap` holds so far.
  */
  function MembersAt(s: Text, i: nat, fields: seq<(Text, Value)>): (r: Result<(Value, nat)>)
    requires i <= |s|
    ensures r.Ok? ==> i < r.value.1 <= |s|
    decreases |s| - i, 1
  {
    match MemberAt(s, i)
    case Err(e) => Err(e)
    case Ok(((key, v), m)) =>
      var fields' := Put(fields, key, v);
      match SeparatorAt(s, m, RBRACE)
      case Err(e) => Err(e)
      case Ok((closed, n)) => if closed then Ok((JObj(fields'), n)) else MembersAt(s, n, fields')
  }

  /** `parseArray`: `[`, then either `]` or the element loop. */
  function ArrayAt(s: Text, i: nat): (r: Result<(Value, nat)>)
    requires i <= |s|
    ensures r.Ok? ==> i < r.value.1 <= |s|
    decreases |s| - i, 1
  {
    if !IsAt(s, i, LBRACKET) then Err(Expected(LBRACKET, FoundAt(s, i)))
    else
      var j := SkipWs(s, i + 1);
      if IsAt(s, j, RBRACKET) then Ok((JArr([]), j + 1))
      else ElementsAt(s, j, [])
  }

  /** The `while (true)` loop of `parseArray`, `items` being what the list holds so far. */
  function ElementsAt(s: Text, i: nat, items: seq<Value>): (r: Result<(Value, nat)>)
    requires i <= |s|
    ensures r.Ok? ==> i < r.value.1 <= |s|
    decreases |s| - i, 3
  {
    match ValueAt(s, i)
    case Err(e) => Err(e)
    case Ok((v, m)) =>
      match SeparatorAt(s, m, RBRACKET)
      case Err(e) => Err(e)
      case Ok((closed, n)) => if closed then Ok((JArr(items + [v]), n)) else ElementsAt(s, n, items + [v])
  }

  /** The first half of a member turn fails with the key's exception. */
  lemma {:induction false} MemberKeyFails(s: Text, i: nat, e: JsonError)
    requires i <= |s| && StringAt(s, SkipWs(s, i)) == Err(e)
    ensures MemberAt(s, i) == Err(e)
  {
  }

  /** The first half of a member turn fails when no colon follows the key. */
  lemma {:induction false} MemberColonFails(s: Text, i: nat, key: Text, k: nat, c: nat)
    requires i <= |s| && StringAt(s, SkipWs(s, i)) == Ok((key, k))
    requires k <= |s| && c == SkipWs(s, k) && !IsAt(s, c, COLON)
    ensures MemberAt(s, i) == Err(Expected(COLON, FoundAt(s, c)))
  {
  }

  /** The first half of a member turn fails with the value's exception. */
  lemma {:induction false} MemberValueFails(s: Text, i: nat, key: Text, k: nat, c: nat, e: JsonError)
    requires i <= |s| && StringAt(s, SkipWs(s, i)) == Ok((key, k))
    requires k <= |s| && c == SkipWs(s, k) && IsAt(s, c, COLON)
    requires ValueAt(s, c + 1) == Err(e)
    ensures MemberAt(s, i) == Err(e)
  {
  }

  /** The first half of a member turn: key, colon and value all parse. */
  lemma {:induction false} MemberParsed(s: Text, i: nat, key: Text, k: nat, c: nat, v: Value, m: nat)
    requires i <= |s| && StringAt(s, SkipWs(s, i)) == Ok((key, k))
    requires k <= |s| && c == SkipWs(s, k) && IsAt(s, c, COLON)
    requires ValueAt(s, c + 1) == Ok((v, m))
    ensures MemberAt(s, i) == Ok(((key, v), m))
  {
  }

  /** A member written without whitespace: key, colon and value, each where the previous one ends. */
  lemma {:induction false} MemberRead(s: Text, i: nat, key: Text, k: nat, v: Value, m: nat)
    requires i < |s| && s[i] == QUOTE && StringAt(s, i) == Ok((key, k))
    requires k < |s| && s[k] == COLON && ValueAt(s, k + 1) == Ok((v, m))
    ensures MemberAt(s, i) == Ok(((key, v), m))
  {
    MemberParsed(s, i, key, k, k, v, m);
  }

  /** The member loop fails with the exception of its member. */
  lemma {:induction false} MembersFails(s: Text, i: nat, fields: seq<(Text, Value)>, e: JsonError)
    requires i <= |s| && MemberAt(s, i) == Err(e)
    ensures MembersAt(s, i, fields) == Err(e)
  {
  }

  /** A turn of the member loop fails at the separator. */
  lemma {:induction false} MembersSepFails(s: Text, i: nat, fields: seq<(Text, Value)>, key: Text, v: Value, m: nat, e: JsonError)
    requires i <= |s| && MemberAt(s, i) == Ok(((key, v), m))
    requires m <= |s| && SeparatorAt(s, m, RBRACE) == Err(e)
    ensures MembersAt(s, i, fields) == Err(e)
  {
  }

  /** A turn of the member loop that ends at the closing brace. */
  lemma {:induction false} MembersClose(s: Text, i: nat, fields: seq<(Text, Value)>, key: Text, v: Value, m: nat, n: nat)
    requires i <= |s| && MemberAt(s, i) == Ok(((key, v), m))
    requires m <= |s| && SeparatorAt(s, m, RBRACE) == Ok((true, n))
    ensures MembersAt(s, i, fields) == Ok((JObj(Put(fields, key, v)), n))
  {
  }

  /** A turn of the member loop that goes on after a comma. */
  lemma {:induction false} MembersNext(s: Text, i: nat, fields: seq<(Text, Value)>, key: Text, v: Value, m: nat, n: nat)
    requires i <= |s| && MemberAt(s, i) == Ok(((key, v), m))
    requires m <= |s| && SeparatorAt(s, m, RBRACE) == Ok((false, n))
    ensures n <= |s|
    ensures MembersAt(s, i, fields) == MembersAt(s, n, Put(fields, key, v))
  {
  }

  /** `parseObject` on `{` followed by `}`. */
  lemma {:induction false} ObjectEmpty(s: Text, i: nat, j: nat)
    requires IsAt(s, i, LBRACE) && j == SkipWs(s, i + 1) && IsAt(s, j, RBRACE)
    ensures ObjectAt(s, i) == Ok((JObj([]), j + 1))
  {
  }

  /** `parseObject` on `{` followed by anything but `}` enters the member loop. */
  lemma {:induction false} ObjectMembers(s: Text, i: nat, j: nat)
    requires IsAt(s, i, LBRACE) && j == SkipWs(s, i + 1) && !IsAt(s, j, RBRACE)
    ensures ObjectAt(s, i) == MembersAt(s, j, [])
  {
  }

  /** `parseArray` on `[` followed by `]`. */
  lemma {:induction false} ArrayEmpty(s: Text, i: nat, j: nat)
    requires IsAt(s, i, LBRACKET) && j == SkipWs(s, i + 1) && IsAt(s, j, RBRACKET)
    ensures ArrayAt(s, i) == Ok((JArr([]), j + 1))
  {
  }

  /** `parseArray` on `[` followed by anything but `]` enters the element loop. */
  lemma {:induction false} ArrayElements(s: Text, i: nat, j: nat)
    requires IsAt(s, i, LBRACKET) && j == SkipWs(s, i + 1) && !IsAt(s, j, RBRACKET)
    ensures ArrayAt(s, i) == ElementsAt(s, j, [])
  {
  }

  /** The element loop fails with the exception of its element. */
  lemma {:induction false} ElementsFails(s: Text, i: nat, items: seq<Value>, e: JsonError)
    requires i <= |s| && ValueAt(s, i) == Err(e)
    ensures ElementsAt(s, i, items) == Err(e)
  {
  }

  /** A turn of the element loop fails at the separator. */
  lemma {:induction false} ElementsSepFails(s: Text, i: nat, items: seq<Value>, v: Value, m: nat, e: JsonError)
    requires i <= |s| && ValueAt(s, i) == Ok((v, m))
    requires m <= |s| && SeparatorAt(s, m, RBRACKET) == Err(e)
    ensures ElementsAt(s, i, items) == Err(e)
  {
  }

  /** A turn of the element loop that ends at the closing bracket. */
  lemma {:induction false} ElementsClose(s: Text, i: nat, items: seq<Value>, v: Value, m: nat, n: nat)
    requires i <= |s| && ValueAt(s, i) == Ok((v, m))
    requires m <= |s| && SeparatorAt(s, m, RBRACKET) == Ok((true, n))
    ensures ElementsAt(s, i, items) == Ok((JArr(items + [v]), n))
  {
  }

  /** A turn of the element loop that goes on after a comma. */
  lemma {:induction false} ElementsNext(s: Text, i: nat, items: seq<Value>, v: Value, m: nat, n: nat)
    requires i <= |s| && ValueAt(s, i) == Ok((v, m))
    requires m <= |s| && SeparatorAt(s, m, RBRACKET) == Ok((false, n))
    ensures n <= |s|
    ensures ElementsAt(s, i, items) == ElementsAt(s, n, items + [v])
  {
  }

  /** `parseValue` on `{` hands over to `parseObject`. */
  lemma {:induction false} ValueObject(s: Text, i: nat)
    requires i < |s| && s[i] == LBRACE
    ensures ValueAt(s, i) == ObjectAt(s, i)
  {
  }

  /** `parseValue` on `[` hands over to `parseArray`. */
  lemma {:induction false} ValueArray(s: Text, i: nat)
    requires i < |s| && s[i] == LBRACKET
    ensures ValueAt(s, i) == ArrayAt(s, i)
  {
  }

  /** `parseValue` on a quote reads a string. */
  lemma {:induction false} ValueString(s: Text, i: nat, t: Text, k: nat)
    requires i < |s| && s[i] == QUOTE && StringAt(s, i) == Ok((t, k))
    ensures ValueAt(s, i) == Ok((JStr(t), k))
  {
  }

  /** `parseValue` on `t` or `f` hands over to `parseBoolean`. */
  lemma {:induction false} ValueBoolean(s: Text, i: nat)
    requires i < |s| && (s[i] == LOWER_T || s[i] == LOWER_F)
    ensures ValueAt(s, i) == BooleanAt(s, i)
  {
  }

  /** `parseValue` on `n` hands over to `parseNull`. */
  lemma {:induction false} ValueNull(s: Text, i: nat)
    requires i < |s| && s[i] == LOWER_N
    ensures ValueAt(s, i) == NullAt(s, i)
  {
  }

  /** `parseNumber` classifies the token it scanned. */
  lemma {:induction false} NumberToken(s: Text, i: nat, t: Text, v: Value)
    requires i <= |s| && NumberEnd(s, i) == i + |t| && s[i..i + |t|] == t && NumberValue(t) == Ok(v)
    ensures NumberAt(s, i) == Ok((v, i + |t|))
  {
  }

  /** `parseValue` on any other unit that is not whitespace hands over to `parseNumber`. */
  lemma {:induction false} ValueNumber(s: Text, i: nat)
    requires i < |s| && !IsWhitespace(s[i])
    requires s[i] != LBRACE && s[i] != LBRACKET && s[i] != QUOTE && s[i] != LOWER_T && s[i] != LOWER_F && s[i] != LOWER_N
    ensures ValueAt(s, i) == NumberAt(s, i)
  {
  }

  /**
    `JsonUtil.parse`: `null` gives `null`; otherwise trim, parse one value, and reject
    anything but whitespace after it.
  */
  function Decode(json: Option<Text>): Result<Value>
  {
    match json
    case None => Ok(JNull)
    case Some(t) =>
      var s := Trim(t);
      match ValueAt(s, 0)
      case Err(e) => Err(e)
      case Ok((v, j)) => if SkipWs(s, j) < |s| then Err(TrailingData) else Ok(v)
  }

  /** `JsonUtil.parseObject`: `parse`, then insist on a map. */
  function DecodeObject(json: Option<Text>): Result<seq<(Text, Value)>>
  {
    match Decode(json)
    case Err(e) => Err(e)
    case Ok(v) => if v.JObj? then Ok(v.fields) else Err(NotAnObject)
  }
}
