/**
  `JsonUtil.parse`, `JsonUtil.parseObject` and the inner `Parser`: one mutable cursor
  `index` over the trimmed input, advanced by the recursive-descent methods. Every method
  is proved to return what the matching `JsonGrammar` function returns and to leave the
  cursor where that function says.
*/
module JsonParser {
  import opened JavaLang
  import opened JsonValue
  import opened JsonGrammar

  /**
    A method's result `r` and the cursor `index` it leaves behind, in the shape of a
    grammar function's result: the value with the cursor, or the exception.
  */
  function Outcome<T>(r: Result<T>, index: nat): Result<(T, nat)>
  {
    match r
    case Ok(v) => Ok((v, index))
    case Err(e) => Err(e)
  }

  class Parser {
    const json: Text
    var index: nat

    ghost predicate Valid()
      reads this
    {
      index <= |json|
    }

    constructor (json: Text)
      ensures Valid() && this.json == json && index == 0
    {
      this.json := json;
      index := 0;
    }

    method IsEnd() returns (b: bool)
      requires Valid()
      ensures b <==> index == |json|
    {
      b := index >= |json|;
    }

    method Peek(expected: Unit) returns (b: bool)
      ensures b == IsAt(json, index, expected)
    {
      b := index < |json| && json[index] == expected;
    }

    method Expect(expected: Unit) returns (r: Result<()>)
      requires Valid()
      modifies this
      ensures Valid()
      ensures IsAt(json, old(index), expected) ==> r == Ok(()) && index == old(index) + 1
      ensures !IsAt(json, old(index), expected) ==>
                r == Err(Expected(expected, FoundAt(json, old(index)))) && index == old(index)
    {
      if index >= |json| || json[index] != expected {
        return Err(Expected(expected, FoundAt(json, index)));
      }
      index := index + 1;
      r := Ok(());
    }

    method SkipWhitespace()
      requires Valid()
      modifies this
      ensures Valid() && index == SkipWs(json, old(index))
    {
      while index < |json|
        invariant Valid()
        invariant SkipWs(json, index) == SkipWs(json, old(index))
        decreases |json| - index
      {
        if IsWhitespace(json[index]) {
          index := index + 1;
        } else {
          break;
        }
      }
    }

    method ParseValue() returns (r: Result<Value>)
      requires Valid()
      modifies this
      ensures Valid() && ValueAt(json, old(index)) == Outcome(r, index)
      decreases |json| - index, 2
    {
      SkipWhitespace();
      var end := IsEnd();
      if end {
        return Err(UnexpectedEnd);
      }
      var ch := json[index];
      if ch == LBRACE {
        r := ParseObject();
      } else if ch == LBRACKET {
        r := ParseArray();
      } else if ch == QUOTE {
        var t := ParseString();
        r := if t.Ok? then Ok(JStr(t.value)) else Err(t.error);
      } else if ch == LOWER_T || ch == LOWER_F {
        r := ParseBoolean();
      } else if ch == LOWER_N {
        r := ParseNull();
      } else {
        r := ParseNumber();
      }
    }

    method ParseObject() returns (r: Result<Value>)
      requires Valid()
      modifies this
      ensures Valid() && ObjectAt(json, old(index)) == Outcome(r, index)
      decreases |json| - index, 1
    {
      var e := Expect(LBRACE);
      if e.Err? {
        return Err(e.error);
      }
      var fields: seq<(Text, Value)> := [];
      SkipWhitespace();
      var closing := Peek(RBRACE);
      if closing {
        ObjectEmpty(json, old(index), index);
        index := index + 1;
        return Ok(JObj(fields));
      }
      ObjectMembers(json, old(index), index);
      while true
        invariant Valid() && old(index) < index
        invariant MembersAt(json, index, fields) == ObjectAt(json, old(index))
        decreases |json| - index
      {
        ghost var turn, before := index, fields;
        var member := ParseMember();
        if member.Err? {
          MembersFails(json, turn, before, member.error);
          return Err(member.error);
        }
        var (key, v) := member.value;
        ghost var m := index;
        fields := Put(fields, key, v);
        var closed := ParseSeparator(RBRACE);
        if closed.Err? {
          MembersSepFails(json, turn, before, key, v, m, closed.error);
          return Err(closed.error);
        }
        if closed.value {
          MembersClose(json, turn, before, key, v, m, index);
          break;
        }
        MembersNext(json, turn, before, key, v, m, index);
      }
      r := Ok(JObj(fields));
    }

    /** The first half of a turn of the member loop: the key, the colon and the value. */
    method ParseMember() returns (r: Result<(Text, Value)>)
      requires Valid()
      modifies this
      ensures Valid() && MemberAt(json, old(index)) == Outcome(r, index)
      decreases |json| - index, 0
    {
      SkipWhitespace();
      var key := ParseString();
      if key.Err? {
        MemberKeyFails(json, old(index), key.error);
        return Err(key.error);
      }
      ghost var afterKey := index;
      SkipWhitespace();
      ghost var colon := index;
      var e := Expect(COLON);
      if e.Err? {
        MemberColonFails(json, old(index), key.value, afterKey, colon);
        return Err(e.error);
      }
      assert index == colon + 1;
      var v := ParseValue();
      ghost var parsed := Outcome(v, index);
      assert ValueAt(json, colon + 1) == parsed;
      if v.Err? {
        MemberValueFails(json, old(index), key.value, afterKey, colon, v.error);
        return Err(v.error);
      }
      MemberParsed(json, old(index), key.value, afterKey, colon, v.value, index);
      r := Ok((key.value, v.value));
    }

    method ParseArray() returns (r: Result<Value>)
      requires Valid()
      modifies this
      ensures Valid() && ArrayAt(json, old(index)) == Outcome(r, index)
      decreases |json| - index, 1
    {
      var e := Expect(LBRACKET);
      if e.Err? {
        return Err(e.error);
      }
      var list: seq<Value> := [];
      SkipWhitespace();
      var closing := Peek(RBRACKET);
      if closing {
        ArrayEmpty(json, old(index), index);
        index := index + 1;
        return Ok(JArr(list));
      }
      ArrayElements(json, old(index), index);
      while true
        invariant Valid() && old(index) < index
        invariant ElementsAt(json, index, list) == ArrayAt(json, old(index))
        decreases |json| - index
      {
        ghost var turn, before := index, list;
        var v := ParseValue();
        if v.Err? {
          ElementsFails(json, turn, before, v.error);
          return Err(v.error);
        }
        ghost var m := index;
        list := list + [v.value];
        var closed := ParseSeparator(RBRACKET);
        if closed.Err? {
          ElementsSepFails(json, turn, before, v.value, m, closed.error);
          return Err(closed.error);
        }
        if closed.value {
          ElementsClose(json, turn, before, v.value, m, index);
          break;
        }
        ElementsNext(json, turn, before, v.value, m, index);
      }
      r := Ok(JArr(list));
    }

    /**
      The end of a loop turn in `parseObject` and `parseArray`: `skipWhitespace()`, then
      `if (peek(close)) { index++; break; }`, then `expect(',')`.
    */
    method ParseSeparator(close: Unit) returns (r: Result<bool>)
      requires Valid()
      modifies this
      ensures Valid() && SeparatorAt(json, old(index), close) == Outcome(r, index)
    {
      SkipWhitespace();
      var closing := Peek(close);
      if closing {
        index := index + 1;
        return Ok(true);
      }
      var e := Expect(COMMA);
      if e.Err? {
        return Err(e.error);
      }
      r := Ok(false);
    }

    method ParseString() returns (r: Result<Text>)
      requires Valid()
      modifies this
      ensures Valid() && StringAt(json, old(index)) == Outcome(r, index)
    {
      var e := Expect(QUOTE);
      if e.Err? {
        return Err(e.error);
      }
      var sb: Text := [];
      while index < |json|
        invariant Valid()
        invariant CharsAt(json, index, sb) == StringAt(json, old(index))
        decreases |json| - index
      {
        ghost var turn, before := index, sb;
        var ch := json[index];
        index := index + 1;
        if ch == QUOTE {
          assert CharsAt(json, turn, before) == Ok((sb, index));
          break;
        }
        if ch == BACKSLASH {
          if index >= |json| {
            return Err(InvalidEscape);
          }
          var esc := json[index];
          index := index + 1;
          if esc == LOWER_U {
            var u := ParseUnicode();
            if u.Err? {
              return Err(u.error);
            }
            sb := sb + [u.value];
          } else {
            var c := EscapedUnit(esc);
            if c.None? {
              return Err(UnknownEscape(esc));
            }
            sb := sb + [c.value];
          }
        } else {
          sb := sb + [ch];
        }
        assert CharsAt(json, turn, before) == CharsAt(json, index, sb);
      }
      r := Ok(sb);
    }

    method ParseUnicode() returns (r: Result<Unit>)
      requires Valid()
      modifies this
      ensures Valid() && UnicodeAt(json, old(index)) == Outcome(r, index)
    {
      if index + 4 > |json| {
        return Err(IncompleteUnicode);
      }
      var hex := json[index..index + 4];
      index := index + 4;
      var n := ParseInteger(hex, 16, INT_MIN, INT_MAX);
      if n.None? {
        return Err(NumberFormat(hex, 16));
      }
      r := Ok(n.value % 0x1_0000);
    }

    method ParseBoolean() returns (r: Result<Value>)
      requires Valid()
      modifies this
      ensures Valid() && BooleanAt(json, old(index)) == Outcome(r, index)
    {
      if StartsWithAt(json, TRUE_TEXT, index) {
        index := index + 4;
        return Ok(JBool(true));
      }
      if StartsWithAt(json, FALSE_TEXT, index) {
        index := index + 5;
        return Ok(JBool(false));
      }
      r := Err(InvalidBoolean);
    }

    method ParseNull() returns (r: Result<Value>)
      requires Valid()
      modifies this
      ensures Valid() && NullAt(json, old(index)) == Outcome(r, index)
    {
      if StartsWithAt(json, NULL_TEXT, index) {
        index := index + 4;
        return Ok(JNull);
      }
      r := Err(InvalidNull);
    }

    /** The loop `while (!isEnd() && Character.isDigit(json.charAt(index))) index++;`. */
    method SkipDigits()
      requires Valid()
      modifies this
      ensures Valid() && index == DigitsEnd(json, old(index))
    {
      while index < |json| && IsDecimalDigit(json[index])
        invariant Valid()
        invariant DigitsEnd(json, index) == DigitsEnd(json, old(index))
        decreases |json| - index
      {
        index := index + 1;
      }
    }

    /** The scanning half of `parseNumber`: sign, integer digits, fraction, exponent. */
    method ScanNumber()
      requires Valid()
      modifies this
      ensures Valid() && index == NumberEnd(json, old(index))
    {
      var minus := Peek(MINUS);
      if minus {
        index := index + 1;
      }
      SkipDigits();
      ScanFraction();
      ScanExponent();
    }

    /** The optional `.` and its digit run. */
    method ScanFraction()
      requires Valid()
      modifies this
      ensures Valid()
      ensures index == FractionEnd(json, old(index))
    {
      if index < |json| && json[index] == DOT {
        index := index + 1;
        SkipDigits();
      }
    }

    /** The optional exponent: `e` or `E`, an optional sign, a digit run. */
    method ScanExponent()
      requires Valid()
      modifies this
      ensures Valid()
      ensures index == ExponentEnd(json, old(index))
    {
      if index < |json| && (json[index] == LOWER_E || json[index] == UPPER_E) {
        ghost var c := index;
        index := index + 1;
        if index < |json| && (json[index] == PLUS || json[index] == MINUS) {
          index := index + 1;
        }
        assert index == ExponentDigitsStart(json, c);
        SkipDigits();
      }
    }

    method ParseNumber() returns (r: Result<Value>)
      requires Valid()
      modifies this
      ensures Valid() && NumberAt(json, old(index)) == Outcome(r, index)
    {
      var start := index;
      ScanNumber();
      var number := json[start..index];
      if HasFracMarker(number) {
        return Ok(JFrac(number));
      }
      var n := ParseInteger(number, 10, INT_MIN, INT_MAX);
      if n.Some? {
        return Ok(JInt(n.value));
      }
      var l := ParseInteger(number, 10, LONG_MIN, LONG_MAX);
      if l.Some? {
        return Ok(JLong(l.value));
      }
      r := Err(NumberFormat(number, 10));
    }
  }

  /** `JsonUtil.parse`. */
  method Parse(json: Option<Text>) returns (r: Result<Value>)
    ensures r == Decode(json)
  {
    if json.None? {
      return Ok(JNull);
    }
    var parser := new Parser(Trim(json.value));
    var v := parser.ParseValue();
    if v.Err? {
      return Err(v.error);
    }
    parser.SkipWhitespace();
    var end := parser.IsEnd();
    if !end {
      return Err(TrailingData);
    }
    r := Ok(v.value);
  }

  /** `JsonUtil.parseObject`. */
  method ParseObject(json: Option<Text>) returns (r: Result<seq<(Text, Value)>>)
    ensures r == DecodeObject(json)
  {
    var v := Parse(json);
    if v.Err? {
      return Err(v.error);
    }
    if !v.value.JObj? {
      return Err(NotAnObject);
    }
    r := Ok(v.value.fields);
  }
}
