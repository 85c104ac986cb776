/**
  What `stringify` writes, `parse` reads back, in the model, where a fraction is kept as
  its literal text. The values `parse` can produce are the well-formed ones; for each of
  them `parse(stringify(v))` is `v` again, and so `parse(stringify(parse(x)))` equals
  `parse(x)` whenever `parse(x)` succeeds.
*/
module JsonRoundTrip {
  import opened JavaLang
  import opened JsonValue
  import opened JsonGrammar
  import opened JsonWriter

  /** The units the scan of `parseNumber` can pass over. */
  predicate IsNumberUnit(c: Unit)
  {
    IsDecimalDigit(c) || c == MINUS || c == PLUS || c == DOT || c == LOWER_E || c == UPPER_E
  }

  /** A text the scan of `parseNumber` reads to its very end. */
  predicate IsNumberToken(t: Text)
  {
    NumberEnd(t, 0) == |t|
  }

  /**
    The values `parse` produces: a `Long` only outside the `int` range (inside it the
    parser makes an `Integer`), a fractional number only as a complete scanned literal
    with a fraction or exponent marker, and maps whose keys are unique.
  */
  predicate WellFormed(v: Value)
  {
    match v
    case JLong(n) => !(INT_MIN <= n <= INT_MAX)
    case JFrac(t) => IsNumberToken(t) && HasFracMarker(t)
    case JArr(items) => forall k | 0 <= k < |items| :: WellFormed(items[k])
    case JObj(fields) => UniqueKeys(fields) && forall k | 0 <= k < |fields| :: WellFormed(fields[k].1)
    case _ => true
  }

  /** What ends a serialized value inside the text: the end of input or a unit no number scan passes. */
  predicate Delimited(s: Text, e: nat)
  {
    e <= |s| && (e == |s| || !IsNumberUnit(s[e]))
  }

  /** A digit run starting inside `t` ends where it ends in `s`, when `s` holds `t` at `p` and the run stops within it. */
  lemma {:induction false} DigitsEndAgree(s: Text, p: nat, t: Text, x: nat)
    requires StartsWithAt(s, t, p) && x <= |t|
    requires DigitsEnd(s, p + x) <= p + |t|
    ensures DigitsEnd(t, x) == DigitsEnd(s, p + x) - p
    decreases |t| - x
  {
    if x < |t| {
      assert s[p + x] == t[x];
      if IsDecimalDigit(t[x]) {
        DigitsEndAgree(s, p, t, x + 1);
      }
    }
  }

  /** The fraction stage of the scan passes over number units only. */
  lemma {:induction false} FractionSpan(s: Text, b: nat)
    requires b <= |s|
    ensures forall k | b <= k < FractionEnd(s, b) :: IsNumberUnit(s[k])
  {
    if IsAt(s, b, DOT) {
      DigitsSpan(s, b + 1);
    }
  }

  /** The exponent stage of the scan passes over number units only. */
  lemma {:induction false} ExponentSpan(s: Text, c: nat)
    requires c <= |s|
    ensures forall k | c <= k < ExponentEnd(s, c) :: IsNumberUnit(s[k])
  {
    if IsAt(s, c, LOWER_E) || IsAt(s, c, UPPER_E) {
      DigitsSpan(s, ExponentDigitsStart(s, c));
    }
  }

  /** The scan of `parseNumber` passes over number units only. */
  lemma {:induction false} NumberSpan(s: Text, i: nat)
    requires i <= |s|
    ensures forall k | i <= k < NumberEnd(s, i) :: IsNumberUnit(s[k])
  {
    var a := SignEnd(s, i);
    var b := DigitsEnd(s, a);
    var c := FractionEnd(s, b);
    DigitsSpan(s, a);
    FractionSpan(s, b);
    ExponentSpan(s, c);
  }

  /** `peek` inside `t` agrees with `peek` in `s` at the same place; at the end of `t` it sees nothing. */
  lemma {:induction false} IsAtAgree(s: Text, p: nat, t: Text, x: nat, c: Unit)
    requires StartsWithAt(s, t, p) && x <= |t|
    requires x == |t| ==> !IsAt(s, p + x, c)
    ensures IsAt(t, x, c) == IsAt(s, p + x, c)
  {
    if x < |t| {
      assert s[p..p + |t|][x] == t[x];
    }
  }

  /** The sign stage agrees, as long as it stops within `t`. */
  lemma {:induction false} SignEndAgree(s: Text, p: nat, t: Text)
    requires StartsWithAt(s, t, p) && SignEnd(s, p) <= p + |t|
    ensures SignEnd(t, 0) == SignEnd(s, p) - p
  {
    IsAtAgree(s, p, t, 0, MINUS);
  }

  /** The fraction stage agrees, as long as it stops within `t`. */
  lemma {:induction false} FractionEndAgree(s: Text, p: nat, t: Text, b: nat)
    requires StartsWithAt(s, t, p) && p <= b <= p + |t|
    requires FractionEnd(s, b) <= p + |t|
    ensures FractionEnd(t, b - p) == FractionEnd(s, b) - p
  {
    IsAtAgree(s, p, t, b - p, DOT);
    if IsAt(s, b, DOT) {
      DigitsEndAgree(s, p, t, b + 1 - p);
    }
  }

  /** The exponent stage agrees, as long as it stops within `t`. */
  lemma {:induction false} ExponentEndAgree(s: Text, p: nat, t: Text, c: nat)
    requires StartsWithAt(s, t, p) && p <= c <= p + |t|
    requires ExponentEnd(s, c) <= p + |t|
    ensures ExponentEnd(t, c - p) == ExponentEnd(s, c) - p
  {
    IsAtAgree(s, p, t, c - p, LOWER_E);
    IsAtAgree(s, p, t, c - p, UPPER_E);
    if IsAt(s, c, LOWER_E) || IsAt(s, c, UPPER_E) {
      IsAtAgree(s, p, t, c + 1 - p, PLUS);
      IsAtAgree(s, p, t, c + 1 - p, MINUS);
      DigitsEndAgree(s, p, t, ExponentDigitsStart(s, c) - p);
    }
  }

  /**
    The scan of `parseNumber` over `s` from `p` gives the scan of `t` when `s` holds `t`
    at `p` and the scan over `s` stops within `t`: each test the scan makes at the end of
    `t` fails in `s` too, or the scan would have passed the end.
  */
  lemma {:induction false} NumberEndAgree(s: Text, p: nat, t: Text)
    requires StartsWithAt(s, t, p)
    requires NumberEnd(s, p) <= p + |t|
    ensures NumberEnd(t, 0) == NumberEnd(s, p) - p
  {
    var a := SignEnd(s, p);
    var b := DigitsEnd(s, a);
    var c := FractionEnd(s, b);
    var d := ExponentEnd(s, c);
    assert d == NumberEnd(s, p);
    SignEndAgree(s, p, t);
    assert SignEnd(t, 0) == a - p;
    DigitsEndAgree(s, p, t, a - p);
    assert DigitsEnd(t, SignEnd(t, 0)) == b - p;
    FractionEndAgree(s, p, t, b);
    assert FractionEnd(t, b - p) == c - p;
    ExponentEndAgree(s, p, t, c);
    assert ExponentEnd(t, c - p) == d - p;
  }

  /** A complete number literal at `p`, delimited after it, is scanned exactly. */
  lemma {:induction false} NumberTokenAt(s: Text, p: nat, t: Text)
    requires StartsWithAt(s, t, p) && Delimited(s, p + |t|) && IsNumberToken(t)
    ensures NumberEnd(s, p) == p + |t|
  {
    NumberSpan(s, p);
    NumberEndAgree(s, p, t);
  }

  /** What the scan of `parseNumber` reads is a complete number literal. */
  lemma {:induction false} ScannedIsToken(s: Text, i: nat)
    requires i <= |s|
    ensures IsNumberToken(s[i..NumberEnd(s, i)])
  {
    NumberEndAgree(s, i, s[i..NumberEnd(s, i)]);
  }

  /** A digit run through the end of the text. */
  lemma {:induction false} DigitsToEnd(t: Text, x: nat)
    requires x <= |t|
    requires forall k | x <= k < |t| :: IsDecimalDigit(t[k])
    ensures DigitsEnd(t, x) == |t|
    decreases |t| - x
  {
    if x < |t| {
      DigitsToEnd(t, x + 1);
    }
  }

  /** `Integer.toString` / `Long.toString` write a complete number literal without fraction or exponent. */
  lemma {:induction false} DecimalIsToken(n: int)
    ensures IsNumberToken(DecimalText(n)) && !HasFracMarker(DecimalText(n))
  {
    var t := DecimalText(n);
    DigitsToEnd(t, SignEnd(t, 0));
    assert !HasFracMarker(t) by {
      forall k | 0 <= k < |t| ensures t[k] != DOT && t[k] != LOWER_E && t[k] != UPPER_E {
      }
    }
  }

  /** `s` holds `w` from `p` on, unit by unit: `StartsWithAt` stated without a slice. */
  predicate Holds(s: Text, w: Text, p: nat)
  {
    p + |w| <= |s| && forall k | 0 <= k < |w| :: s[p + k] == w[k]
  }

  /** `Holds` is `StartsWithAt`. */
  lemma {:induction false} HoldsStartsWith(s: Text, w: Text, p: nat)
    ensures Holds(s, w, p) <==> StartsWithAt(s, w, p)
  {
    if p + |w| <= |s| {
      var t := s[p..p + |w|];
      assert forall k | 0 <= k < |w| :: t[k] == s[p + k];
    }
  }

  /** What `Holds` says about one unit. */
  lemma {:induction false} HoldsIndex(s: Text, w: Text, p: nat, x: nat)
    requires Holds(s, w, p) && x < |w|
    ensures s[p + x] == w[x]
  {
  }

  /** `s` holds `a + b` at `p`: it holds `a` at `p` and `b` right after. */
  lemma {:induction false} HoldsSplit(s: Text, p: nat, a: Text, b: Text)
    requires Holds(s, a + b, p)
    ensures Holds(s, a, p) && Holds(s, b, p + |a|)
  {
    forall k | 0 <= k < |a|
      ensures s[p + k] == a[k]
    {
      assert (a + b)[k] == a[k];
    }
    forall k | 0 <= k < |b|
      ensures s[p + |a| + k] == b[k]
    {
      assert (a + b)[|a| + k] == b[k];
    }
  }

  /** `s` holds a single unit at `m`: that unit is `s[m]`. */
  lemma {:induction false} HoldsOne(s: Text, c: Unit, m: nat)
    requires Holds(s, [c], m)
    ensures m < |s| && s[m] == c
  {
    assert [c][0] == c;
  }

  /** The loop of `parseString` reads an escaped text back, up to the closing quote. */
  lemma {:induction false} CharsRoundTrip(s: Text, p: nat, t: Text, acc: Text)
    requires Holds(s, EscapeEach(t) + [QUOTE], p)
    ensures CharsAt(s, p, acc) == Ok((acc + t, p + |EscapeEach(t)| + 1))
    decreases |t|
  {
    if t == [] {
      assert s[p] == ([] + [QUOTE])[0];
      assert acc + t == acc;
    } else {
      var e := EscapeUnit(t[0]);
      var rest := EscapeEach(t[1..]) + [QUOTE];
      assert EscapeEach(t) + [QUOTE] == e + rest;
      HoldsSplit(s, p, e, rest);
      CharsStep(s, p, t[0], acc);
      CharsRoundTrip(s, p + |e|, t[1..], acc + [t[0]]);
      assert acc + [t[0]] + t[1..] == acc + t;
    }
  }

  /** One escaped unit is read back by one turn of the loop of `parseString`. */
  lemma {:induction false} CharsStep(s: Text, p: nat, c: Unit, acc: Text)
    requires Holds(s, EscapeUnit(c), p)
    ensures CharsAt(s, p, acc) == CharsAt(s, p + |EscapeUnit(c)|, acc + [c])
  {
    var e := EscapeUnit(c);
    HoldsIndex(s, e, p, 0);
    if |e| == 2 {
      HoldsIndex(s, e, p, 1);
    }
  }

  /** `parseString` reads back what `writeValue` writes for a string. */
  lemma {:induction false} StringRoundTrip(s: Text, p: nat, t: Text, e: nat)
    requires Holds(s, Quoted(t), p) && e == p + |Quoted(t)|
    ensures p < |s| && s[p] == QUOTE && StringAt(s, p) == Ok((t, e))
  {
    assert Quoted(t) == [QUOTE] + (EscapeEach(t) + [QUOTE]);
    HoldsSplit(s, p, [QUOTE], EscapeEach(t) + [QUOTE]);
    HoldsOne(s, QUOTE, p);
    CharsRoundTrip(s, p + 1, t, []);
    assert [] + t == t;
  }

  /** A comma right after an element or entry continues the loop. */
  lemma {:induction false} SeparatorComma(s: Text, m: nat, close: Unit)
    requires m < |s| && s[m] == COMMA && (close == RBRACKET || close == RBRACE)
    ensures SeparatorAt(s, m, close) == Ok((false, m + 1))
  {
  }

  /** The closing unit right after an element or entry ends the loop. */
  lemma {:induction false} SeparatorClose(s: Text, m: nat, close: Unit)
    requires m < |s| && s[m] == close && (close == RBRACKET || close == RBRACE)
    ensures SeparatorAt(s, m, close) == Ok((true, m + 1))
  {
  }

  /** `parseValue` from `p` reads `v` and stops at `e`. */
  predicate ReadsValue(s: Text, p: nat, v: Value, e: nat)
  {
    p <= |s| && ValueAt(s, p) == Ok((v, e))
  }

  /** `parseArray` from `p` reads the list `items` and stops at `e`. */
  predicate ReadsArray(s: Text, p: nat, items: seq<Value>, e: nat)
  {
    p <= |s| && ArrayAt(s, p) == Ok((JArr(items), e))
  }

  /** `parseObject` from `p` reads the map `fields` and stops at `e`. */
  predicate ReadsObject(s: Text, p: nat, fields: seq<(Text, Value)>, e: nat)
  {
    p <= |s| && ObjectAt(s, p) == Ok((JObj(fields), e))
  }

  /** The first half of a member turn from `p` reads the entry `f` and stops at `e`. */
  predicate ReadsMember(s: Text, p: nat, f: (Text, Value), e: nat)
  {
    p <= |s| && MemberAt(s, p) == Ok((f, e))
  }

  /** The element loop from `p`, after `acc`, adds `items` and ends at `e`. */
  predicate ReadsElements(s: Text, p: nat, acc: seq<Value>, items: seq<Value>, e: nat)
  {
    p <= |s| && ElementsAt(s, p, acc) == Ok((JArr(acc + items), e))
  }

  /** The element loop from `p` after `acc` ends as it ends from `n` after `acc'`. */
  predicate ElementsResume(s: Text, p: nat, acc: seq<Value>, n: nat, acc': seq<Value>)
  {
    p <= |s| && n <= |s| && ElementsAt(s, p, acc) == ElementsAt(s, n, acc')
  }

  /** The member loop from `p`, after `acc`, adds `fields` and ends at `e`. */
  predicate ReadsMembers(s: Text, p: nat, acc: seq<(Text, Value)>, fields: seq<(Text, Value)>, e: nat)
  {
    p <= |s| && MembersAt(s, p, acc) == Ok((JObj(acc + fields), e))
  }

  /** The member loop from `p` after `acc` ends as it ends from `n` after `acc'`. */
  predicate MembersResume(s: Text, p: nat, acc: seq<(Text, Value)>, n: nat, acc': seq<(Text, Value)>)
  {
    p <= |s| && n <= |s| && MembersAt(s, p, acc) == MembersAt(s, n, acc')
  }

  /** `null` is read back by `parseValue`. */
  lemma {:induction false} NullRoundTrip(s: Text, p: nat, e: nat)
    requires Holds(s, NULL_TEXT, p) && e == p + 4
    ensures ReadsValue(s, p, JNull, e)
  {
    HoldsStartsWith(s, NULL_TEXT, p);
    assert s[p] == NULL_TEXT[0];
    ValueNull(s, p);
  }

  /** `true` and `false` are read back by `parseValue`. */
  lemma {:induction false} BooleanRoundTrip(s: Text, p: nat, b: bool, e: nat)
    requires Holds(s, Serialize(JBool(b)), p) && e == p + |Serialize(JBool(b))|
    ensures ReadsValue(s, p, JBool(b), e)
  {
    HoldsStartsWith(s, Serialize(JBool(b)), p);
    if b {
      assert s[p] == TRUE_TEXT[0];
    } else {
      assert s[p] == FALSE_TEXT[0];
      assert s[p..p + 4] != TRUE_TEXT by {
        assert s[p..p + 4][1] == FALSE_TEXT[1];
      }
    }
    ValueBoolean(s, p);
  }

  /** The number a well-formed number value is written as is classified as that value. */
  lemma {:induction false} WrittenNumberValue(v: Value)
    requires WellFormed(v) && (v.JInt? || v.JLong? || v.JFrac?)
    ensures NumberValue(Serialize(v)) == Ok(v)
  {
    match v
    case JInt(n) =>
      DecimalIsToken(n);
      ParseDecimalText(n, INT_MIN, INT_MAX);
    case JLong(n) =>
      DecimalIsToken(n);
      ParseDecimalText(n, LONG_MIN, LONG_MAX);
      ParseIntegerWithin(DecimalText(n), 10, LONG_MIN, LONG_MAX, INT_MIN, INT_MAX);
    case JFrac(t) =>
  }

  /** A number token followed by a delimiter is scanned to its end and classified. */
  lemma {:induction false} TokenRoundTrip(s: Text, p: nat, w: Text, v: Value)
    requires Holds(s, w, p) && Delimited(s, p + |w|) && IsNumberToken(w) && NumberValue(w) == Ok(v)
    ensures NumberAt(s, p) == Ok((v, p + |w|))
  {
    HoldsStartsWith(s, w, p);
    NumberTokenAt(s, p, w);
    NumberToken(s, p, w, v);
  }

  /** A number written by `writeValue` is scanned to its end and classified as it was. */
  lemma {:induction false} NumberRoundTrip(s: Text, p: nat, v: Value)
    requires WellFormed(v) && (v.JInt? || v.JLong? || v.JFrac?)
    requires Holds(s, Serialize(v), p) && Delimited(s, p + |Serialize(v)|)
    ensures NumberAt(s, p) == Ok((v, p + |Serialize(v)|))
    ensures ValueAt(s, p) == NumberAt(s, p)
  {
    WrittenNumber(v);
    TokenRoundTrip(s, p, Serialize(v), v);
    NumberHead(v);
    HoldsIndex(s, Serialize(v), p, 0);
    NumberUnitValue(s, p);
  }

  /** A number value is written as a number token that is classified as that value. */
  lemma {:induction false} WrittenNumber(v: Value)
    requires WellFormed(v) && (v.JInt? || v.JLong? || v.JFrac?)
    ensures IsNumberToken(Serialize(v)) && NumberValue(Serialize(v)) == Ok(v)
  {
    WrittenNumberValue(v);
    WrittenNumberToken(v);
  }

  /** A number value is written as a number token. */
  lemma {:induction false} WrittenNumberToken(v: Value)
    requires WellFormed(v) && (v.JInt? || v.JLong? || v.JFrac?)
    ensures IsNumberToken(Serialize(v))
  {
    match v
    case JInt(n) => DecimalIsToken(n);
    case JLong(n) => DecimalIsToken(n);
    case JFrac(t) =>
  }

  /** A number is written starting with a unit of a number. */
  lemma {:induction false} NumberHead(v: Value)
    requires WellFormed(v) && (v.JInt? || v.JLong? || v.JFrac?)
    ensures Serialize(v) != [] && IsNumberUnit(Serialize(v)[0])
  {
    var w := Serialize(v);
    if v.JFrac? {
      NumberSpan(w, 0);
    }
  }

  /**
    `parseValue` reads back what `writeValue` writes for a well-formed value, and stops
    right after it, provided what follows cannot continue a number.
  */
  lemma {:induction false} ValueRoundTrip(s: Text, p: nat, v: Value, e: nat)
    requires WellFormed(v)
    requires Holds(s, Serialize(v), p) && e == p + |Serialize(v)|
    requires (v.JInt? || v.JLong? || v.JFrac?) ==> Delimited(s, e)
    ensures ReadsValue(s, p, v, e)
    decreases v, 2
  {
    match v
    case JNull =>
      NullRoundTrip(s, p, e);
    case JBool(b) =>
      BooleanRoundTrip(s, p, b, e);
    case JStr(t) =>
      StringValueRoundTrip(s, p, t, e);
    case JArr(items) =>
      ArrayValueRoundTrip(s, p, items, e);
    case JObj(fields) =>
      ObjectValueRoundTrip(s, p, fields, e);
    case _ =>
      NumberValueRoundTrip(s, p, v, e);
  }

  /** A written string is read back by `parseValue`. */
  lemma {:induction false} StringValueRoundTrip(s: Text, p: nat, t: Text, e: nat)
    requires Holds(s, Serialize(JStr(t)), p) && e == p + |Serialize(JStr(t))|
    ensures ReadsValue(s, p, JStr(t), e)
  {
    StringRoundTrip(s, p, t, e);
    ValueString(s, p, t, e);
  }

  /** A written number is read back by `parseValue`. */
  lemma {:induction false} NumberValueRoundTrip(s: Text, p: nat, v: Value, e: nat)
    requires WellFormed(v) && (v.JInt? || v.JLong? || v.JFrac?)
    requires Holds(s, Serialize(v), p) && e == p + |Serialize(v)| && Delimited(s, e)
    ensures ReadsValue(s, p, v, e)
  {
    NumberRoundTrip(s, p, v);
  }

  /** `parseValue` hands a unit of a number to `parseNumber`. */
  lemma {:induction false} NumberUnitValue(s: Text, i: nat)
    requires i < |s| && IsNumberUnit(s[i])
    ensures ValueAt(s, i) == NumberAt(s, i)
  {
    ValueNumber(s, i);
  }

  /** A written list is read back by `parseValue`. */
  lemma {:induction false} ArrayValueRoundTrip(s: Text, p: nat, items: seq<Value>, e: nat)
    requires WellFormed(JArr(items)) && Holds(s, Serialize(JArr(items)), p) && e == p + |Serialize(JArr(items))|
    ensures ReadsValue(s, p, JArr(items), e)
    decreases items, 3
  {
    ArrayLayout(s, p, items);
    ValueArray(s, p);
    ArrayRoundTrip(s, p, items, e);
  }

  /** A written map is read back by `parseValue`. */
  lemma {:induction false} ObjectValueRoundTrip(s: Text, p: nat, fields: seq<(Text, Value)>, e: nat)
    requires WellFormed(JObj(fields)) && Holds(s, Serialize(JObj(fields)), p) && e == p + |Serialize(JObj(fields))|
    ensures ReadsValue(s, p, JObj(fields), e)
    decreases fields, 3
  {
    ObjectLayout(s, p, fields);
    ValueObject(s, p);
    assert [] + fields == fields;
    UniqueFresh([], fields);
    ObjectRoundTrip(s, p, fields, e);
  }

  /** Where a written list puts its brackets and its elements. */
  lemma {:induction false} ArrayLayout(s: Text, p: nat, items: seq<Value>)
    requires Holds(s, Serialize(JArr(items)), p)
    ensures p < |s| && s[p] == LBRACKET
    ensures Holds(s, Elements(items) + [RBRACKET], p + 1)
    ensures |Serialize(JArr(items))| == |Elements(items)| + 2
  {
    var w := Serialize(JArr(items));
    assert w == [LBRACKET] + (Elements(items) + [RBRACKET]);
    HoldsSplit(s, p, [LBRACKET], Elements(items) + [RBRACKET]);
    HoldsOne(s, LBRACKET, p);
  }

  /** `parseArray` reads back the elements of a written list, up to its `]`. */
  lemma {:induction false} ArrayRoundTrip(s: Text, p: nat, items: seq<Value>, e: nat)
    requires forall k | 0 <= k < |items| :: WellFormed(items[k])
    requires p < |s| && s[p] == LBRACKET && Holds(s, Elements(items) + [RBRACKET], p + 1)
    requires e == p + |Elements(items)| + 2
    ensures ReadsArray(s, p, items, e)
    decreases items, 2
  {
    if items == [] {
      assert Elements(items) + [RBRACKET] == [RBRACKET];
      HoldsOne(s, RBRACKET, p + 1);
      ArrayEmpty(s, p, p + 1);
    } else {
      ElementsHead(s, p + 1, items, items[0]);
      ArrayElements(s, p, p + 1);
      ElementsRoundTrip(s, p + 1, items, [], e);
      assert [] + items == items;
    }
  }

  /** The first unit of the elements of a list is neither whitespace nor `]`. */
  lemma {:induction false} ElementsHead(s: Text, p: nat, items: seq<Value>, v: Value)
    requires items != [] && items[0] == v && WellFormed(v) && Holds(s, Elements(items) + [RBRACKET], p)
    ensures p < |s| && !IsWhitespace(s[p]) && s[p] != RBRACKET
  {
    SerializeHead(v);
    assert (Elements(items) + [RBRACKET])[0] == Serialize(v)[0];
  }

  /** A written value starts with a unit that is neither whitespace nor a closing bracket or brace. */
  lemma {:induction false} SerializeHead(v: Value)
    requires WellFormed(v)
    ensures Serialize(v) != [] && !IsTrimmable(Serialize(v)[0])
    ensures Serialize(v)[0] != RBRACKET && Serialize(v)[0] != RBRACE
  {
    if v.JInt? || v.JLong? || v.JFrac? {
      NumberHead(v);
    }
  }

  /** `s` holds `a`, a separator `c` at `m` and then `b`. */
  lemma {:induction false} HoldsAround(s: Text, p: nat, a: Text, c: Unit, b: Text, m: nat)
    requires Holds(s, a + ([c] + b), p) && m == p + |a|
    ensures Holds(s, a, p) && m < |s| && s[m] == c && Holds(s, b, m + 1)
  {
    HoldsSplit(s, p, a, [c] + b);
    HoldsSplit(s, m, [c], b);
    HoldsOne(s, c, m);
  }

  /** The text of a list of more than one element: the first element, a comma, then the rest. */
  lemma {:induction false} ElementsCons(items: seq<Value>, v: Value, rest: seq<Value>)
    requires items == [v] + rest && rest != []
    ensures Elements(items) + [RBRACKET] == Serialize(v) + ([COMMA] + (Elements(rest) + [RBRACKET]))
    ensures |Elements(items)| == |Serialize(v)| + 1 + |Elements(rest)|
  {
    assert items[0] == v && items[1..] == rest;
  }

  /** The first element of a list of more than one: the element, a comma, then the rest. */
  lemma {:induction false} ElementsLayoutNext(s: Text, p: nat, items: seq<Value>, v: Value, rest: seq<Value>, m: nat)
    requires items == [v] + rest && rest != [] && Holds(s, Elements(items) + [RBRACKET], p)
    requires m == p + |Serialize(v)|
    ensures Holds(s, Serialize(v), p) && m < |s| && s[m] == COMMA
    ensures Holds(s, Elements(rest) + [RBRACKET], m + 1)
    ensures |Elements(items)| == |Serialize(v)| + 1 + |Elements(rest)|
  {
    ElementsCons(items, v, rest);
    HoldsAround(s, p, Serialize(v), COMMA, Elements(rest) + [RBRACKET], m);
  }

  /** The last element of a list: the element, then the `]`. */
  lemma {:induction false} ElementsLayoutLast(s: Text, p: nat, items: seq<Value>, v: Value, m: nat)
    requires items == [v] && Holds(s, Elements(items) + [RBRACKET], p) && m == p + |Elements(items)|
    ensures Holds(s, Serialize(v), p) && m == p + |Serialize(v)| && m < |s| && s[m] == RBRACKET
  {
    assert items[0] == v;
    HoldsSplit(s, p, Serialize(v), [RBRACKET]);
    HoldsOne(s, RBRACKET, m);
  }

  /** A turn of the element loop that reads an element ending at `m` and then a comma. */
  lemma {:induction false} ElementsTurnComma(s: Text, p: nat, v: Value, acc: seq<Value>, m: nat)
    requires ReadsValue(s, p, v, m) && m < |s| && s[m] == COMMA
    ensures ElementsResume(s, p, acc, m + 1, acc + [v])
  {
    SeparatorComma(s, m, RBRACKET);
    ElementsNext(s, p, acc, v, m, m + 1);
  }

  /**
    A turn of the element loop that reads back an element and the comma after it: the
    loop ends as it ends from the next element on.
  */
  lemma {:induction false} ElementsTurnNext(s: Text, p: nat, v: Value, acc: seq<Value>, m: nat)
    requires WellFormed(v) && Holds(s, Serialize(v), p) && m == p + |Serialize(v)|
    requires m < |s| && s[m] == COMMA
    ensures ElementsResume(s, p, acc, m + 1, acc + [v])
    decreases v, 3
  {
    ValueRoundTrip(s, p, v, m);
    ElementsTurnComma(s, p, v, acc, m);
  }

  /** A turn of the element loop that reads an element ending at `m` and then the `]`. */
  lemma {:induction false} ElementsTurnClose(s: Text, p: nat, v: Value, acc: seq<Value>, m: nat)
    requires ReadsValue(s, p, v, m) && m < |s| && s[m] == RBRACKET
    ensures ReadsElements(s, p, acc, [v], m + 1)
  {
    SeparatorClose(s, m, RBRACKET);
    ElementsClose(s, p, acc, v, m, m + 1);
  }

  /** A turn of the element loop that reads back the last element and the `]`. */
  lemma {:induction false} ElementsTurnLast(s: Text, p: nat, v: Value, acc: seq<Value>, m: nat)
    requires WellFormed(v) && Holds(s, Serialize(v), p) && m == p + |Serialize(v)|
    requires m < |s| && s[m] == RBRACKET
    ensures ReadsElements(s, p, acc, [v], m + 1)
    decreases v, 3
  {
    ValueRoundTrip(s, p, v, m);
    ElementsTurnClose(s, p, v, acc, m);
  }

  /** The last turn of the element loop reads back the last element and the `]`. */
  lemma {:induction false} ElementsLastRoundTrip(s: Text, p: nat, items: seq<Value>, v: Value, acc: seq<Value>, e: nat)
    requires items == [v] && WellFormed(v) && Holds(s, Elements(items) + [RBRACKET], p)
    requires e == p + |Elements(items)| + 1
    ensures ReadsElements(s, p, acc, items, e)
    decreases v, 4
  {
    ElementsLayoutLast(s, p, items, v, e - 1);
    ElementsTurnLast(s, p, v, acc, e - 1);
  }

  /** A turn of the element loop before the last: what it reads and where the rest of the list starts. */
  lemma {:induction false} ElementsStep(s: Text, p: nat, items: seq<Value>, v: Value, rest: seq<Value>, acc: seq<Value>, n: nat)
    requires items == [v] + rest && rest != [] && WellFormed(v)
    requires Holds(s, Elements(items) + [RBRACKET], p) && n == p + |Serialize(v)| + 1
    ensures n <= |s| && Holds(s, Elements(rest) + [RBRACKET], n)
    ensures ElementsResume(s, p, acc, n, acc + [v])
    ensures p + |Elements(items)| + 1 == n + |Elements(rest)| + 1
    decreases v, 4
  {
    ElementsLayoutNext(s, p, items, v, rest, n - 1);
    ElementsTurnNext(s, p, v, acc, n - 1);
  }

  /** The elements of a list are well-formed: the first one and the rest. */
  lemma {:induction false} ElementsRest(items: seq<Value>, v: Value, rest: seq<Value>)
    requires items != [] && v == items[0] && rest == items[1..]
    requires forall k | 0 <= k < |items| :: WellFormed(items[k])
    ensures items == [v] + rest
    ensures WellFormed(v) && forall k | 0 <= k < |rest| :: WellFormed(rest[k])
  {
    assert items == [v] + rest;
    forall k | 0 <= k < |rest|
      ensures WellFormed(rest[k])
    {
      assert rest[k] == items[k + 1];
    }
  }

  /** Two turns of the element loop that end alike, put together. */
  lemma {:induction false} ElementsChain(s: Text, p: nat, n: nat, acc: seq<Value>, v: Value, rest: seq<Value>, items: seq<Value>, e: nat)
    requires items == [v] + rest
    requires ElementsResume(s, p, acc, n, acc + [v]) && ReadsElements(s, n, acc + [v], rest, e)
    ensures ReadsElements(s, p, acc, items, e)
  {
    assert acc + [v] + rest == acc + items;
  }

  /** The element loop of `parseArray` reads back the comma-separated elements and the `]`. */
  lemma {:induction false} ElementsRoundTrip(s: Text, p: nat, items: seq<Value>, acc: seq<Value>, e: nat)
    requires items != [] && forall k | 0 <= k < |items| :: WellFormed(items[k])
    requires Holds(s, Elements(items) + [RBRACKET], p) && e == p + |Elements(items)| + 1
    ensures ReadsElements(s, p, acc, items, e)
    decreases items, 1
  {
    var v, rest := items[0], items[1..];
    ElementsRest(items, v, rest);
    if rest == [] {
      ElementsLastRoundTrip(s, p, items, v, acc, e);
    } else {
      var n := p + |Serialize(v)| + 1;
      ElementsMore(s, p, items, v, rest, acc, e, n);
    }
  }

  /** The element loop reads back a list of more than one element: one turn, then the rest. */
  lemma {:induction false} ElementsMore(s: Text, p: nat, items: seq<Value>, v: Value, rest: seq<Value>, acc: seq<Value>, e: nat, n: nat)
    requires items == [v] + rest && rest != []
    requires WellFormed(v) && forall k | 0 <= k < |rest| :: WellFormed(rest[k])
    requires Holds(s, Elements(items) + [RBRACKET], p) && e == p + |Elements(items)| + 1
    requires n == p + |Serialize(v)| + 1
    ensures ReadsElements(s, p, acc, items, e)
    decreases items, 0
  {
    ElementsStep(s, p, items, v, rest, acc, n);
    ElementsRoundTrip(s, n, rest, acc + [v], e);
    ElementsChain(s, p, n, acc, v, rest, items, e);
  }

  /** Where a written map puts its braces and its entries. */
  lemma {:induction false} ObjectLayout(s: Text, p: nat, fields: seq<(Text, Value)>)
    requires Holds(s, Serialize(JObj(fields)), p)
    ensures p < |s| && s[p] == LBRACE
    ensures Holds(s, Entries(fields) + [RBRACE], p + 1)
    ensures |Serialize(JObj(fields))| == |Entries(fields)| + 2
  {
    var w := Serialize(JObj(fields));
    assert w == [LBRACE] + (Entries(fields) + [RBRACE]);
    HoldsSplit(s, p, [LBRACE], Entries(fields) + [RBRACE]);
    HoldsOne(s, LBRACE, p);
  }

  /** `parseObject` reads back the entries of a written map, up to its `}`. */
  lemma {:induction false} ObjectRoundTrip(s: Text, p: nat, fields: seq<(Text, Value)>, e: nat)
    requires FreshKeys([], fields) && forall k | 0 <= k < |fields| :: WellFormed(fields[k].1)
    requires p < |s| && s[p] == LBRACE && Holds(s, Entries(fields) + [RBRACE], p + 1)
    requires e == p + |Entries(fields)| + 2
    ensures ReadsObject(s, p, fields, e)
    decreases fields, 2
  {
    if fields == [] {
      assert Entries(fields) + [RBRACE] == [RBRACE];
      HoldsOne(s, RBRACE, p + 1);
      ObjectEmpty(s, p, p + 1);
    } else {
      EntriesHead(s, p + 1, fields, fields[0]);
      ObjectMembers(s, p, p + 1);
      MembersRoundTrip(s, p + 1, fields, [], e);
      assert [] + fields == fields;
    }
  }

  /** The entries of a non-empty map start with the quote of the first key. */
  lemma {:induction false} EntriesHead(s: Text, p: nat, fields: seq<(Text, Value)>, f: (Text, Value))
    requires fields != [] && fields[0] == f && Holds(s, Entries(fields) + [RBRACE], p)
    ensures p < |s| && s[p] == QUOTE
  {
    assert (Entries(fields) + [RBRACE])[0] == Entry(f)[0];
  }

  /** `put` of a key the map does not hold appends the entry. */
  lemma {:induction false} PutAbsent(fields: seq<(Text, Value)>, key: Text, v: Value)
    requires forall q | 0 <= q < |fields| :: fields[q].0 != key
    ensures Put(fields, key, v) == fields + [(key, v)]
  {
    KeyIndexFirst(fields, key);
  }

  /** With the keys of `acc + fields` distinct, the first key of `fields` is not among those of `acc`. */
  lemma {:induction false} FreshKey(acc: seq<(Text, Value)>, fields: seq<(Text, Value)>, f: (Text, Value), rest: seq<(Text, Value)>)
    requires fields == [f] + rest && UniqueKeys(acc + fields)
    ensures Put(acc, f.0, f.1) == acc + [f]
    ensures UniqueKeys(acc + [f] + rest)
  {
    assert (acc + fields)[|acc|] == f;
    forall q | 0 <= q < |acc|
      ensures acc[q].0 != f.0
    {
      assert (acc + fields)[q] == acc[q];
    }
    PutAbsent(acc, f.0, f.1);
    assert acc + [f] + rest == acc + fields;
  }

  /** Each entry of `fields`, put after `acc` and the entries before it, is appended: its key is new. */
  predicate FreshKeys(acc: seq<(Text, Value)>, fields: seq<(Text, Value)>)
    decreases |fields|
  {
    fields == [] || (Put(acc, fields[0].0, fields[0].1) == acc + [fields[0]] && FreshKeys(acc + [fields[0]], fields[1..]))
  }

  /** Distinct keys are put one after another as new keys. */
  lemma {:induction false} UniqueFresh(acc: seq<(Text, Value)>, fields: seq<(Text, Value)>)
    requires UniqueKeys(acc + fields)
    ensures FreshKeys(acc, fields)
    decreases |fields|
  {
    if fields != [] {
      var f, rest := fields[0], fields[1..];
      assert fields == [f] + rest;
      FreshKey(acc, fields, f, rest);
      UniqueFresh(acc + [f], rest);
    }
  }

  /** The first entry of `fields` is put as a new key, and so are the rest after it. */
  lemma {:induction false} FreshKeysNext(acc: seq<(Text, Value)>, fields: seq<(Text, Value)>, f: (Text, Value), rest: seq<(Text, Value)>)
    requires fields != [] && f == fields[0] && rest == fields[1..] && FreshKeys(acc, fields)
    ensures fields == [f] + rest
    ensures Put(acc, f.0, f.1) == acc + [f] && FreshKeys(acc + [f], rest)
  {
    assert fields == [f] + rest;
  }

  /** The values of a map's entries are well-formed: the first one's and the rest's. */
  lemma {:induction false} MembersRest(fields: seq<(Text, Value)>, f: (Text, Value), rest: seq<(Text, Value)>)
    requires fields == [f] + rest && forall k | 0 <= k < |fields| :: WellFormed(fields[k].1)
    ensures WellFormed(f.1) && forall k | 0 <= k < |rest| :: WellFormed(rest[k].1)
  {
    assert fields[0] == f;
    forall k | 0 <= k < |rest|
      ensures WellFormed(rest[k].1)
    {
      assert rest[k] == fields[k + 1];
    }
  }

  /** The text of a map of more than one entry: the first entry, a comma, then the rest. */
  lemma {:induction false} EntriesCons(fields: seq<(Text, Value)>, f: (Text, Value), rest: seq<(Text, Value)>)
    requires fields == [f] + rest && rest != []
    ensures Entries(fields) + [RBRACE] == Entry(f) + ([COMMA] + (Entries(rest) + [RBRACE]))
    ensures |Entries(fields)| == |Entry(f)| + 1 + |Entries(rest)|
  {
    assert fields[0] == f && fields[1..] == rest;
  }

  /** The first entry of a map of more than one: the entry, a comma, then the rest. */
  lemma {:induction false} EntriesLayoutNext(s: Text, p: nat, fields: seq<(Text, Value)>, f: (Text, Value), rest: seq<(Text, Value)>, m: nat)
    requires fields == [f] + rest && rest != [] && Holds(s, Entries(fields) + [RBRACE], p)
    requires m == p + |Entry(f)|
    ensures Holds(s, Entry(f), p) && m < |s| && s[m] == COMMA
    ensures Holds(s, Entries(rest) + [RBRACE], m + 1)
    ensures |Entries(fields)| == |Entry(f)| + 1 + |Entries(rest)|
  {
    EntriesCons(fields, f, rest);
    HoldsAround(s, p, Entry(f), COMMA, Entries(rest) + [RBRACE], m);
  }

  /** The last entry of a map: the entry, then the `}`. */
  lemma {:induction false} EntriesLayoutLast(s: Text, p: nat, fields: seq<(Text, Value)>, f: (Text, Value), m: nat)
    requires fields == [f] && Holds(s, Entries(fields) + [RBRACE], p) && m == p + |Entries(fields)|
    ensures Holds(s, Entry(f), p) && m == p + |Entry(f)| && m < |s| && s[m] == RBRACE
  {
    assert fields[0] == f;
    HoldsSplit(s, p, Entry(f), [RBRACE]);
    HoldsOne(s, RBRACE, m);
  }

  /** A turn of the member loop that reads an entry ending at `m`, with a fresh key, and then a comma. */
  lemma {:induction false} MembersTurnComma(s: Text, p: nat, f: (Text, Value), acc: seq<(Text, Value)>, m: nat)
    requires ReadsMember(s, p, f, m) && m < |s| && s[m] == COMMA
    requires Put(acc, f.0, f.1) == acc + [f]
    ensures MembersResume(s, p, acc, m + 1, acc + [f])
  {
    SeparatorComma(s, m, RBRACE);
    MembersNext(s, p, acc, f.0, f.1, m, m + 1);
  }

  /** A turn of the member loop that reads back an entry with a fresh key and the comma after it. */
  lemma {:induction false} MembersTurnNext(s: Text, p: nat, f: (Text, Value), acc: seq<(Text, Value)>, m: nat)
    requires WellFormed(f.1) && Holds(s, Entry(f), p) && m == p + |Entry(f)|
    requires m < |s| && s[m] == COMMA
    requires Put(acc, f.0, f.1) == acc + [f]
    ensures MembersResume(s, p, acc, m + 1, acc + [f])
    decreases f, 3
  {
    EntryRoundTrip(s, p, f, m);
    MembersTurnComma(s, p, f, acc, m);
  }

  /** A turn of the member loop that reads an entry ending at `m`, with a fresh key, and then the `}`. */
  lemma {:induction false} MembersTurnClose(s: Text, p: nat, f: (Text, Value), acc: seq<(Text, Value)>, m: nat)
    requires ReadsMember(s, p, f, m) && m < |s| && s[m] == RBRACE
    requires Put(acc, f.0, f.1) == acc + [f]
    ensures ReadsMembers(s, p, acc, [f], m + 1)
  {
    SeparatorClose(s, m, RBRACE);
    MembersClose(s, p, acc, f.0, f.1, m, m + 1);
  }

  /** A turn of the member loop that reads back the last entry, with a fresh key, and the `}`. */
  lemma {:induction false} MembersTurnLast(s: Text, p: nat, f: (Text, Value), acc: seq<(Text, Value)>, m: nat)
    requires WellFormed(f.1) && Holds(s, Entry(f), p) && m == p + |Entry(f)|
    requires m < |s| && s[m] == RBRACE
    requires Put(acc, f.0, f.1) == acc + [f]
    ensures ReadsMembers(s, p, acc, [f], m + 1)
    decreases f, 3
  {
    EntryRoundTrip(s, p, f, m);
    MembersTurnClose(s, p, f, acc, m);
  }

  /** The last turn of the member loop reads back the last entry and the `}`. */
  lemma {:induction false} MembersLastRoundTrip(s: Text, p: nat, fields: seq<(Text, Value)>, f: (Text, Value), acc: seq<(Text, Value)>, e: nat)
    requires fields == [f] && WellFormed(f.1) && Put(acc, f.0, f.1) == acc + [f]
    requires Holds(s, Entries(fields) + [RBRACE], p) && e == p + |Entries(fields)| + 1
    ensures ReadsMembers(s, p, acc, fields, e)
    decreases f, 4
  {
    EntriesLayoutLast(s, p, fields, f, e - 1);
    MembersTurnLast(s, p, f, acc, e - 1);
  }

  /** A turn of the member loop before the last: what it reads and where the rest of the map starts. */
  lemma {:induction false} MembersStep(s: Text, p: nat, fields: seq<(Text, Value)>, f: (Text, Value), rest: seq<(Text, Value)>, acc: seq<(Text, Value)>, n: nat)
    requires fields == [f] + rest && rest != [] && WellFormed(f.1) && Put(acc, f.0, f.1) == acc + [f]
    requires Holds(s, Entries(fields) + [RBRACE], p) && n == p + |Entry(f)| + 1
    ensures n <= |s| && Holds(s, Entries(rest) + [RBRACE], n)
    ensures MembersResume(s, p, acc, n, acc + [f])
    ensures p + |Entries(fields)| + 1 == n + |Entries(rest)| + 1
    decreases f, 4
  {
    EntriesLayoutNext(s, p, fields, f, rest, n - 1);
    MembersTurnNext(s, p, f, acc, n - 1);
  }

  /** Two turns of the member loop that end alike, put together. */
  lemma {:induction false} MembersChain(s: Text, p: nat, n: nat, acc: seq<(Text, Value)>, f: (Text, Value), rest: seq<(Text, Value)>, fields: seq<(Text, Value)>, e: nat)
    requires fields == [f] + rest
    requires MembersResume(s, p, acc, n, acc + [f]) && ReadsMembers(s, n, acc + [f], rest, e)
    ensures ReadsMembers(s, p, acc, fields, e)
  {
    assert acc + [f] + rest == acc + fields;
  }

  /** The member loop of `parseObject` reads back the comma-separated entries and the `}`. */
  lemma {:induction false} MembersRoundTrip(s: Text, p: nat, fields: seq<(Text, Value)>, acc: seq<(Text, Value)>, e: nat)
    requires fields != [] && FreshKeys(acc, fields)
    requires forall k | 0 <= k < |fields| :: WellFormed(fields[k].1)
    requires Holds(s, Entries(fields) + [RBRACE], p) && e == p + |Entries(fields)| + 1
    ensures ReadsMembers(s, p, acc, fields, e)
    decreases fields, 1
  {
    var f, rest := fields[0], fields[1..];
    FreshKeysNext(acc, fields, f, rest);
    MembersRest(fields, f, rest);
    if rest == [] {
      MembersLastRoundTrip(s, p, fields, f, acc, e);
    } else {
      var n := p + |Entry(f)| + 1;
      MembersMore(s, p, fields, f, rest, acc, e, n);
    }
  }

  /** The member loop reads back a map of more than one entry: one turn, then the rest. */
  lemma {:induction false} MembersMore(s: Text, p: nat, fields: seq<(Text, Value)>, f: (Text, Value), rest: seq<(Text, Value)>, acc: seq<(Text, Value)>, e: nat, n: nat)
    requires fields == [f] + rest && rest != []
    requires Put(acc, f.0, f.1) == acc + [f] && FreshKeys(acc + [f], rest)
    requires WellFormed(f.1) && forall k | 0 <= k < |rest| :: WellFormed(rest[k].1)
    requires Holds(s, Entries(fields) + [RBRACE], p) && e == p + |Entries(fields)| + 1
    requires n == p + |Entry(f)| + 1
    ensures ReadsMembers(s, p, acc, fields, e)
    decreases fields, 0
  {
    MembersStep(s, p, fields, f, rest, acc, n);
    MembersRoundTrip(s, n, rest, acc + [f], e);
    MembersChain(s, p, n, acc, f, rest, fields, e);
  }

  /** Where a written entry puts its key, its colon and its value. */
  lemma {:induction false} EntryLayout(s: Text, p: nat, f: (Text, Value))
    requires Holds(s, Entry(f), p)
    ensures var k := p + |Quoted(f.0)|;
      && Holds(s, Quoted(f.0), p) && s[p] == QUOTE && k < |s| && s[k] == COLON
      && Holds(s, Serialize(f.1), k + 1) && |Entry(f)| == |Quoted(f.0)| + 1 + |Serialize(f.1)|
  {
    var q := Quoted(f.0);
    assert Entry(f) == q + ([COLON] + Serialize(f.1));
    HoldsSplit(s, p, q, [COLON] + Serialize(f.1));
    HoldsSplit(s, p + |q|, [COLON], Serialize(f.1));
    HoldsIndex(s, q, p, 0);
    HoldsOne(s, COLON, p + |q|);
  }

  /** The first half of a member turn reads back one entry: key, colon, value. */
  lemma {:induction false} EntryRoundTrip(s: Text, p: nat, f: (Text, Value), e: nat)
    requires WellFormed(f.1)
    requires Holds(s, Entry(f), p) && e == p + |Entry(f)| && Delimited(s, e)
    ensures ReadsMember(s, p, f, e)
    decreases f, 2
  {
    EntryLayout(s, p, f);
    EntryParts(s, p, f, p + |Quoted(f.0)|, e);
  }

  /** A written key up to `k`, a colon and a written value up to `e` are read back as one entry. */
  lemma {:induction false} EntryParts(s: Text, p: nat, f: (Text, Value), k: nat, e: nat)
    requires WellFormed(f.1)
    requires Holds(s, Quoted(f.0), p) && k == p + |Quoted(f.0)| && k < |s| && s[k] == COLON
    requires Holds(s, Serialize(f.1), k + 1) && e == k + 1 + |Serialize(f.1)| && Delimited(s, e)
    ensures ReadsMember(s, p, f, e)
    decreases f, 1
  {
    StringRoundTrip(s, p, f.0, k);
    ValueRoundTrip(s, k + 1, f.1, e);
    EntryRead(s, p, f, k, e);
  }

  /** An entry read as its key up to `k`, its colon and its value up to `e`. */
  lemma {:induction false} EntryRead(s: Text, p: nat, f: (Text, Value), k: nat, e: nat)
    requires p < |s| && s[p] == QUOTE && StringAt(s, p) == Ok((f.0, k))
    requires k < |s| && s[k] == COLON && ReadsValue(s, k + 1, f.1, e)
    ensures ReadsMember(s, p, f, e)
  {
    MemberRead(s, p, f.0, k, f.1, e);
  }

  /** A written value ends with a unit `String.trim` keeps. */
  lemma {:induction false} SerializeLast(v: Value)
    requires WellFormed(v)
    ensures Serialize(v) != [] && !IsTrimmable(Serialize(v)[|Serialize(v)| - 1])
  {
    var w := Serialize(v);
    match v
    case JNull =>
    case JBool(b) =>
    case JInt(n) =>
    case JLong(n) =>
    case JFrac(t) =>
      NumberSpan(t, 0);
    case JStr(t) =>
      assert w[|w| - 1] == QUOTE;
    case JArr(items) =>
      assert w[|w| - 1] == RBRACKET;
    case JObj(fields) =>
      assert w[|w| - 1] == RBRACE;
  }

  /** `parse(stringify(v))` is `v` for every value `parse` can produce. */
  lemma {:induction false} DecodeRoundTrip(v: Value)
    requires WellFormed(v)
    ensures Decode(Some(Serialize(v))) == Ok(v)
  {
    var s := Serialize(v);
    SerializeHead(v);
    SerializeLast(v);
    assert Trim(s) == s;
    assert Holds(s, s, 0);
    ValueRoundTrip(s, 0, v, |s|);
  }
}
