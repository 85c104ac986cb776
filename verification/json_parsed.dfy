/**
  The values `parse` produces are well-formed, so writing a parsed value and parsing it
  again gives the same value, in the model, where a fraction is kept as its literal text:
  `parse(stringify(parse(x))) == parse(x)`.
*/
module JsonParsed {
  import opened JavaLang
  import opened JsonValue
  import opened JsonGrammar
  import opened JsonWriter
  import opened JsonRoundTrip

  /** Every value of the sequence is well-formed. */
  predicate AllWellFormed(items: seq<Value>)
  {
    forall k | 0 <= k < |items| :: WellFormed(items[k])
  }

  /** The keys are unique and every value is well-formed: what a parsed map holds. */
  predicate FieldsWellFormed(fields: seq<(Text, Value)>)
  {
    UniqueKeys(fields) && forall k | 0 <= k < |fields| :: WellFormed(fields[k].1)
  }

  /** `put` of a well-formed value keeps a map's keys unique and its values well-formed. */
  lemma {:induction false} PutWellFormed(fields: seq<(Text, Value)>, key: Text, v: Value)
    requires FieldsWellFormed(fields) && WellFormed(v)
    ensures FieldsWellFormed(Put(fields, key, v))
  {
    PutKeys(fields, key, v);
  }

  /** `parseNumber` makes a `Long` only outside the `int` range and a `Double` only from a complete literal with a marker. */
  lemma {:induction false} NumberWellFormed(s: Text, i: nat)
    requires i <= |s| && NumberAt(s, i).Ok?
    ensures WellFormed(NumberAt(s, i).value.0)
  {
    var token := s[i..NumberEnd(s, i)];
    ScannedIsToken(s, i);
    var v := NumberAt(s, i).value.0;
    assert NumberValue(token) == Ok(v);
    if v.JLong? {
      ParseIntegerWithin(token, 10, LONG_MIN, LONG_MAX, INT_MIN, INT_MAX);
    }
  }

  /** What `parseValue` returns is well-formed. */
  lemma {:induction false} ValueWellFormed(s: Text, i: nat)
    requires i <= |s| && ValueAt(s, i).Ok?
    ensures WellFormed(ValueAt(s, i).value.0)
    decreases |s| - i, 2
  {
    var j := SkipWs(s, i);
    if s[j] == LBRACE {
      ObjectWellFormed(s, j);
    } else if s[j] == LBRACKET {
      ArrayWellFormed(s, j);
    } else if s[j] != QUOTE && s[j] != LOWER_T && s[j] != LOWER_F && s[j] != LOWER_N {
      NumberWellFormed(s, j);
    }
  }

  /** What `parseObject` returns is well-formed. */
  lemma {:induction false} ObjectWellFormed(s: Text, i: nat)
    requires i <= |s| && ObjectAt(s, i).Ok?
    ensures WellFormed(ObjectAt(s, i).value.0)
    decreases |s| - i, 1
  {
    var j := SkipWs(s, i + 1);
    if !IsAt(s, j, RBRACE) {
      MembersWellFormed(s, j, []);
    }
  }

  /** The member loop of `parseObject`, started on a well-formed map, ends with one. */
  lemma {:induction false} MembersWellFormed(s: Text, i: nat, fields: seq<(Text, Value)>)
    requires i <= |s| && FieldsWellFormed(fields) && MembersAt(s, i, fields).Ok?
    ensures WellFormed(MembersAt(s, i, fields).value.0)
    decreases |s| - i, 1
  {
    var ((key, v), m) := MemberAt(s, i).value;
    MemberWellFormed(s, i);
    PutWellFormed(fields, key, v);
    var (closed, n) := SeparatorAt(s, m, RBRACE).value;
    if !closed {
      MembersWellFormed(s, n, Put(fields, key, v));
    }
  }

  /** The value of a member is well-formed. */
  lemma {:induction false} MemberWellFormed(s: Text, i: nat)
    requires i <= |s| && MemberAt(s, i).Ok?
    ensures WellFormed(MemberAt(s, i).value.0.1)
    decreases |s| - i, 0
  {
    var (key, k) := StringAt(s, SkipWs(s, i)).value;
    ValueWellFormed(s, SkipWs(s, k) + 1);
  }

  /** What `parseArray` returns is well-formed. */
  lemma {:induction false} ArrayWellFormed(s: Text, i: nat)
    requires i <= |s| && ArrayAt(s, i).Ok?
    ensures WellFormed(ArrayAt(s, i).value.0)
    decreases |s| - i, 1
  {
    var j := SkipWs(s, i + 1);
    if !IsAt(s, j, RBRACKET) {
      ElementsWellFormed(s, j, []);
    }
  }

  /** The element loop of `parseArray`, started on well-formed elements, ends with a well-formed list. */
  lemma {:induction false} ElementsWellFormed(s: Text, i: nat, items: seq<Value>)
    requires i <= |s| && AllWellFormed(items) && ElementsAt(s, i, items).Ok?
    ensures WellFormed(ElementsAt(s, i, items).value.0)
    decreases |s| - i, 3
  {
    var (v, m) := ValueAt(s, i).value;
    ValueWellFormed(s, i);
    var (closed, n) := SeparatorAt(s, m, RBRACKET).value;
    assert AllWellFormed(items + [v]);
    if !closed {
      ElementsWellFormed(s, n, items + [v]);
    }
  }

  /** `parse` only produces well-formed values. */
  lemma {:induction false} DecodedWellFormed(json: Option<Text>)
    requires Decode(json).Ok?
    ensures WellFormed(Decode(json).value)
  {
    if json.Some? {
      ValueWellFormed(Trim(json.value), 0);
    }
  }

  /** Writing what `parse` read and parsing it again gives the same value. */
  lemma {:induction false} ReparseIdempotent(json: Option<Text>)
    requires Decode(json).Ok?
    ensures Decode(Some(Serialize(Decode(json).value))) == Decode(json)
  {
    DecodedWellFormed(json);
    DecodeRoundTrip(Decode(json).value);
  }
}
