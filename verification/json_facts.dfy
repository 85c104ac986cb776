/**
  The behaviour of `JsonUtil.parse` and `JsonUtil.parseObject` on particular inputs:
  blank input, trailing data, payloads that are not objects, empty containers, repeated
  keys, escapes, the three literals and the classification of numbers.
*/
module JsonFacts {
  import opened JavaLang
  import opened JsonValue
  import opened JsonGrammar
  import opened JsonWriter
  import opened JsonRoundTrip

  /** `skipWhitespace` from `i` passes a whitespace run and stops at `n`, the first unit that is not whitespace. */
  lemma {:induction false} SkipWsOver(s: Text, i: nat, n: nat)
    requires i <= n <= |s|
    requires forall k | i <= k < n :: IsWhitespace(s[k])
    requires n == |s| || !IsWhitespace(s[n])
    ensures SkipWs(s, i) == n
    decreases n - i
  {
    if i < n {
      SkipWsOver(s, i + 1, n);
    }
  }

  /** `trim` keeps a text that starts and ends with units above U+0020. */
  lemma {:induction false} TrimKeeps(s: Text)
    requires s != [] && !IsTrimmable(s[0]) && !IsTrimmable(s[|s| - 1])
    ensures Trim(s) == s
  {
  }

  /** The trailing cut of `trim` stops at the end of a head whose last unit it keeps. */
  lemma {:induction false} TrimEndAfter(h: Text, t: Text)
    requires h != [] && !IsTrimmable(h[|h| - 1])
    ensures TrimEnd(h + t, 0) == |h| + TrimEnd(t, 0)
    decreases |t|
  {
    if t == [] {
      assert h + t == h;
    } else if IsTrimmable(t[|t| - 1]) {
      assert (h + t)[..|h + t| - 1] == h + t[..|t| - 1];
      TrimEndAfter(h, t[..|t| - 1]);
    }
  }

  /**
    `trim` of a text that starts with a head bounded by units above U+0020 keeps the head
    and cuts only the trailing units up to U+0020 of the rest.
  */
  lemma {:induction false} TrimAfter(h: Text, t: Text)
    requires h != [] && !IsTrimmable(h[0]) && !IsTrimmable(h[|h| - 1])
    ensures TrimEnd(t, 0) <= |t| && Trim(h + t) == h + t[..TrimEnd(t, 0)]
  {
    assert (h + t)[0] == h[0];
    assert TrimStart(h + t) == 0;
    TrimEndAfter(h, t);
    assert (h + t)[0..|h| + TrimEnd(t, 0)] == h + t[..TrimEnd(t, 0)];
  }

  /** What `trim` keeps of a text is a part of it. */
  lemma {:induction false} TrimWithin(t: Text)
    ensures forall k | 0 <= k < |Trim(t)| :: Trim(t)[k] in t
  {
    var a := TrimStart(t);
    var b := TrimEnd(t, a);
    forall k | 0 <= k < |Trim(t)|
      ensures Trim(t)[k] in t
    {
      assert Trim(t)[k] == t[a + k];
    }
  }

  /** Empty or whitespace-only input fails with "Unexpected end of JSON input". */
  lemma {:induction false} BlankInput(t: Text)
    requires forall k | 0 <= k < |t| :: IsWhitespace(t[k])
    ensures Decode(Some(t)) == Err(UnexpectedEnd)
  {
    var s := Trim(t);
    TrimWithin(t);
    SkipWsOver(s, 0, |s|);
  }

  /**
    A written value followed by a tail that is not only whitespace fails as trailing data:
    the tail may start with whitespace, its first other unit must survive `trim`, and after
    a number the tail must not start with a unit that would continue it.
  */
  lemma {:induction false} TrailingInput(v: Value, tail: Text, n: nat)
    requires WellFormed(v)
    requires n < TrimEnd(tail, 0) && !IsWhitespace(tail[n]) && forall k | 0 <= k < n :: IsWhitespace(tail[k])
    requires (v.JInt? || v.JLong? || v.JFrac?) ==> !IsNumberUnit(tail[0])
    ensures Decode(Some(Serialize(v) + tail)) == Err(TrailingData)
  {
    var w := Serialize(v);
    SerializeHead(v);
    SerializeLast(v);
    TrimAfter(w, tail);
    var u := tail[..TrimEnd(tail, 0)];
    var s := w + u;
    assert Holds(s, w, 0);
    assert s[|w|] == tail[0];
    ValueRoundTrip(s, 0, v, |w|);
    TrailingStop(s, |w|, u, n);
  }

  /** After the value, `skipWhitespace` stops inside the tail. */
  lemma {:induction false} TrailingStop(s: Text, e: nat, tail: Text, n: nat)
    requires e + |tail| == |s| && forall k | 0 <= k < |tail| :: s[e + k] == tail[k]
    requires n < |tail| && !IsWhitespace(tail[n]) && forall k | 0 <= k < n :: IsWhitespace(tail[k])
    ensures SkipWs(s, e) == e + n < |s|
  {
    forall k | e <= k < e + n
      ensures IsWhitespace(s[k])
    {
      assert s[k] == tail[k - e];
    }
    assert s[e + n] == tail[n];
    SkipWsOver(s, e, e + n);
  }

  /** `parseObject(null)` fails: `parse(null)` is `null`, which is not a map. */
  lemma {:induction false} NullNotAnObject()
    ensures Decode(None) == Ok(JNull)
    ensures DecodeObject(None) == Err(NotAnObject)
  {
  }

  /** `parseObject` rejects a written list, string, number, boolean or `null`. */
  lemma {:induction false} WrittenNotAnObject(v: Value)
    requires WellFormed(v) && !v.JObj?
    ensures DecodeObject(Some(Serialize(v))) == Err(NotAnObject)
  {
    DecodeRoundTrip(v);
  }

  /** `parseObject` accepts a written map and returns its entries in order. */
  lemma {:induction false} WrittenObject(fields: seq<(Text, Value)>)
    requires WellFormed(JObj(fields))
    ensures DecodeObject(Some(Serialize(JObj(fields)))) == Ok(fields)
  {
    DecodeRoundTrip(JObj(fields));
  }

  /** `{`, whitespace, `}` parses to an empty map, and `[`, whitespace, `]` to an empty list. */
  lemma {:induction false} EmptyContainers(ws: Text)
    requires forall k | 0 <= k < |ws| :: IsWhitespace(ws[k])
    ensures Decode(Some([LBRACE] + ws + [RBRACE])) == Ok(JObj([]))
    ensures Decode(Some([LBRACKET] + ws + [RBRACKET])) == Ok(JArr([]))
  {
    EmptyObject(ws);
    EmptyArray(ws);
  }

  /** `{`, whitespace, `}` parses to an empty map. */
  lemma {:induction false} EmptyObject(ws: Text)
    requires forall k | 0 <= k < |ws| :: IsWhitespace(ws[k])
    ensures Decode(Some([LBRACE] + ws + [RBRACE])) == Ok(JObj([]))
  {
    var s := [LBRACE] + ws + [RBRACE];
    var n := |ws| + 1;
    assert s[0] == LBRACE && s[n] == RBRACE;
    TrimKeeps(s);
    forall k | 1 <= k < n
      ensures IsWhitespace(s[k])
    {
      assert s[k] == ws[k - 1];
    }
    SkipWsOver(s, 1, n);
    ObjectEmpty(s, 0, n);
    ValueObject(s, 0);
  }

  /** `[`, whitespace, `]` parses to an empty list. */
  lemma {:induction false} EmptyArray(ws: Text)
    requires forall k | 0 <= k < |ws| :: IsWhitespace(ws[k])
    ensures Decode(Some([LBRACKET] + ws + [RBRACKET])) == Ok(JArr([]))
  {
    var s := [LBRACKET] + ws + [RBRACKET];
    var n := |ws| + 1;
    assert s[0] == LBRACKET && s[n] == RBRACKET;
    TrimKeeps(s);
    forall k | 1 <= k < n
      ensures IsWhitespace(s[k])
    {
      assert s[k] == ws[k - 1];
    }
    SkipWsOver(s, 1, n);
    ArrayEmpty(s, 0, n);
    ValueArray(s, 0);
  }

  /** The last turn of the member loop puts the last entry into what it holds and reads the `}`. */
  lemma {:induction false} MembersLastPut(s: Text, p: nat, f: (Text, Value), acc: seq<(Text, Value)>, e: nat)
    requires WellFormed(f.1) && Holds(s, Entries([f]) + [RBRACE], p) && e == p + |Entries([f])| + 1
    ensures p <= |s| && MembersAt(s, p, acc) == Ok((JObj(Put(acc, f.0, f.1)), e))
  {
    EntriesLayoutLast(s, p, [f], f, e - 1);
    EntryRoundTrip(s, p, f, e - 1);
    SeparatorClose(s, e - 1, RBRACE);
    MembersClose(s, p, acc, f.0, f.1, e - 1, e);
  }

  /** `put` of `(k, v1)`, `(j, w)`, `(k, v2)` in turn: two new keys appended, then the first value replaced. */
  lemma {:induction false} RepeatedPuts(k: Text, j: Text, v1: Value, w: Value, v2: Value)
    requires k != j
    ensures Put([], k, v1) == [(k, v1)]
    ensures Put([(k, v1)], j, w) == [(k, v1), (j, w)]
    ensures Put([(k, v1), (j, w)], k, v2) == [(k, v2), (j, w)]
  {
    assert KeyIndex([(k, v1)], j) == None by {
      assert [(k, v1)][1..] == [];
    }
  }

  /** The first turn of the member loop over `f1`, `f2`, `f3`. */
  lemma {:induction false} FirstOfThree(s: Text, f1: (Text, Value), f2: (Text, Value), f3: (Text, Value), n: nat)
    requires WellFormed(f1.1) && Put([], f1.0, f1.1) == [f1]
    requires Holds(s, Entries([f1, f2, f3]) + [RBRACE], 1) && n == 1 + |Entry(f1)| + 1
    ensures MembersResume(s, 1, [], n, [f1])
    ensures Holds(s, Entries([f2, f3]) + [RBRACE], n)
    ensures 1 + |Entries([f1, f2, f3])| == n + |Entries([f2, f3])|
  {
    assert [f1, f2, f3] == [f1] + [f2, f3];
    assert [] + [f1] == [f1];
    MembersStep(s, 1, [f1, f2, f3], f1, [f2, f3], [], n);
  }

  /** The second turn of the member loop over `f1`, `f2`, `f3`. */
  lemma {:induction false} SecondOfThree(s: Text, p: nat, f1: (Text, Value), f2: (Text, Value), f3: (Text, Value), n: nat)
    requires WellFormed(f2.1) && Put([f1], f2.0, f2.1) == [f1, f2]
    requires Holds(s, Entries([f2, f3]) + [RBRACE], p) && n == p + |Entry(f2)| + 1
    ensures MembersResume(s, p, [f1], n, [f1, f2])
    ensures Holds(s, Entries([f3]) + [RBRACE], n)
    ensures p + |Entries([f2, f3])| == n + |Entries([f3])|
  {
    assert [f2, f3] == [f2] + [f3];
    assert [f1] + [f2] == [f1, f2];
    MembersStep(s, p, [f2, f3], f2, [f3], [f1], n);
  }

  /** The member loop over `(k, v1)`, `(j, w)`, `(k, v2)`: the second `k` replaces the value of the first. */
  lemma {:induction false} RepeatedKeyMembers(s: Text, k: Text, j: Text, v1: Value, w: Value, v2: Value, e: nat)
    requires k != j && WellFormed(v1) && WellFormed(w) && WellFormed(v2)
    requires Holds(s, Entries([(k, v1), (j, w), (k, v2)]) + [RBRACE], 1)
    requires e == 1 + |Entries([(k, v1), (j, w), (k, v2)])| + 1
    ensures 1 <= |s| && MembersAt(s, 1, []) == Ok((JObj([(k, v2), (j, w)]), e))
  {
    var f1, f2, f3 := (k, v1), (j, w), (k, v2);
    RepeatedPuts(k, j, v1, w, v2);
    var n1 := 1 + |Entry(f1)| + 1;
    FirstOfThree(s, f1, f2, f3, n1);
    var n2 := n1 + |Entry(f2)| + 1;
    SecondOfThree(s, n1, f1, f2, f3, n2);
    MembersLastPut(s, n2, f3, [f1, f2], e);
  }

  /**
    A repeated key inside an object: the later value replaces the earlier one, and the key
    keeps the position of its first occurrence.
  */
  lemma {:induction false} RepeatedKey(k: Text, j: Text, v1: Value, w: Value, v2: Value)
    requires k != j && WellFormed(v1) && WellFormed(w) && WellFormed(v2)
    ensures Decode(Some(Serialize(JObj([(k, v1), (j, w), (k, v2)])))) == Ok(JObj([(k, v2), (j, w)]))
  {
    var fields := [(k, v1), (j, w), (k, v2)];
    var s := Serialize(JObj(fields));
    assert Holds(s, s, 0);
    ObjectLayout(s, 0, fields);
    assert s[|s| - 1] == RBRACE;
    TrimKeeps(s);
    EntriesHead(s, 1, fields, fields[0]);
    ObjectMembers(s, 0, 1);
    RepeatedKeyMembers(s, k, j, v1, w, v2, |s|);
    ValueObject(s, 0);
  }

  /**
    A string holding one escape: each of `\" \\ \/ \b \f \n \r \t` decodes to its single unit,
    `\u` with fewer than four units left fails as incomplete, and any other escape unit fails.
  */
  lemma {:induction false} OneEscape(esc: Unit)
    ensures Decode(Some([QUOTE, BACKSLASH, esc, QUOTE])) ==
      match EscapedUnit(esc)
      case Some(c) => Ok(JStr([c]))
      case None => if esc == LOWER_U then Err(IncompleteUnicode) else Err(UnknownEscape(esc))
  {
    var s := [QUOTE, BACKSLASH, esc, QUOTE];
    TrimKeeps(s);
    assert SkipWs(s, 0) == 0;
    match EscapedUnit(esc)
    case Some(c) =>
      assert CharsAt(s, 3, [c]) == Ok(([c], 4));
      assert CharsAt(s, 1, []) == CharsAt(s, 3, [] + [c]);
      assert [] + [c] == [c];
      ValueString(s, 0, [c], 4);
    case None =>
  }

  /** A backslash at the end of the input fails as an invalid escape. */
  lemma {:induction false} BackslashAtEnd()
    ensures Decode(Some([QUOTE, BACKSLASH])) == Err(InvalidEscape)
  {
    var s := [QUOTE, BACKSLASH];
    TrimKeeps(s);
    assert SkipWs(s, 0) == 0;
  }

  /** Plain units up to the end of input, with no closing quote, are all kept by the loop of `parseString`. */
  lemma {:induction false} PlainToEnd(s: Text, i: nat, acc: Text)
    requires i <= |s| && forall k | i <= k < |s| :: s[k] != QUOTE && s[k] != BACKSLASH
    ensures CharsAt(s, i, acc) == Ok((acc + s[i..], |s|))
    decreases |s| - i
  {
    if i < |s| {
      assert s[i] != QUOTE && s[i] != BACKSLASH;
      assert CharsAt(s, i, acc) == CharsAt(s, i + 1, acc + [s[i]]);
      PlainToEnd(s, i + 1, acc + [s[i]]);
      assert acc + [s[i]] + s[i + 1..] == acc + s[i..];
    } else {
      assert acc + s[i..] == acc;
    }
  }

  /**
    A string whose closing quote is missing ends at the end of input and is accepted; it
    holds the text up to the units `trim` cut from the end of the input.
  */
  lemma {:induction false} UnterminatedString(t: Text)
    requires forall k | 0 <= k < |t| :: t[k] != QUOTE && t[k] != BACKSLASH
    ensures Decode(Some([QUOTE] + t)) == Ok(JStr(t[..TrimEnd(t, 0)]))
    ensures (t == [] || !IsTrimmable(t[|t| - 1])) ==> Decode(Some([QUOTE] + t)) == Ok(JStr(t))
  {
    var u := t[..TrimEnd(t, 0)];
    TrimAfter([QUOTE], t);
    var s := [QUOTE] + u;
    assert s[0] == QUOTE;
    assert SkipWs(s, 0) == 0;
    PlainToEnd(s, 1, []);
    assert s[1..] == u;
    assert [] + u == u;
    ValueString(s, 0, u, |s|);
    if t == [] || !IsTrimmable(t[|t| - 1]) {
      assert u == t;
    }
  }

  /** A `\u` escape of four hexadecimal digits decodes to the unit they denote. */
  lemma {:induction false} UnicodeEscape(h: Text)
    requires |h| == 4 && AllDigits(h, 16)
    ensures NumeralValue(h, 16) < 0x1_0000
    ensures Decode(Some([QUOTE, BACKSLASH, LOWER_U] + h + [QUOTE])) == Ok(JStr([NumeralValue(h, 16) as Unit]))
  {
    var s := [QUOTE, BACKSLASH, LOWER_U] + h + [QUOTE];
    assert s[0] == QUOTE && s[|s| - 1] == QUOTE && s[1] == BACKSLASH && s[2] == LOWER_U;
    TrimKeeps(s);
    assert SkipWs(s, 0) == 0;
    assert s[3..7] == h;
    HexBelow(h);
    assert UnicodeAt(s, 3) == Ok((NumeralValue(h, 16), 7));
    var c := NumeralValue(h, 16) as Unit;
    assert CharsAt(s, 7, [c]) == Ok(([c], 8));
    assert CharsAt(s, 1, []) == CharsAt(s, 7, [] + [c]);
    assert [] + [c] == [c];
    ValueString(s, 0, [c], 8);
  }

  /** Four hexadecimal digits denote a UTF-16 code unit. */
  lemma {:induction false} HexBelow(h: Text)
    requires |h| == 4 && AllDigits(h, 16)
    ensures NumeralValue(h, 16) < 0x1_0000
  {
    var h3, h2, h1 := h[..3], h[..2], h[..1];
    assert h3[..2] == h2 && h2[..1] == h1 && h1[..0] == [];
    assert NumeralValue(h1, 16) < 16;
    assert NumeralValue(h2, 16) < 0x100;
    assert NumeralValue(h3, 16) < 0x1000;
  }

  /**
    `parseUnicode` hands its four units to `Integer.parseInt(hex, 16)`, which also takes a
    sign: `\u-001` decodes to U+FFFF, the `char` cast of -1.
  */
  lemma {:induction false} SignedUnicodeEscape()
    ensures Decode(Some([QUOTE, BACKSLASH, LOWER_U, MINUS, 0x30, 0x30, 0x31, QUOTE])) == Ok(JStr([0xFFFF]))
  {
    var s: Text := [QUOTE, BACKSLASH, LOWER_U, MINUS, 0x30, 0x30, 0x31, QUOTE];
    TrimKeeps(s);
    assert SkipWs(s, 0) == 0;
    var hex: Text := [MINUS, 0x30, 0x30, 0x31];
    assert s[3..7] == hex;
    var ds := hex[1..];
    assert [0x30][..0] == [] && [0x30, 0x30][..1] == [0x30] && ds[..2] == [0x30, 0x30];
    assert NumeralValue([0x30], 16) == 0;
    assert NumeralValue([0x30, 0x30], 16) == 0;
    assert NumeralValue(ds, 16) == 1;
    assert ParseInteger(hex, 16, INT_MIN, INT_MAX) == Some(-1);
    assert UnicodeAt(s, 3) == Ok((0xFFFF, 7));
    assert CharsAt(s, 7, [0xFFFF]) == Ok(([0xFFFF], 8));
    assert CharsAt(s, 1, []) == CharsAt(s, 7, [] + [0xFFFF]);
    assert [] + [0xFFFF] == [0xFFFF];
    ValueString(s, 0, [0xFFFF], 8);
  }

  /** A `\u` escape with fewer than four units left in the input fails as incomplete. */
  lemma {:induction false} UnicodeIncomplete(rest: Text)
    requires |rest| < 4
    ensures Decode(Some([QUOTE, BACKSLASH, LOWER_U] + rest)) == Err(IncompleteUnicode)
  {
    var h := [QUOTE, BACKSLASH, LOWER_U];
    TrimAfter(h, rest);
    var s := h + rest[..TrimEnd(rest, 0)];
    assert s[0] == QUOTE && s[1] == BACKSLASH && s[2] == LOWER_U && |s| < 7;
    assert SkipWs(s, 0) == 0;
    assert UnicodeAt(s, 3) == Err(IncompleteUnicode);
    assert CharsAt(s, 1, []) == Err(IncompleteUnicode);
    assert StringAt(s, 0) == Err(IncompleteUnicode);
  }

  /** A `\u` escape whose four units `Integer.parseInt(hex, 16)` rejects fails with its exception. */
  lemma {:induction false} UnicodeNotHex(h: Text)
    requires |h| == 4 && ParseInteger(h, 16, INT_MIN, INT_MAX).None?
    ensures Decode(Some([QUOTE, BACKSLASH, LOWER_U] + h + [QUOTE])) == Err(NumberFormat(h, 16))
  {
    var s := [QUOTE, BACKSLASH, LOWER_U] + h + [QUOTE];
    assert s[0] == QUOTE && s[|s| - 1] == QUOTE && s[1] == BACKSLASH && s[2] == LOWER_U;
    TrimKeeps(s);
    assert SkipWs(s, 0) == 0;
    assert s[3..7] == h;
  }

  /**
    A token starting with `t`, `f` or `n` is accepted only as `true`, `false` or `null`, and
    the cursor moves past exactly those 4, 5 or 4 units; otherwise it fails.
  */
  lemma {:induction false} LiteralTokens(s: Text, i: nat)
    requires i < |s|
    ensures s[i] == LOWER_T ==>
      ValueAt(s, i) == (if StartsWithAt(s, TRUE_TEXT, i) then Ok((JBool(true), i + 4)) else Err(InvalidBoolean))
    ensures s[i] == LOWER_F ==>
      ValueAt(s, i) == (if StartsWithAt(s, FALSE_TEXT, i) then Ok((JBool(false), i + 5)) else Err(InvalidBoolean))
    ensures s[i] == LOWER_N ==>
      ValueAt(s, i) == (if StartsWithAt(s, NULL_TEXT, i) then Ok((JNull, i + 4)) else Err(InvalidNull))
  {
    if s[i] == LOWER_T || s[i] == LOWER_F || s[i] == LOWER_N {
      assert SkipWs(s, i) == i;
    }
  }

  /**
    How `parseNumber` classifies the decimal text of an integer: an `Integer` inside the
    `int` range, a `Long` outside it but inside the `long` range, and a
    `NumberFormatException` beyond.
  */
  lemma {:induction false} DecimalClassified(n: int)
    ensures NumberValue(DecimalText(n)) ==
      if INT_MIN <= n <= INT_MAX then Ok(JInt(n))
      else if LONG_MIN <= n <= LONG_MAX then Ok(JLong(n))
      else Err(NumberFormat(DecimalText(n), 10))
  {
    var t := DecimalText(n);
    DecimalIsToken(n);
    ParseDecimalText(n, n, n);
    ParseIntegerWithin(t, 10, n, n, INT_MIN, INT_MAX);
    ParseIntegerWithin(t, 10, n, n, LONG_MIN, LONG_MAX);
  }

  /** Leading zeros are accepted: `007` is the `Integer` 7 and `-0` the `Integer` 0. */
  lemma {:induction false} LeadingZeros()
    ensures NumberValue([0x30, 0x30, 0x37]) == Ok(JInt(7))
    ensures NumberValue([MINUS, 0x30]) == Ok(JInt(0))
  {
    var t: Text := [0x30, 0x30, 0x37];
    assert !HasFracMarker(t);
    assert [0x30][..0] == [] && t[..2] == [0x30, 0x30] && [0x30, 0x30][..1] == [0x30];
    assert NumeralValue([0x30], 10) == 0;
    assert NumeralValue([0x30, 0x30], 10) == 0;
    assert NumeralValue(t, 10) == 7;
    var z: Text := [MINUS, 0x30];
    assert !HasFracMarker(z);
    assert z[1..] == [0x30];
  }

  /** A lone `-` and an empty digit run fail: both `parseInt` and `parseLong` throw. */
  lemma {:induction false} NoDigits()
    ensures NumberValue([]) == Err(NumberFormat([], 10))
    ensures NumberValue([MINUS]) == Err(NumberFormat([MINUS], 10))
  {
    assert !HasFracMarker([MINUS]);
    assert [MINUS][1..] == [];
  }

  /** A text containing `.`, `e` or `E` is kept as a fractional literal, whatever else it holds. */
  lemma {:induction false} FractionalKept(t: Text)
    requires DOT in t || LOWER_E in t || UPPER_E in t
    ensures NumberValue(t) == Ok(JFrac(t))
  {
  }

  /**
    A payload starting with a unit that no branch of `parseValue` expects is handed to
    `parseNumber`, which scans nothing and fails on the empty literal.
  */
  lemma {:induction false} UnexpectedUnit(t: Text)
    requires t != [] && !IsTrimmable(t[0]) && !IsWhitespace(t[0])
    requires !IsDecimalDigit(t[0]) && t[0] != MINUS && t[0] != DOT && t[0] != LOWER_E && t[0] != UPPER_E
    requires t[0] != LBRACE && t[0] != LBRACKET && t[0] != QUOTE
    requires t[0] != LOWER_T && t[0] != LOWER_F && t[0] != LOWER_N
    ensures Decode(Some(t)) == Err(NumberFormat([], 10))
  {
    TrimAfter([t[0]], t[1..]);
    assert [t[0]] + t[1..] == t;
    var s := Trim(t);
    assert s[0] == t[0];
    assert SkipWs(s, 0) == 0;
    ValueNumber(s, 0);
    assert NumberEnd(s, 0) == 0;
    assert s[0..0] == [];
  }
}
