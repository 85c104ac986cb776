/**
  `JsonUtil.stringify`, `writeValue` and `escape`. `Serialize` states what `writeValue`
  appends for a value; the `Writer` class is the `StringBuilder` that `writeValue` fills,
  with its `first`-flag loops, and is proved to append exactly that text.
*/
module JsonWriter {
  import opened JavaLang
  import opened JsonValue
  import opened JsonGrammar

  /** `String.replace(target, replacement)` for a one-unit `target`. */
  function Replace(s: Text, target: Unit, replacement: Text): Text
  {
    if s == [] then []
    else (if s[0] == target then replacement else [s[0]]) + Replace(s[1..], target, replacement)
  }

  /** `replace` works unit by unit, so it distributes over concatenation. */
  lemma {:induction false} ReplaceAppend(a: Text, b: Text, target: Unit, replacement: Text)
    ensures Replace(a + b, target, replacement) == Replace(a, target, replacement) + Replace(b, target, replacement)
    decreases |a|
  {
    if a != [] {
      assert (a + b)[1..] == a[1..] + b;
      ReplaceAppend(a[1..], b, target, replacement);
    } else {
      assert a + b == b;
    }
  }

  /**
    `escape`: five `replace` passes, the backslash first, so that the backslashes the
    later passes insert are not doubled.
  */
  function Escape(t: Text): Text
  {
    var t1 := Replace(t, BACKSLASH, [BACKSLASH, BACKSLASH]);
    var t2 := Replace(t1, QUOTE, [BACKSLASH, QUOTE]);
    var t3 := Replace(t2, LF, [BACKSLASH, LOWER_N]);
    var t4 := Replace(t3, CR, [BACKSLASH, 0x72]);
    Replace(t4, TAB, [BACKSLASH, LOWER_T])
  }

  /** What `escape` makes of a single unit: the two-unit escape of `\ " LF CR TAB`, else the unit. */
  function EscapeUnit(c: Unit): (r: Text)
    ensures 1 <= |r| <= 2
    ensures |r| == 2 <==> c == BACKSLASH || c == QUOTE || c == LF || c == CR || c == TAB
    ensures |r| == 2 ==> r[0] == BACKSLASH && EscapedUnit(r[1]) == Some(c)
    ensures |r| == 1 ==> r == [c]
  {
    if c == BACKSLASH then [BACKSLASH, BACKSLASH]
    else if c == QUOTE then [BACKSLASH, QUOTE]
    else if c == LF then [BACKSLASH, LOWER_N]
    else if c == CR then [BACKSLASH, 0x72]
    else if c == TAB then [BACKSLASH, LOWER_T]
    else [c]
  }

  /** Escaping unit by unit. */
  function EscapeEach(t: Text): Text
  {
    if t == [] then [] else EscapeUnit(t[0]) + EscapeEach(t[1..])
  }

  /** The chain of `replace` passes escapes each unit on its own: no pass rewrites what an earlier one wrote. */
  lemma {:induction false} EscapeIsPerUnit(t: Text)
    ensures Escape(t) == EscapeEach(t)
    decreases |t|
  {
    if t != [] {
      var c := t[0];
      var rest := t[1..];
      assert t == [c] + rest;
      EscapeIsPerUnit(rest);
      ReplaceAppend([c], rest, BACKSLASH, [BACKSLASH, BACKSLASH]);
      var a1 := Replace([c], BACKSLASH, [BACKSLASH, BACKSLASH]);
      var b1 := Replace(rest, BACKSLASH, [BACKSLASH, BACKSLASH]);
      ReplaceAppend(a1, b1, QUOTE, [BACKSLASH, QUOTE]);
      var a2 := Replace(a1, QUOTE, [BACKSLASH, QUOTE]);
      var b2 := Replace(b1, QUOTE, [BACKSLASH, QUOTE]);
      ReplaceAppend(a2, b2, LF, [BACKSLASH, LOWER_N]);
      var a3 := Replace(a2, LF, [BACKSLASH, LOWER_N]);
      var b3 := Replace(b2, LF, [BACKSLASH, LOWER_N]);
      ReplaceAppend(a3, b3, CR, [BACKSLASH, 0x72]);
      var a4 := Replace(a3, CR, [BACKSLASH, 0x72]);
      var b4 := Replace(b3, CR, [BACKSLASH, 0x72]);
      ReplaceAppend(a4, b4, TAB, [BACKSLASH, LOWER_T]);
      EscapeOneUnit(c);
    }
  }

  /** `replace` leaves a string without the target unchanged. */
  lemma {:induction false} ReplaceAbsent(s: Text, target: Unit, replacement: Text)
    requires target !in s
    ensures Replace(s, target, replacement) == s
    decreases |s|
  {
    if s != [] {
      assert s == [s[0]] + s[1..];
      ReplaceAbsent(s[1..], target, replacement);
    }
  }

  /** `replace` on a one-unit string. */
  lemma ReplaceOne(c: Unit, target: Unit, replacement: Text)
    ensures Replace([c], target, replacement) == if c == target then replacement else [c]
  {
    assert [c][1..] == [];
  }

  /** `escape` on a one-unit string: the pass for the unit rewrites it, every other pass keeps it. */
  lemma EscapeOneUnit(c: Unit)
    ensures Escape([c]) == EscapeUnit(c)
  {
    ReplaceOne(c, BACKSLASH, [BACKSLASH, BACKSLASH]);
    var t1 := Replace([c], BACKSLASH, [BACKSLASH, BACKSLASH]);
    if c == BACKSLASH {
      ReplaceAbsent(t1, QUOTE, [BACKSLASH, QUOTE]);
      ReplaceAbsent(t1, LF, [BACKSLASH, LOWER_N]);
      ReplaceAbsent(t1, CR, [BACKSLASH, 0x72]);
      ReplaceAbsent(t1, TAB, [BACKSLASH, LOWER_T]);
    } else {
      ReplaceOne(c, QUOTE, [BACKSLASH, QUOTE]);
      var t2 := Replace([c], QUOTE, [BACKSLASH, QUOTE]);
      if c == QUOTE {
        ReplaceAbsent(t2, LF, [BACKSLASH, LOWER_N]);
        ReplaceAbsent(t2, CR, [BACKSLASH, 0x72]);
        ReplaceAbsent(t2, TAB, [BACKSLASH, LOWER_T]);
      } else {
        ReplaceOne(c, LF, [BACKSLASH, LOWER_N]);
        var t3 := Replace([c], LF, [BACKSLASH, LOWER_N]);
        if c == LF {
          ReplaceAbsent(t3, CR, [BACKSLASH, 0x72]);
          ReplaceAbsent(t3, TAB, [BACKSLASH, LOWER_T]);
        } else {
          ReplaceOne(c, CR, [BACKSLASH, 0x72]);
          var t4 := Replace([c], CR, [BACKSLASH, 0x72]);
          if c == CR {
            ReplaceAbsent(t4, TAB, [BACKSLASH, LOWER_T]);
          } else {
            ReplaceOne(c, TAB, [BACKSLASH, LOWER_T]);
          }
        }
      }
    }
  }

  /**
    `"` + `escape(t)` + `"`, as `writeValue` writes a string, with `escape` taken unit by
    unit (`EscapeIsPerUnit`).
  */
  function Quoted(t: Text): Text
  {
    [QUOTE] + EscapeEach(t) + [QUOTE]
  }

  /**
    What `writeValue` appends for a value: `null`, `true`/`false`, `Integer.toString` /
    `Long.toString`, the literal text of a fractional number, a quoted escaped string, and
    the elements and entries of lists and maps in order, comma-separated, without spaces.
  */
  function Serialize(v: Value): Text
    decreases v
  {
    match v
    case JNull => NULL_TEXT
    case JBool(b) => if b then TRUE_TEXT else FALSE_TEXT
    case JInt(n) => DecimalText(n)
    case JLong(n) => DecimalText(n)
    case JFrac(t) => t
    case JStr(t) => Quoted(t)
    case JArr(items) => [LBRACKET] + Elements(items) + [RBRACKET]
    case JObj(fields) => [LBRACE] + Entries(fields) + [RBRACE]
  }

  /** The elements of a list, comma-separated. */
  function Elements(items: seq<Value>): Text
    decreases items
  {
    if items == [] then []
    else if |items| == 1 then Serialize(items[0])
    else Serialize(items[0]) + [COMMA] + Elements(items[1..])
  }

  /** The entries of a map, comma-separated. */
  function Entries(fields: seq<(Text, Value)>): Text
    decreases fields
  {
    if fields == [] then []
    else if |fields| == 1 then Entry(fields[0])
    else Entry(fields[0]) + [COMMA] + Entries(fields[1..])
  }

  /** One map entry: the quoted escaped key, a colon, the value. */
  function Entry(f: (Text, Value)): Text
    decreases f
  {
    Quoted(f.0) + [COLON] + Serialize(f.1)
  }

  /** Appending one more element after a comma extends the list text at its end. */
  lemma {:induction false} ElementsSnoc(items: seq<Value>, v: Value)
    requires items != []
    ensures Elements(items + [v]) == Elements(items) + [COMMA] + Serialize(v)
    decreases |items|
  {
    var rest := (items + [v])[1..];
    assert rest == items[1..] + [v];
    assert Elements(items + [v]) == Serialize(items[0]) + [COMMA] + Elements(rest);
    if |items| >= 2 {
      ElementsSnoc(items[1..], v);
    } else {
      assert rest == [v];
    }
  }

  /** Appending one more entry after a comma extends the map text at its end. */
  lemma {:induction false} EntriesSnoc(fields: seq<(Text, Value)>, f: (Text, Value))
    requires fields != []
    ensures Entries(fields + [f]) == Entries(fields) + [COMMA] + Entry(f)
    decreases |fields|
  {
    var rest := (fields + [f])[1..];
    assert rest == fields[1..] + [f];
    assert Entries(fields + [f]) == Entry(fields[0]) + [COMMA] + Entries(rest);
    if |fields| >= 2 {
      EntriesSnoc(fields[1..], f);
    } else {
      assert rest == [f];
    }
  }

  lemma TakeOneMore<T>(s: seq<T>, k: nat)
    requires k < |s|
    ensures s[..k + 1] == s[..k] + [s[k]]
  {
  }

  /** The `StringBuilder` that `stringify` hands to `writeValue`. */
  class Writer {
    var buf: Text

    constructor ()
      ensures buf == []
    {
      buf := [];
    }

    /** `writeValue(value, sb)`. */
    method WriteValue(v: Value)
      modifies this
      ensures buf == old(buf) + Serialize(v)
      decreases v
    {
      match v
      case JNull =>
        buf := buf + NULL_TEXT;
      case JBool(b) =>
        buf := buf + if b then TRUE_TEXT else FALSE_TEXT;
      case JInt(n) =>
        buf := buf + DecimalText(n);
      case JLong(n) =>
        buf := buf + DecimalText(n);
      case JFrac(t) =>
        buf := buf + t;
      case JStr(t) =>
        buf := buf + [QUOTE] + Escape(t) + [QUOTE];
        EscapeIsPerUnit(t);
        assert buf == old(buf) + Quoted(t);
      case JObj(fields) =>
        WriteObject(fields);
        assert buf == old(buf) + ([LBRACE] + Entries(fields) + [RBRACE]);
      case JArr(items) =>
        WriteArray(items);
        assert buf == old(buf) + ([LBRACKET] + Elements(items) + [RBRACKET]);
    }

    /** The map branch of `writeValue`: `{`, the entries with the `first` flag, `}`. */
    method WriteObject(fields: seq<(Text, Value)>)
      modifies this
      ensures buf == old(buf) + [LBRACE] + Entries(fields) + [RBRACE]
      decreases fields
    {
      buf := buf + [LBRACE];
      ghost var start := buf;
      var first := true;
      for k := 0 to |fields|
        invariant buf == start + Entries(fields[..k])
        invariant first <==> k == 0
      {
        TakeOneMore(fields, k);
        if !first {
          buf := buf + [COMMA];
          EntriesSnoc(fields[..k], fields[k]);
        } else {
          assert fields[..k + 1] == [fields[k]];
        }
        first := false;
        WriteEntry(fields[k]);
      }
      assert fields[..|fields|] == fields;
      buf := buf + [RBRACE];
    }

    /** The list branch of `writeValue`: `[`, the elements with the `first` flag, `]`. */
    method WriteArray(items: seq<Value>)
      modifies this
      ensures buf == old(buf) + [LBRACKET] + Elements(items) + [RBRACKET]
      decreases items
    {
      buf := buf + [LBRACKET];
      var first := true;
      for k := 0 to |items|
        invariant buf == old(buf) + [LBRACKET] + Elements(items[..k])
        invariant first <==> k == 0
      {
        TakeOneMore(items, k);
        if !first {
          buf := buf + [COMMA];
          ElementsSnoc(items[..k], items[k]);
        } else {
          assert items[..k + 1] == [items[k]];
        }
        first := false;
        WriteValue(items[k]);
      }
      assert items[..|items|] == items;
      buf := buf + [RBRACKET];
    }

    /** The body of the entry loop: key, colon, value. */
    method WriteEntry(f: (Text, Value))
      modifies this
      ensures buf == old(buf) + Entry(f)
      decreases f
    {
      buf := buf + [QUOTE] + Escape(f.0) + [QUOTE] + [COLON];
      EscapeIsPerUnit(f.0);
      WriteValue(f.1);
    }
  }

  /** `stringify`: a fresh builder, filled by `writeValue`. */
  method Stringify(v: Value) returns (t: Text)
    ensures t == Serialize(v)
  {
    var w := new Writer();
    w.WriteValue(v);
    t := w.buf;
  }
}
