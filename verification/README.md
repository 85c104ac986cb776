# Restaurant ordering core in Dafny

This project models the core of a small Java restaurant application:

- its dependency-free JSON codec (`JsonUtil`);
- the order model (`Order`, `OrderItem`);
- the bounded order history (`OrderManager`);
- the fixed menu (`MenuData`);
- the decision logic of the web server (`WebServerLauncher`).

The web server logic covers three things: building the code-to-item index, handling `POST /api/orders`, and choosing a content type from a file name.

Java text is modelled as UTF-16 code units (`JavaLang.Text`). Java `int` and `long` are subset types of `int`. Where the source relies on Java's `int` wrap-around, the wrap is written out (`JavaLang.Wrap32`).

The JSON parser is modelled twice:

- The pure functions of `JsonGrammar` each take a cursor position. They return the parsed value with the new cursor, or the exception the parser throws.
- The class `JsonParser.Parser` keeps the mutable `index` field of the Java parser. Each of its methods is proved to return what the matching grammar function returns and to leave `index` where that function says.

The serializer is likewise modelled twice:

- `JsonWriter.Serialize` states what `writeValue` appends.
- `JsonWriter.Writer` is the `StringBuilder` with its `first`-flag loops, proved to append exactly that text.

On top of the two models sit the round-trip theorems. They hold in the model, where a fractional number is kept as its literal text rather than as a `double`. There, `parse(stringify(v)) == v` holds for every value the parser can produce (`JsonRoundTrip.DecodeRoundTrip`). Consequently `parse(stringify(parse(x))) == parse(x)` holds whenever `parse(x)` succeeds (`JsonParsed.ReparseIdempotent`). In Java the second theorem fails for literals that overflow a `double` (see "## Left out").

`Order` and `OrderItem` are classes whose methods change the item list and quantities in place. Each method is proved to change the order's lines (`Order.Lines()`) as a function of `OrderLines` says. The lemmas about those functions state the promises of the source:

- codes stay distinct;
- quantities are clamped to at least 1;
- `remove` keeps the order of the remaining lines;
- nothing else changes.

`OrderManager` keeps its history as a sequence, newest first. `addOrder` is proved to produce the first `limit` elements of the new order followed by the old history.

`handleCreate` is split into three parts:

- a pure decision, `WebServer.CreateDecision`, which gives a 400 answer with its text, an accepted order, or an exception;
- the item loop over a real `Order` (`WebServer.ReadOrder`);
- the method `WebServer.HandleCreate`, which records exactly the accepted order in the `OrderManager` and leaves the history untouched in every other case.

`Double.toString` and `Number.intValue` of a fractional number are passed in as the function parameters `doubleText` and `intValue`.

## Model

| member | source | states |
|---|---|---|
| JavaLang.Wrap32 | src/com/restaurant/app/model/OrderItem.java:23 | the Java `int` result of an integer sum: congruent to it modulo 2^32, within the `int` range, and equal to it when it already fits |
| JavaLang.Max | src/com/restaurant/app/model/OrderItem.java:11 | `Math.max`: at least both arguments and equal to one of them |
| JavaLang.TrimStart | src/com/restaurant/app/util/JsonUtil.java:21 | `trim` skips exactly the leading units up to U+0020 and stops at the first unit above it |
| JavaLang.TrimEnd | src/com/restaurant/app/util/JsonUtil.java:21 | `trim` drops exactly the trailing units up to U+0020 and stops after the last unit above it |
| JavaLang.Trim | src/com/restaurant/app/util/JsonUtil.java:21 | the trimmed text is empty or starts and ends with a unit above U+0020, and a text already so is returned unchanged |
| JavaLang.LowerIdempotent | src/com/restaurant/app/server/WebServerLauncher.java:229 | lower-casing twice is lower-casing once |
| JavaLang.ParseInteger | src/com/restaurant/app/util/JsonUtil.java:263-266 | `Integer.parseInt`/`Long.parseLong`: an accepted numeral has a value inside the type's range and starts with a sign or a digit |
| JavaLang.ParseIntegerWithin | src/com/restaurant/app/util/JsonUtil.java:263-266 | `parseInt` accepts exactly the numerals `parseLong` accepts whose value is an `int`, with the same value |
| JavaLang.DecimalText | src/com/restaurant/app/util/JsonUtil.java:51-52 | `Integer.toString`/`Long.toString` is non-empty and made of decimal digits with at most a leading minus |
| JavaLang.ParseDecimalText | src/com/restaurant/app/util/JsonUtil.java:51-52 | `parseInt`/`parseLong` reads back the number `toString` wrote, for every value in range |
| JsonValue.KeyIndexFirst | src/com/restaurant/app/util/JsonUtil.java:143 | a key is found at its first position in the map and not found exactly when absent |
| JsonValue.PutKeys | src/com/restaurant/app/util/JsonUtil.java:131-143 | `LinkedHashMap.put` keeps the key order, appends a new key at the end and keeps keys unique |
| JsonValue.PutLookup | src/com/restaurant/app/util/JsonUtil.java:143 | after `put`, the key maps to the new value and every other key to what it did before |
| JsonValue.LookupUnique | src/com/restaurant/app/server/WebServerLauncher.java:134 | with unique keys, `get` of a key returns the value stored with it |
| JsonGrammar.SkipWs | src/com/restaurant/app/util/JsonUtil.java:102-111 | `skipWhitespace` never moves the cursor back or past the end |
| JsonGrammar.SkipWsSpan | src/com/restaurant/app/util/JsonUtil.java:102-111 | `skipWhitespace` passes whitespace only and stops on the first unit that is not whitespace |
| JsonGrammar.DigitsEnd | src/com/restaurant/app/util/JsonUtil.java:241-243 | a digit loop never moves the cursor back or past the end |
| JsonGrammar.DigitsSpan | src/com/restaurant/app/util/JsonUtil.java:241-243 | a digit loop passes decimal digits only and stops on the first unit that is not one |
| JsonGrammar.NumberEnd | src/com/restaurant/app/util/JsonUtil.java:237-258 | the number scan stays within the input |
| JsonGrammar.NumberValue | src/com/restaurant/app/util/JsonUtil.java:259-267 | a literal with `.`, `e` or `E` is kept as a fraction; otherwise it is an `Integer` exactly as `parseInt` reads it, else a `Long` exactly as `parseLong` reads it when `parseInt` fails; it fails exactly when it has no marker and `parseLong` rejects it |
| JsonGrammar.NumberAt | src/com/restaurant/app/util/JsonUtil.java:236-268 | a parsed number consumes at least one unit and ends where the scan ends |
| JsonGrammar.BooleanAt | src/com/restaurant/app/util/JsonUtil.java:216-226 | an accepted boolean literal moves the cursor forward within the input |
| JsonGrammar.NullAt | src/com/restaurant/app/util/JsonUtil.java:228-234 | an accepted `null` moves the cursor forward within the input |
| JsonGrammar.UnicodeAt | src/com/restaurant/app/util/JsonUtil.java:207-214 | a `\u` payload that is read consumes exactly four units |
| JsonGrammar.CharsAt | src/com/restaurant/app/util/JsonUtil.java:178-204 | the string loop ends within the input, at the closing quote or at the end |
| JsonGrammar.StringAt | src/com/restaurant/app/util/JsonUtil.java:175-205 | a parsed string consumes at least its opening quote and ends within the input |
| JsonGrammar.ValueAt | src/com/restaurant/app/util/JsonUtil.java:113-127 | a parsed value consumes at least one unit and ends within the input |
| JsonGrammar.SeparatorAt | src/com/restaurant/app/util/JsonUtil.java:144-149 | the closing unit or the comma that ends a loop turn is consumed |
| JsonGrammar.ObjectAt | src/com/restaurant/app/util/JsonUtil.java:129-152 | a parsed object consumes at least its braces and ends within the input |
| JsonGrammar.MemberAt | src/com/restaurant/app/util/JsonUtil.java:138-142 | a parsed member (key, colon, value) moves the cursor forward within the input |
| JsonGrammar.MembersAt | src/com/restaurant/app/util/JsonUtil.java:137-151 | the member loop moves the cursor forward within the input |
| JsonGrammar.ArrayAt | src/com/restaurant/app/util/JsonUtil.java:154-173 | a parsed array consumes at least its brackets and ends within the input |
| JsonGrammar.ElementsAt | src/com/restaurant/app/util/JsonUtil.java:162-171 | the element loop moves the cursor forward within the input |
| JsonParser.Parser.constructor | src/com/restaurant/app/util/JsonUtil.java:94-96 | a new parser holds the text with its cursor at 0 |
| JsonParser.Parser.IsEnd | src/com/restaurant/app/util/JsonUtil.java:98-100 | `isEnd` holds exactly when the cursor is at the end |
| JsonParser.Parser.Peek | src/com/restaurant/app/util/JsonUtil.java:270-272 | `peek(c)` holds exactly when the cursor is on `c` |
| JsonParser.Parser.Expect | src/com/restaurant/app/util/JsonUtil.java:274-279 | on the expected unit the cursor moves one forward; otherwise the "Expected … but found …" error names the unit or EOF and the cursor stays |
| JsonParser.Parser.SkipWhitespace | src/com/restaurant/app/util/JsonUtil.java:102-111 | the loop leaves the cursor where `SkipWs` says |
| JsonParser.Parser.ParseValue | src/com/restaurant/app/util/JsonUtil.java:113-127 | returns the value or error `ValueAt` gives and leaves the cursor where it says |
| JsonParser.Parser.ParseObject | src/com/restaurant/app/util/JsonUtil.java:129-152 | the `while (true)` member loop returns what `ObjectAt` gives, cursor included |
| JsonParser.Parser.ParseMember | src/com/restaurant/app/util/JsonUtil.java:138-142 | key, colon and value as `MemberAt` gives them, cursor included |
| JsonParser.Parser.ParseArray | src/com/restaurant/app/util/JsonUtil.java:154-173 | the `while (true)` element loop returns what `ArrayAt` gives, cursor included |
| JsonParser.Parser.ParseSeparator | src/com/restaurant/app/util/JsonUtil.java:144-149 | the end of a loop turn: close or comma as `SeparatorAt` gives it, cursor included |
| JsonParser.Parser.ParseString | src/com/restaurant/app/util/JsonUtil.java:175-205 | the `StringBuilder` loop with its escapes returns what `StringAt` gives, cursor included |
| JsonParser.Parser.ParseUnicode | src/com/restaurant/app/util/JsonUtil.java:207-214 | the four-unit `\u` payload as `UnicodeAt` gives it, cursor included |
| JsonParser.Parser.ParseBoolean | src/com/restaurant/app/util/JsonUtil.java:216-226 | returns what `BooleanAt` gives, cursor included |
| JsonParser.Parser.ParseNull | src/com/restaurant/app/util/JsonUtil.java:228-234 | returns what `NullAt` gives, cursor included |
| JsonParser.Parser.SkipDigits | src/com/restaurant/app/util/JsonUtil.java:241-243 | the digit loop leaves the cursor where `DigitsEnd` says |
| JsonParser.Parser.ScanFraction | src/com/restaurant/app/util/JsonUtil.java:244-249 | the optional `.` and digit run end where `FractionEnd` says |
| JsonParser.Parser.ScanExponent | src/com/restaurant/app/util/JsonUtil.java:250-258 | the optional exponent ends where `ExponentEnd` says |
| JsonParser.Parser.ScanNumber | src/com/restaurant/app/util/JsonUtil.java:237-258 | the whole scan of `parseNumber` ends where `NumberEnd` says |
| JsonParser.Parser.ParseNumber | src/com/restaurant/app/util/JsonUtil.java:236-268 | scan and classification return what `NumberAt` gives, cursor included |
| JsonParser.Parse | src/com/restaurant/app/util/JsonUtil.java:17-28 | `parse` returns exactly `Decode`: `null` for `null`, else the trimmed value, with trailing data rejected |
| JsonParser.ParseObject | src/com/restaurant/app/util/JsonUtil.java:30-37 | `parseObject` returns exactly `DecodeObject`: the map, or "not an object" |
| JsonWriter.ReplaceAppend | src/com/restaurant/app/util/JsonUtil.java:82-87 | `String.replace` of one unit distributes over concatenation |
| JsonWriter.ReplaceAbsent | src/com/restaurant/app/util/JsonUtil.java:82-87 | `replace` leaves a text without the target unchanged |
| JsonWriter.EscapeUnit | src/com/restaurant/app/util/JsonUtil.java:81-88 | exactly backslash, quote, LF, CR and TAB become two units, a backslash and a unit the parser decodes back to the original; every other unit is kept |
| JsonWriter.EscapeOneUnit | src/com/restaurant/app/util/JsonUtil.java:81-88 | the five `replace` passes on a single unit give exactly its escape |
| JsonWriter.EscapeIsPerUnit | src/com/restaurant/app/util/JsonUtil.java:81-88 | with the backslash pass first, the chain of `replace` passes escapes each unit on its own; no pass rewrites what an earlier pass wrote |
| JsonWriter.ElementsSnoc | src/com/restaurant/app/util/JsonUtil.java:65-75 | one more list element extends the written list by a comma and that element, at the end |
| JsonWriter.EntriesSnoc | src/com/restaurant/app/util/JsonUtil.java:53-64 | one more map entry extends the written map by a comma and that entry, at the end |
| JsonWriter.Writer.constructor | src/com/restaurant/app/util/JsonUtil.java:40 | a new builder is empty |
| JsonWriter.Writer.WriteValue | src/com/restaurant/app/util/JsonUtil.java:46-79 | `writeValue` appends exactly `Serialize(v)` and keeps what the builder held |
| JsonWriter.Writer.WriteObject | src/com/restaurant/app/util/JsonUtil.java:53-64 | the map branch appends `{`, the entries in map order with commas between, and `}` |
| JsonWriter.Writer.WriteArray | src/com/restaurant/app/util/JsonUtil.java:65-75 | the list branch appends `[`, the elements in list order with commas between, and `]` |
| JsonWriter.Writer.WriteEntry | src/com/restaurant/app/util/JsonUtil.java:61-62 | one entry: quoted escaped key, colon, value |
| JsonWriter.Stringify | src/com/restaurant/app/util/JsonUtil.java:39-43 | `stringify` returns exactly `Serialize(v)` |
| JsonRoundTrip.CharsRoundTrip | src/com/restaurant/app/util/JsonUtil.java:178-204 | the string loop reads an escaped text back unit for unit and stops after the closing quote |
| JsonRoundTrip.StringRoundTrip | src/com/restaurant/app/util/JsonUtil.java:175-205 | `parseString` of `"` + `escape(t)` + `"` is `t` |
| JsonRoundTrip.NullRoundTrip | src/com/restaurant/app/util/JsonUtil.java:228-234 | a written `null` reads back as `null` |
| JsonRoundTrip.BooleanRoundTrip | src/com/restaurant/app/util/JsonUtil.java:216-226 | written `true`/`false` read back as the same boolean |
| JsonRoundTrip.NumberRoundTrip | src/com/restaurant/app/util/JsonUtil.java:236-268 | a written number is scanned to its end and classified as it was (`Integer`, `Long` or fraction), and `parseValue` hands it to `parseNumber` |
| JsonRoundTrip.ValueRoundTrip | src/com/restaurant/app/util/JsonUtil.java:113-127 | `parseValue` reads back any well-formed written value and stops right after it; after a number, what follows must not continue the number |
| JsonRoundTrip.ArrayRoundTrip | src/com/restaurant/app/util/JsonUtil.java:154-173 | `parseArray` reads back a written list, elements in order |
| JsonRoundTrip.ObjectRoundTrip | src/com/restaurant/app/util/JsonUtil.java:129-152 | `parseObject` reads back a written map with unique keys, entries in order |
| JsonRoundTrip.SerializeLast | src/com/restaurant/app/util/JsonUtil.java:21 | a written value ends with a unit `trim` keeps |
| JsonRoundTrip.DecodeRoundTrip | src/com/restaurant/app/util/JsonUtil.java:17-43 | in the model, where a fraction is kept as its literal text, `parse(stringify(v)) == v` for every well-formed value |
| JsonParsed.NumberWellFormed | src/com/restaurant/app/util/JsonUtil.java:259-267 | `parseNumber` makes a `Long` only outside the `int` range |
| JsonParsed.DecodedWellFormed | src/com/restaurant/app/util/JsonUtil.java:17-28 | every value `parse` returns is well-formed: unique map keys, no `Long` in the `int` range, complete fractional literals |
| JsonParsed.ReparseIdempotent | src/com/restaurant/app/util/JsonUtil.java:17-43 | in the model, where a fraction is kept as its literal text, `parse(stringify(parse(x))) == parse(x)` whenever `parse(x)` succeeds |
| JsonFacts.TrimKeeps | src/com/restaurant/app/util/JsonUtil.java:21 | `trim` keeps a text that starts and ends above U+0020 |
| JsonFacts.TrimAfter | src/com/restaurant/app/util/JsonUtil.java:21 | `trim` of a text that starts with a part bounded by units above U+0020 keeps that part whole and cuts only the trailing units up to U+0020 of the rest |
| JsonFacts.BlankInput | src/com/restaurant/app/util/JsonUtil.java:114-117 | empty or whitespace-only input fails with "Unexpected end of JSON input" |
| JsonFacts.TrailingInput | src/com/restaurant/app/util/JsonUtil.java:23-26 | the text a well-formed value is written as, followed by optional whitespace and then a unit that is not whitespace and that `trim` keeps, fails as trailing data; after a number, the tail must not start with a unit that would continue it |
| JsonFacts.NullNotAnObject | src/com/restaurant/app/util/JsonUtil.java:18-20 | `parse(null)` is `null`, so `parseObject(null)` fails as not an object |
| JsonFacts.WrittenNotAnObject | src/com/restaurant/app/util/JsonUtil.java:31-35 | `parseObject` of the text written for a well-formed value that is not a map (a list, string, number, boolean or `null`) fails as not an object |
| JsonFacts.WrittenObject | src/com/restaurant/app/util/JsonUtil.java:31-37 | `parseObject` accepts a written map and returns its entries in order |
| JsonFacts.EmptyContainers | src/com/restaurant/app/util/JsonUtil.java:132-136 | `{ }` and `[ ]`, with any whitespace inside, parse to an empty map and an empty list |
| JsonFacts.RepeatedPuts | src/com/restaurant/app/util/JsonUtil.java:143 | put of `k`, `j`, `k`: the second `k` replaces the value and keeps the first position |
| JsonFacts.RepeatedKey | src/com/restaurant/app/util/JsonUtil.java:137-151 | a repeated key in an object: the later value wins and the key keeps the position of its first occurrence |
| JsonFacts.OneEscape | src/com/restaurant/app/util/JsonUtil.java:183-199 | each of `\" \\ \/ \b \f \n \r \t` decodes to its single unit; a short `\u` is incomplete; any other escape fails |
| JsonFacts.BackslashAtEnd | src/com/restaurant/app/util/JsonUtil.java:184-186 | a backslash at the end of input fails as an invalid escape |
| JsonFacts.PlainToEnd | src/com/restaurant/app/util/JsonUtil.java:178-203 | the string loop keeps every plain unit up to the end of input when no quote or backslash comes |
| JsonFacts.UnterminatedString | src/com/restaurant/app/util/JsonUtil.java:178-204 | a string with no closing quote ends at the end of input and is accepted; it holds its text less the units `trim` cuts from the end, so all of it when the text is empty or ends above U+0020 |
| JsonFacts.UnicodeEscape | src/com/restaurant/app/util/JsonUtil.java:207-214 | `\u` and four hex digits decode to the one unit they denote |
| JsonFacts.SignedUnicodeEscape | src/com/restaurant/app/util/JsonUtil.java:213 | a signed payload is accepted: `\u-001` decodes to U+FFFF |
| JsonFacts.UnicodeIncomplete | src/com/restaurant/app/util/JsonUtil.java:208-210 | any input that is a quote, `\u` and fewer than four more units fails as an incomplete escape |
| JsonFacts.UnicodeNotHex | src/com/restaurant/app/util/JsonUtil.java:213 | a `\u` payload that `parseInt(hex, 16)` rejects fails with its `NumberFormatException` |
| JsonFacts.LiteralTokens | src/com/restaurant/app/util/JsonUtil.java:216-234 | a token starting with `t`, `f` or `n` is accepted only as `true`, `false` or `null`, moving the cursor by exactly 4, 5 or 4 units |
| JsonFacts.DecimalClassified | src/com/restaurant/app/util/JsonUtil.java:259-267 | an integer literal is an `Integer` in the `int` range, a `Long` outside it within the `long` range, and fails beyond |
| JsonFacts.LeadingZeros | src/com/restaurant/app/util/JsonUtil.java:263-264 | leading zeros are accepted: `007` is 7 and `-0` is 0 |
| JsonFacts.NoDigits | src/com/restaurant/app/util/JsonUtil.java:263-267 | an empty literal and a lone `-` fail with `NumberFormatException` |
| JsonFacts.FractionalKept | src/com/restaurant/app/util/JsonUtil.java:260-262 | any literal with `.`, `e` or `E` is kept as a fraction |
| JsonFacts.UnexpectedUnit | src/com/restaurant/app/util/JsonUtil.java:125 | an input whose first unit is not cut by `trim`, is not whitespace, and is none of the units `parseValue` or the number scan expect there (`{`, `[`, `"`, `t`, `f`, `n`, a digit, `-`, `.`, `e`, `E`) goes to `parseNumber` and fails on the empty literal; a leading `+` is such a unit |
| OrderLines.FindCode | src/com/restaurant/app/model/Order.java:79-81 | `findFirst` on the code: the first line with the code, or none exactly when no line has it |
| OrderLines.Increased | src/com/restaurant/app/model/OrderItem.java:22-24 | `max(1, quantity + delta)` in `int` arithmetic: at least 1, and `max(1, quantity + delta)` whenever the sum does not overflow |
| OrderLines.WithItemNew | src/com/restaurant/app/model/Order.java:85-87 | `addItem` of a new code appends one line with `max(1, quantity)` and changes nothing else |
| OrderLines.WithItemPresent | src/com/restaurant/app/model/Order.java:83-84 | `addItem` of a present code increases that line's quantity, keeps its item, the length and every other line |
| OrderLines.AddOneRaises | src/com/restaurant/app/model/Order.java:71-73 | `addOrIncrement` of a present code raises its quantity by exactly 1 and keeps the length |
| OrderLines.AddOneAtCeiling | src/com/restaurant/app/model/OrderItem.java:23 | at `Integer.MAX_VALUE`, one more wraps to a negative sum and the clamp gives 1 |
| OrderLines.WithItemKeeps | src/com/restaurant/app/model/Order.java:78-88 | `addItem` keeps the codes distinct and every quantity at least 1 |
| OrderLines.WithItemSets | src/com/restaurant/app/model/Order.java:78-88 | `addItem` adds the item's code and no other, loses no line, and every line holds a previous item or the added one |
| OrderLines.RemovedLines | src/com/restaurant/app/model/Order.java:90-92 | a line survives `remove` exactly when it was there and has another code |
| OrderLines.RemovedAppend | src/com/restaurant/app/model/Order.java:90-92 | `remove` keeps the surviving lines in their original order |
| OrderLines.RemovedAbsent | src/com/restaurant/app/model/Order.java:90-92 | `remove` of an absent code changes nothing |
| OrderLines.RemovedTwice | src/com/restaurant/app/model/Order.java:90-92 | removing a code twice is removing it once |
| OrderLines.RemovedKeeps | src/com/restaurant/app/model/Order.java:90-92 | `remove` keeps the codes distinct and every quantity at least 1 |
| OrderLines.UpdatedLines | src/com/restaurant/app/model/Order.java:94-99 | `updateQuantity` sets the first line with the code to `max(1, quantity)` and keeps the rest; without such a line nothing changes |
| OrderLines.UpdatedKeeps | src/com/restaurant/app/model/Order.java:94-99 | `updateQuantity` keeps the codes distinct and every quantity at least 1 |
| Orders.OrderItem.constructor | src/com/restaurant/app/model/OrderItem.java:9-12 | stores the menu item and `max(1, quantity)` |
| Orders.OrderItem.IncreaseQuantity | src/com/restaurant/app/model/OrderItem.java:22-24 | quantity becomes `max(1, quantity + delta)` in `int` arithmetic, never below 1 |
| Orders.OrderItem.SetQuantity | src/com/restaurant/app/model/OrderItem.java:26-28 | quantity becomes `max(1, n)`, never below 1 |
| Orders.KeepOthers | src/com/restaurant/app/model/Order.java:91 | the `removeIf` loop keeps the items of other codes, as distinct objects, with lines as `Removed` says |
| Orders.Order.constructor | src/com/restaurant/app/model/Order.java:21-28 | a new order has no items, status NEW, table "TBD" and empty notes |
| Orders.Order.SetStatus | src/com/restaurant/app/model/Order.java:42-44 | sets the status; items, table and notes unchanged |
| Orders.Order.SetTableNumber | src/com/restaurant/app/model/Order.java:50-52 | sets the table; items, status and notes unchanged |
| Orders.Order.SetNotes | src/com/restaurant/app/model/Order.java:58-60 | sets the notes; items, status and table unchanged |
| Orders.Order.GetItems | src/com/restaurant/app/model/Order.java:62-64 | returns the items in order, standing for the order's lines |
| Orders.Order.FindItem | src/com/restaurant/app/model/Order.java:79-81 | the stream search returns the first item with the code, as `FindCode` says |
| Orders.Order.AddItem | src/com/restaurant/app/model/Order.java:78-88 | the lines become `WithItem(old lines, m, quantity)`, codes stay distinct and quantities at least 1; status, table and notes unchanged |
| Orders.Order.AddOrIncrement | src/com/restaurant/app/model/Order.java:66-76 | the lines become `WithItem(old lines, m, 1)`; status, table and notes unchanged |
| Orders.Order.Remove | src/com/restaurant/app/model/Order.java:90-92 | the lines become `Removed(old lines, code)`; status, table and notes unchanged |
| Orders.Order.UpdateQuantity | src/com/restaurant/app/model/Order.java:94-99 | the lines become `Updated(old lines, code, quantity)`; only the items' quantities may change |
| OrderManagement.AdmitShape | src/com/restaurant/app/service/OrderManager.java:23-29 | after `addOrder` the new order is first, the earlier orders follow in order, and the size grows by one up to the limit |
| OrderManagement.AdmitEvictsOldest | src/com/restaurant/app/service/OrderManager.java:26-28 | on a full history `addOrder` evicts exactly the oldest order |
| OrderManagement.AdmitAllRecent | src/com/restaurant/app/service/OrderManager.java:23-29 | after any run of `addOrder` calls the history holds the most recent orders, newest first, as many as the limit allows |
| OrderManagement.OrderManager.Default | src/com/restaurant/app/service/OrderManager.java:15-17 | the no-argument constructor has an empty history and a limit of 12 |
| OrderManagement.OrderManager.constructor | src/com/restaurant/app/service/OrderManager.java:19-21 | the limit is `max(5, historyLimit)` and the history empty |
| OrderManagement.OrderManager.AddOrder | src/com/restaurant/app/service/OrderManager.java:23-29 | marks the order SERVED, leaves its items, lines, table and notes (and its validity), and makes the history the first `limit` of the order followed by the old history |
| OrderManagement.OrderManager.GetHistory | src/com/restaurant/app/service/OrderManager.java:31-33 | returns the history newest first, as a value the caller cannot change it through |
| OrderManagement.OrderManager.ClearHistory | src/com/restaurant/app/service/OrderManager.java:35-37 | the history becomes empty and the limit invariant holds |
| MenuData.FlattenMenu | src/com/restaurant/app/data/MenuData.java:54-58 | the `addAll` loop returns every category's items in map order |
| MenuData.FlattenAppend | src/com/restaurant/app/data/MenuData.java:54-58 | flattening two parts lists the first part's items, then the second's |
| MenuData.FlattenSize | src/com/restaurant/app/data/MenuData.java:54-58 | the flattened length is the sum of the category sizes |
| MenuData.FlattenMembers | src/com/restaurant/app/data/MenuData.java:54-58 | an item is in the flattened list exactly when some category lists it |
| MenuData.MenuFlattened | src/com/restaurant/app/data/MenuData.java:15-58 | the flattened menu is the six category lists in insertion order |
| MenuData.MenuItems | src/com/restaurant/app/data/MenuData.java:17-49 | the flattened menu is exactly the 16 items, from SGN-01 to BEV-03 |
| MenuData.MenuCodesDistinct | src/com/restaurant/app/data/MenuData.java:17-49 | the menu has 16 items with 16 different codes |
| MenuData.MenuCategories | src/com/restaurant/app/data/MenuData.java:16-51 | exactly six categories: Signatures, Small Plates, Mains, Greens, Desserts, Beverages |
| MenuData.MenuFiledByCategory | src/com/restaurant/app/data/MenuData.java:17-49 | every category has items, and every item's category is the name it is filed under |
| WebServer.BuildMenuIndex | src/com/restaurant/app/server/WebServerLauncher.java:54-58 | the nested loop puts every item of every category under its code, in map order |
| WebServer.IndexEntries | src/com/restaurant/app/server/WebServerLauncher.java:54-58 | the index has exactly the items' codes, and under each code an item with that code |
| WebServer.IndexOfUnique | src/com/restaurant/app/server/WebServerLauncher.java:54-58 | with distinct codes every item is found under its own code, and the index size is the number of items |
| WebServer.MenuIndexOfMenu | src/com/restaurant/app/server/WebServerLauncher.java:41-42 | the index of the fixed menu has 16 codes, each mapped to its own item |
| WebServer.MimeTypeBySuffix | src/com/restaurant/app/server/WebServerLauncher.java:228-249 | each content type is chosen exactly for its suffixes of the lower-cased name; `.jpg` and `.jpeg` give `image/jpeg`, and any other name gives `application/octet-stream` |
| WebServer.SuffixesExclusive | src/com/restaurant/app/server/WebServerLauncher.java:230-247 | no name ends with two of the listed suffixes, except `.jpg`/`.jpeg` with their shared type |
| WebServer.TypesDistinct | src/com/restaurant/app/server/WebServerLauncher.java:231-248 | the seven content types are different texts |
| WebServer.MimeTypeIgnoresCase | src/com/restaurant/app/server/WebServerLauncher.java:229 | the case of the file name does not matter |
| WebServer.ValueTextAgrees | src/com/restaurant/app/server/WebServerLauncher.java:141-145 | `String.valueOf` matches what `writeValue` writes for null, booleans and integers, and a string is written as its `valueOf` quoted and escaped |
| WebServer.GetOrDefault | src/com/restaurant/app/server/WebServerLauncher.java:141-142 | `getOrDefault`: the default exactly when the key is absent, else the stored value (even `null`) |
| WebServer.QuantityOf | src/com/restaurant/app/server/WebServerLauncher.java:146-147 | a quantity that is read is at least 1; it is 1 when absent or `null` and `max(1, q)` for an `Integer` |
| WebServer.ReadItem | src/com/restaurant/app/server/WebServerLauncher.java:145-153 | an item that is read holds a menu item from the index with a quantity of at least 1; an unknown code is one the index lacks |
| WebServer.ReadFromBuilt | src/com/restaurant/app/server/WebServerLauncher.java:144-154 | a loop that runs to the end found every element's item, keeps codes distinct and quantities at least 1, and adds only items from the index |
| WebServer.ReadFromCodes | src/com/restaurant/app/server/WebServerLauncher.java:144-154 | a loop that runs to the end leaves exactly the codes held before plus the codes found |
| WebServer.ReadFromAllFound | src/com/restaurant/app/server/WebServerLauncher.java:144-154 | when every element finds its item, the loop runs to the end |
| WebServer.ReadFromStops | src/com/restaurant/app/server/WebServerLauncher.java:148-152 | a loop that stops does so at the first element that did not find its item, with that element's outcome |
| WebServer.ReadItemsOutcome | src/com/restaurant/app/server/WebServerLauncher.java:144-154 | the loop places the order exactly when every element finds its item; otherwise the first one that does not decides |
| WebServer.CreateInvalidJson | src/com/restaurant/app/server/WebServerLauncher.java:124-131 | a body that fails to parse or is not an object, and only such a body, gets 400 "Invalid JSON: " plus the parser's message |
| WebServer.CreateNeedsItems | src/com/restaurant/app/server/WebServerLauncher.java:134-138 | an object whose `items` is absent, `null` or empty, and only such an object, gets 400 "Order must include at least one item" |
| WebServer.FieldText | src/com/restaurant/app/server/WebServerLauncher.java:141-142 | `String.valueOf(getOrDefault(key, text))` gives a string field's own text and the default when the key is absent |
| WebServer.CreatePlaced | src/com/restaurant/app/server/WebServerLauncher.java:140-156 | an accepted body has a non-empty `items` list whose every element found its item; the lines have exactly the found codes, each once, with quantities of at least 1; table and notes default to "TBD" and "" |
| WebServer.ReadOrder | src/com/restaurant/app/server/WebServerLauncher.java:140-154 | the loop over a real `Order` with `addItem` ends as `ReadItems` says; a placed order is new, valid, has status NEW, the given table and notes, and exactly the read lines |
| WebServer.HandleCreate | src/com/restaurant/app/server/WebServerLauncher.java:123-161 | the answer is what `CreateDecision` says; exactly an accepted request records a new SERVED order with the decided table, notes and lines at the front of the history; any other request leaves the history unchanged |

## Left out

- Prices, line totals, subtotal, tax, total and `summaryLine` are not modelled, because they are floating-point arithmetic and formatting. `MenuItem` carries no price.
- JsonParsed.ReparseIdempotent: holds only in the model, where a fraction is kept as its literal text. In Java, `parse("1e400")` gives the `Double` `Infinity` (JsonUtil.java:259-261), and `stringify` writes it as `Infinity` (JsonUtil.java:51-52). `parse("Infinity")` then reaches `parseNumber`, scans an empty literal and throws `NumberFormatException` (JsonUtil.java:263-267). `-1e400` fails the same way. `JsonRoundTrip.DecodeRoundTrip` carries the same proviso.
- JsonParser.Parser.ParseValue: nesting depth is unbounded. Java's mutual recursion of `parseValue`, `parseObject` and `parseArray` (JsonUtil.java:113-173) ends in `StackOverflowError` on deeply nested input. `handleCreate` does not catch that error (WebServerLauncher.java:126-131), so no answer is sent, where the model answers as for any other body.
- Fractional numbers are kept as the text of their literal. The value and acceptance rules of `Double.parseDouble` are not modelled: `1e` and `-.` are accepted as fractions, where Java would throw.
- JsonWriter.Writer.WriteValue: writes a fractional number as the literal text it was read from, not as `Double.toString` would format the parsed `double`.
- The `writeValue` fallback that quotes the `toString` of any other object is not modelled, because values are restricted to what the parser produces.
- `Character.isDigit` and `Character.digit` are restricted to ASCII digits and letters. `Character.isWhitespace` is a fixed set of BMP units. `toLowerCase` is restricted to ASCII letters.
- WebServer.QuantityOf: states `max(1, q)` only for an `Integer` quantity. A `Long` quantity keeps its low 32 bits (`Wrap32`), and a fractional quantity goes through the parameter `intValue`.
- The HTTP exchange is not modelled: the server and thread pool, reading the body, `sendJson`, `sendStatus`, `handleList` and the method dispatch of `handle`. Requests run concurrently on a cached thread pool (WebServerLauncher.java:49), and `addOrder` mutates an unsynchronised `ArrayDeque` (OrderManager.java:12, 23-29). So `OrderManagement.AdmitAllRecent` describes sequential calls only. Interleaved `handleCreate` calls are not modelled.
- `MenuHandler` and `orderSummary` are not modelled, so the JSON body of the 201 answer is not modelled either (it holds prices and dates).
- `StaticFileHandler.handle` and `resolvePath` are not modelled. `detectMimeType` is modelled on the file name, so `Path.getFileName` is not part of this model.
- Order ids (`UUID.randomUUID`), `createdAt` (`LocalDateTime.now`) and all date formatting are not modelled.
- Setting a `null` table or notes is not modelled, because texts here are never `null`.
- A `ClassCastException` or `NullPointerException` in `handleCreate` is modelled as the outcome `Throw`. It gets no answer and records no order; the exception's propagation is not modelled.
- The Swing user interface and the browser front end are not part of this model.
