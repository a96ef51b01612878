# MyBatis SQL preview in Dafny

This project models the SQL-preview core of `MybatisSqlUtils` from mybatis-sql-viewer.

- `getBoundSql` binds a mapped statement against the parameter map parsed from JSON. It makes one attempt. If that fails, it tries one repair and then binds a second time. The repair applies when the failure message names an expression that "evaluated to a null value". It then puts every top-level collection of the map under that expression's name.
- `formatSql` turns the bound statement into literal SQL. It strips backticks from the raw SQL. It resolves one value per non-OUT parameter mapping and quotes it according to the declared type. It replaces the first `?` once per literal. Finally it pretty-prints the result.

Modules:

- `Values`: the parameter values (`Null`, numbers, strings, booleans, collections, maps) and the text `String.valueOf` gives for them.
- `Literals`: value resolution (`Resolve`), quoting (`Quote`), the non-OUT filter (`NonOut`), and the loop that builds the literal list (`ResolveParameters`).
- `Substitution`: backtick stripping, one `replaceFirst` (`SubstFirst`), and the substitution loop (`Substitute`). It also holds `Fill`, a reference reading of the loop that scans left to right. Java's replacement-string syntax is modelled separately (see Findings).
- `NullValuePattern`: `PATTERN.matcher(msg).find()` and `group(1)`. The match starts at the leftmost position. The `.*` group is greedy and does not cross a line terminator.
- `ParamMaps`: the parameter map as an ordered list of distinct keys. `put` keeps the position of a present key and appends an absent one. The class `ParamMap` holds the map and its in-place `Repair` loop.
- `MybatisSqlUtils`: `FormatSql`, `GetBoundSql` (which builds its own `ParamMap`, as the Java method parses its own map), `GetSql`, and properties of the whole retry.

External services are parameters:
- the MyBatis binder (`ms.getBoundSql`) is `bind: Entries -> BindOutcome`;
- the type-handler registry and `MetaObject.getValue` are the two function fields of `Literals.Configuration`;
- `SqlFormatter.format` is `format: string -> string`.

The repair loop reads each value when the iteration reaches it. `HashMap`'s values iterator returns the current value of each entry. So at the captured key's own position, the loop reads whatever an earlier turn already put there. As a result, the key ends up with the last collection held under some *other* key. The key's own collection never wins over another one (`ParamMaps.OwnCollectionLoses`). A fold over a snapshot of the values would give a different answer. The model follows the code.

Three behaviours of the code can look unintended. The model keeps each of them as the code has it:
- a retry follows every failed first attempt, not only a failure whose message names a null expression;
- the repair changes the parsed map in place, and the second attempt sees those changes;
- nothing checks that the number of `?` matches the number of literals. Extra literals do nothing, and unused `?` stay. A `?` inside an earlier literal is taken by a later replacement.

## Model

| member | source | states |
|---|---|---|
| `Literals.Quote` | src/main/java/io/github/linyimin/plugin/utils/MybatisSqlUtils.java:83-87 | A numeric slot gives `0` for null and the value's text unquoted otherwise. Any other slot gives a literal that starts and ends with `'`, and whose inside is the value's text (empty for null). |
| `Literals.QuoteDoesNotEscape` | src/main/java/io/github/linyimin/plugin/utils/MybatisSqlUtils.java:86 | Quotes inside a string value are not escaped: the literal is `'` + text + `'`. |
| `Literals.QuoteConflatesNull` | src/main/java/io/github/linyimin/plugin/utils/MybatisSqlUtils.java:84-86 | A numeric null gives the same literal as zero. A textual null gives the same literal as the empty string. |
| `Literals.Resolve` | src/main/java/io/github/linyimin/plugin/utils/MybatisSqlUtils.java:73-81 | The value sources are tried in order: an additional parameter of that name, then null for a null parameter object, then the object itself if its class has a type handler, and only then the property looked up in the object. |
| `Literals.AdditionalWins` | src/main/java/io/github/linyimin/plugin/utils/MybatisSqlUtils.java:73-74 | An additional parameter for the property is used, whatever the parameter object is. |
| `Literals.NullObjectGivesNull` | src/main/java/io/github/linyimin/plugin/utils/MybatisSqlUtils.java:75-76 | With no additional parameter and a null parameter object, the value is null. |
| `Literals.HandledObjectIgnoresProperty` | src/main/java/io/github/linyimin/plugin/utils/MybatisSqlUtils.java:77-78 | A parameter object whose class has a type handler is used whole, for every property without an additional parameter. |
| `Literals.LookupOtherwise` | src/main/java/io/github/linyimin/plugin/utils/MybatisSqlUtils.java:79-81 | Otherwise the property path is looked up in the parameter object. |
| `Literals.NonOut` | src/main/java/io/github/linyimin/plugin/utils/MybatisSqlUtils.java:64-67 | The mappings that get a literal are no more than the input mappings. None of them is in OUT mode, and each is one of the inputs. |
| `Literals.NonOutSnoc` | src/main/java/io/github/linyimin/plugin/utils/MybatisSqlUtils.java:64-67 | Appending a mapping adds it to the filtered list unless it is OUT. |
| `Literals.NonOutAppend` | src/main/java/io/github/linyimin/plugin/utils/MybatisSqlUtils.java:64-67 | The filter keeps mapping order across concatenation. |
| `Literals.NonOutWithoutOut` | src/main/java/io/github/linyimin/plugin/utils/MybatisSqlUtils.java:64-67 | With no OUT mapping, every mapping gets a literal, in order. |
| `Literals.NonOutOnlyOut` | src/main/java/io/github/linyimin/plugin/utils/MybatisSqlUtils.java:64-67 | With only OUT mappings, no literal is produced. |
| `Literals.NonOutCount` | src/main/java/io/github/linyimin/plugin/utils/MybatisSqlUtils.java:64-67 | Kept mappings plus OUT mappings equal all mappings. |
| `Literals.LiteralCount` | src/main/java/io/github/linyimin/plugin/utils/MybatisSqlUtils.java:61-89 | The literal list has one entry per mapping that is not OUT. |
| `Literals.ResolveParameters` | src/main/java/io/github/linyimin/plugin/utils/MybatisSqlUtils.java:61-89 | The appending loop yields one literal per non-OUT mapping. Literal j is the quoted resolved value of the j-th non-OUT mapping. |
| `Values.NatText` | src/main/java/io/github/linyimin/plugin/utils/MybatisSqlUtils.java:84 | The decimal text of a natural number is made only of digits, has no leading zero, and spells the number (`DigitsValue`, a left-to-right reading of the digits). |
| `Values.IntText` | src/main/java/io/github/linyimin/plugin/utils/MybatisSqlUtils.java:84 | The text of an integer has a leading `-` exactly when the integer is negative, digits otherwise, and spells the integer (`SignedValue`). |
| `Values.Text` | src/main/java/io/github/linyimin/plugin/utils/MybatisSqlUtils.java:84-86 | `String.valueOf`: a number prints as the text that spells it, and a string prints as itself. A collection prints between `[` and `]`, and a map between `{` and `}`. |
| `Values.NonNullEntries` | src/main/java/io/github/linyimin/plugin/utils/MybatisSqlUtils.java:84-86 | The map entries fastjson writes: every entry whose value is not null, and only such entries. |
| `Values.NullEntriesOmitted` | src/main/java/io/github/linyimin/plugin/utils/MybatisSqlUtils.java:84-86 | A map whose only entry holds null prints as `{}`. |
| `Substitution.StripBackticks` | src/main/java/io/github/linyimin/plugin/utils/MybatisSqlUtils.java:50 | No backtick is left. The length drops by the number of backticks. Every other character occurs as often as before. |
| `Substitution.StripWithoutBackticks` | src/main/java/io/github/linyimin/plugin/utils/MybatisSqlUtils.java:50 | Text without backticks is unchanged. |
| `Substitution.StripIdempotent` | src/main/java/io/github/linyimin/plugin/utils/MybatisSqlUtils.java:50 | Stripping twice is stripping once. |
| `Substitution.StripAppend` | src/main/java/io/github/linyimin/plugin/utils/MybatisSqlUtils.java:50 | Stripping distributes over concatenation, so order is kept. |
| `Substitution.FirstIndex` | src/main/java/io/github/linyimin/plugin/utils/MybatisSqlUtils.java:92 | The position found holds the character, and no earlier position does. |
| `Substitution.SubstFirst` | src/main/java/io/github/linyimin/plugin/utils/MybatisSqlUtils.java:92 | Text without `?` is unchanged. Otherwise exactly one `?` is consumed: the length and the `?` count change by the literal's contribution less one. |
| `Substitution.SubstFirstSplit` | src/main/java/io/github/linyimin/plugin/utils/MybatisSqlUtils.java:92 | Written as prefix without `?` + `?` + rest, the text becomes prefix + literal + rest. |
| `Substitution.SubstFirstPrefix` | src/main/java/io/github/linyimin/plugin/utils/MybatisSqlUtils.java:92 | A prefix without `?` is carried through one replacement unchanged. |
| `Substitution.Substitute` | src/main/java/io/github/linyimin/plugin/utils/MybatisSqlUtils.java:91-93 | The loop applies one replacement per literal, in order. When no literal contains `?`, the result is the left-to-right reading `Fill`. |
| `Substitution.SubstAllPrefix` | src/main/java/io/github/linyimin/plugin/utils/MybatisSqlUtils.java:91-93 | A prefix without `?` is carried through the whole loop unchanged. |
| `Substitution.SubstAllNoPlaceholder` | src/main/java/io/github/linyimin/plugin/utils/MybatisSqlUtils.java:91-93 | A literal with no `?` left to replace leaves the text unchanged, for any number of literals. |
| `Substitution.SubstAllIsFill` | src/main/java/io/github/linyimin/plugin/utils/MybatisSqlUtils.java:91-93 | If no literal contains `?`, the replaceFirst loop gives the i-th `?` the i-th literal, left to right. |
| `Substitution.FillExhausted` | src/main/java/io/github/linyimin/plugin/utils/MybatisSqlUtils.java:91-93 | With no literals, every `?` stays. |
| `Substitution.FillLeavesRest` | src/main/java/io/github/linyimin/plugin/utils/MybatisSqlUtils.java:91-93 | Once the first n `?` have used up the n literals, the rest of the text is untouched. |
| `Substitution.FillPlaceholderCount` | src/main/java/io/github/linyimin/plugin/utils/MybatisSqlUtils.java:91-93 | k `?` and n literals without `?` leave k−n `?` when n ≤ k, and none otherwise. |
| `Substitution.PlaceholderInLiteralIsReused` | src/main/java/io/github/linyimin/plugin/utils/MybatisSqlUtils.java:91-93 | A `?` inside the first literal takes the second literal, and the template's second `?` stays. |
| `Substitution.ReplaceFirstAsWritten` | src/main/java/io/github/linyimin/plugin/utils/MybatisSqlUtils.java:92 | Java's `replaceFirst` returns text without `?` unchanged. Otherwise it succeeds only if the replacement string expands. |
| `Substitution.ExpandPlain` | src/main/java/io/github/linyimin/plugin/utils/MybatisSqlUtils.java:92 | A replacement string without `$` or `\` expands to itself. |
| `Substitution.ExpandShortens` | src/main/java/io/github/linyimin/plugin/utils/MybatisSqlUtils.java:92 | Java's expansion of a replacement string never lengthens it. When the string holds a `$` or `\`, any expansion that succeeds is strictly shorter. |
| `Substitution.AsWrittenAgreesWithoutMeta` | src/main/java/io/github/linyimin/plugin/utils/MybatisSqlUtils.java:92 | Java's replacement equals the literal replacement exactly when the text has no `?` or the literal has neither `$` nor `\`. |
| `Substitution.ReplacementSyntaxCounterexample` | src/main/java/io/github/linyimin/plugin/utils/MybatisSqlUtils.java:92 | The literal `'$5'` makes Java's replacement throw. The literal `'C:\tmp'` loses its backslash. Literal replacement keeps both. |
| `NullValuePattern.Run` | src/main/java/io/github/linyimin/plugin/utils/MybatisSqlUtils.java:33 | The run stays within the text, has no line terminator, and ends at a line terminator or at the end. |
| `NullValuePattern.Longest` | src/main/java/io/github/linyimin/plugin/utils/MybatisSqlUtils.java:33 | Greedy backtracking: the largest group length within the bound after which the closing text follows. |
| `NullValuePattern.FindFrom` | src/main/java/io/github/linyimin/plugin/utils/MybatisSqlUtils.java:107-109 | `find` reports a real match. No match starts earlier. At its start no longer group matches. None means no match at all. |
| `NullValuePattern.Capture` | src/main/java/io/github/linyimin/plugin/utils/MybatisSqlUtils.java:107-110 | A group is captured exactly when the pattern matches somewhere in the message. |
| `NullValuePattern.CaptureRoundTrip` | src/main/java/io/github/linyimin/plugin/utils/MybatisSqlUtils.java:107-110 | The message "The expression 'k' evaluated to a null value" captures k back, whatever quote-free text follows. |
| `NullValuePattern.CaptureAtStart` | src/main/java/io/github/linyimin/plugin/utils/MybatisSqlUtils.java:107-110 | A match at position 0 with no later closing text is the captured group. |
| `NullValuePattern.CaptureIsGreedy` | src/main/java/io/github/linyimin/plugin/utils/MybatisSqlUtils.java:33 | With the closing text twice on one line, the group runs to the second occurrence. |
| `NullValuePattern.NoPrefixNoCapture` | src/main/java/io/github/linyimin/plugin/utils/MybatisSqlUtils.java:107-109 | A message without "The expression '" captures nothing. |
| `ParamMaps.Lookup` | src/main/java/io/github/linyimin/plugin/utils/MybatisSqlUtils.java:100 | A key is found exactly when some entry has it. The value found is that of its first entry. |
| `ParamMaps.PutEntry` | src/main/java/io/github/linyimin/plugin/utils/MybatisSqlUtils.java:113 | `put` replaces the value of a present key in place and appends an absent key. Every other entry is kept, and keys stay distinct. |
| `ParamMaps.PutEntryLookup` | src/main/java/io/github/linyimin/plugin/utils/MybatisSqlUtils.java:113 | After `put(k, v)`, k maps to v and every other key maps as before. |
| `ParamMaps.PutPut` | src/main/java/io/github/linyimin/plugin/utils/MybatisSqlUtils.java:111-114 | Two puts under one key leave the second value. |
| `ParamMaps.PutPresent` | src/main/java/io/github/linyimin/plugin/utils/MybatisSqlUtils.java:111-114 | Putting the value a key already holds changes nothing. |
| `ParamMaps.LastCollection` | src/main/java/io/github/linyimin/plugin/utils/MybatisSqlUtils.java:111-115 | The index found is of a collection under another key, and no later such entry exists. None means there is none at all. |
| `ParamMaps.RepairStep` | src/main/java/io/github/linyimin/plugin/utils/MybatisSqlUtils.java:111-115 | One turn of the loop reads the live value at its position. It puts that value under the key when it is a collection. |
| `ParamMaps.RepairedLookup` | src/main/java/io/github/linyimin/plugin/utils/MybatisSqlUtils.java:107-116 | After the repair, the key holds the last other collection and no other key changes. With no other collection, the map is unchanged. |
| `ParamMaps.OwnCollectionLoses` | src/main/java/io/github/linyimin/plugin/utils/MybatisSqlUtils.java:111-115 | With its own collection and another key's, the key ends up with the other key's collection. |
| `ParamMaps.ParamMap.constructor` | src/main/java/io/github/linyimin/plugin/utils/MybatisSqlUtils.java:100 | The parsed map with its entries, keys distinct. |
| `ParamMaps.ParamMap.Put` | src/main/java/io/github/linyimin/plugin/utils/MybatisSqlUtils.java:113 | The map becomes `PutEntry` of the old map. |
| `ParamMaps.ParamMap.Repair` | src/main/java/io/github/linyimin/plugin/utils/MybatisSqlUtils.java:111-115 | The in-place loop leaves exactly the repaired map. |
| `MybatisSqlUtils.FormatSql` | src/main/java/io/github/linyimin/plugin/utils/MybatisSqlUtils.java:47-96 | The result is the formatter applied to the stripped SQL with the literals substituted. With no mappings, it is the formatter applied to the stripped SQL. With no `?` in any literal, it is the left-to-right fill. |
| `MybatisSqlUtils.MapForRetry` | src/main/java/io/github/linyimin/plugin/utils/MybatisSqlUtils.java:107-116 | The map the second attempt binds. Keys stay distinct. A message the pattern does not match leaves the map unchanged. Otherwise the captured key holds the last collection under another key, and no other key changes. |
| `MybatisSqlUtils.GetBoundSql` | src/main/java/io/github/linyimin/plugin/utils/MybatisSqlUtils.java:98-119 | A first success is returned after one attempt, on the untouched map. Otherwise there are exactly two attempts, and the second outcome is returned. The last attempt binds the map prepared for the retry. |
| `MybatisSqlUtils.GetSql` | src/main/java/io/github/linyimin/plugin/utils/MybatisSqlUtils.java:34-45 | Binding with repair, then formatting: the formatted SQL on success, the second failure's message otherwise. |
| `MybatisSqlUtils.FirstSuccessIsFinal` | src/main/java/io/github/linyimin/plugin/utils/MybatisSqlUtils.java:104-105 | A first success is the outcome. |
| `MybatisSqlUtils.SecondAttemptIsFinal` | src/main/java/io/github/linyimin/plugin/utils/MybatisSqlUtils.java:106-117 | After a first failure, the outcome is the second attempt, so a second failure propagates. |
| `MybatisSqlUtils.UnmatchedMessageRetriesUnchanged` | src/main/java/io/github/linyimin/plugin/utils/MybatisSqlUtils.java:107-117 | A message the pattern does not match still gets a retry, on the unchanged map. |
| `MybatisSqlUtils.RetryMapContents` | src/main/java/io/github/linyimin/plugin/utils/MybatisSqlUtils.java:107-116 | For a matching message, the captured key holds the last other collection, and other keys are unchanged. With no other collection, the map is unchanged. |
| `MybatisSqlUtils.ForeachCollectionRelocated` | src/main/java/io/github/linyimin/plugin/utils/MybatisSqlUtils.java:107-116 | `{"ids": [...]}` with the message about `list` is retried with `list` also holding that collection. |
| `MybatisSqlUtils.NumericSlotScenario` | src/main/java/io/github/linyimin/plugin/utils/MybatisSqlUtils.java:79-93 | `... = ?` with one numeric slot whose property the parameter object `{"id": n}` holds reads `... = n`. |
| `MybatisSqlUtils.NullTextSlotScenario` | src/main/java/io/github/linyimin/plugin/utils/MybatisSqlUtils.java:79-93 | `... = ?` with one text slot whose property the parameter object `{"name": null}` holds as null reads `... = ''`. |

## Left out

- `executeSql` and `mysqlConnectTest` are not modelled. They are JDBC driver loading, connections and result sets, which is I/O. Their only logic is the 10-row cap.
- Building the MyBatis configuration, looking up the mapped statement, and the template engine's binding are not modelled. They are library code, so binding is the parameter `bind`.
- Parsing the parameter JSON, the default charset and the context class loader are not modelled. The model starts from the parsed map.
- `Literals.Resolve`: the type-handler check and `MetaObject.getValue` are opaque functions of the value. MyBatis's `hasAdditionalParameter` matches only the first segment of a property path, but the model looks up the whole property string.
- `Values.Text`: decimal numbers, dates and JSON string escaping are not modelled. Collections and maps print as fastjson's compact JSON with its default settings: map entries holding null are left out, and nothing is escaped.
- `ParamMaps.ParamMap.Repair`: Java's `HashMap` iterates in hash order, but the model iterates in a fixed entry order and appends new keys at the end.
- `ParamMaps.ParamMap.Repair`: Java's fail-fast iterator throws `ConcurrentModificationException` when a new key is put while entries remain. The model does not.
- `MybatisSqlUtils.GetBoundSql`: a null exception message (a `NullPointerException` in the matcher) is not modelled. Messages are always strings.
- `MybatisSqlUtils.FormatSql`: uses the corrected literal replacement, not Java's replacement-string syntax. See Findings. `ReplaceFirstAsWritten` models the code as written.
- `MybatisSqlUtils.FormatSql`: a null mapping list is modelled as an empty one. `CollectionUtils.isEmpty` treats both alike.

## Findings

| source | as written | input that shows it | evidently intended | confidence | as-written member | corrected member |
|---|---|---|---|---|---|---|
| src/main/java/io/github/linyimin/plugin/utils/MybatisSqlUtils.java:92 | `sql.replaceFirst("\\?", value)` reads the literal as a regex replacement. `$` starts a group reference and `\` escapes the next character. | A text slot whose value is `$5`: the literal `'$5'` throws `IndexOutOfBoundsException` ("No group 5"), since the pattern has no group 5. A trailing `$` or `\`, or `$` followed by a non-digit, throws `IllegalArgumentException`. A value `C:\tmp` appears as `'C:tmp'`. | The literal is copied verbatim, as with `Matcher.quoteReplacement`. | not executed; medium | `Substitution.ReplacementSyntaxCounterexample` | `Substitution.SubstFirst` |
