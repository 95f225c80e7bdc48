# GitHub user activity: a Dafny model of its JSON reader and event formatter

GitHubUserActivity fetches a user's public events from the GitHub API and
prints one sentence per event. This project models the part of the program
that turns the API's JSON text into those sentences:

- **JsonParser** is a recursive parser with no tokenizer. It dispatches on
  the trimmed text. Objects and arrays lose their outer delimiters, and
  their bodies are cut at top-level commas by a quote- and nesting-aware
  splitter (`splitJsonArray`). Each piece is then parsed again. Strings
  keep their text as it is, with no escapes decoded. Numbers are matched
  against `-?\d+(\.\d+)?([Ee][+-]?\d+)?` and become a `Long` or a `Double`.
- **JsonReader / JsonData** look up a dotted path such as
  `payload.issue.number` in the parsed tree. A segment `name[n]` picks a
  list element. A plain key on something that is not a map stops the walk.
  A bad list segment throws.
- **JsonDataHandler** parses a text. It wraps each element of a top-level
  array in a reader, or wraps the whole result in a single reader.
- **GitHubEventType / EventRefType** list the sixteen event kinds, their
  classification, and the reverse lookup from a type string.
- **GitHubEventActivityFormatter** switches on each event's `type` and
  fills a `String.format` pattern from the event's fields.
- **GitHubUserNameValidator** checks a user name.

Java exceptions become the constructors of `JsonValue.Error`. A
`RuntimeException` carries its message fragment, and the standard
exceptions (`ClassCastException`, `NullPointerException`,
`NumberFormatException`, and the index exceptions) are plain constructors.
The insertion-ordered `LinkedHashMap` of a JSON object is an association
list. `Put` replaces a key in place or appends it. Java's `Object` values
are the `Json` datatype, in which a `Double` keeps its source text.

Where a Java method changes state step by step (the splitter loop, the
element and pair loops, the path walk, the reader list, the event loop,
the gollum page loop, the static map initializer), it is modelled as a
`method` with a loop. Each such method is proved to return exactly what a
specification function returns. The properties are then proved about those
functions. Readers are classes with immutable fields, as in Java.

Files:

- `json_value.dfy`: values, errors and the ordered map.
- `java_string.dfy`: `trim`, `indexOf`, `split`, `parseInt`/`parseLong`, `%d` and `%S`.
- `json_splitter.dfy`: the splitter.
- `json_numbers.dfy`: the number pattern.
- `json_parser.dfy` and `json_parser_props.dfy`: the parser and what it promises.
- `json_reader.dfy`, `json_data.dfy` and `path_lookups.dfy`: path lookup.
- `json_data_handler.dfy`: the handler.
- `event_types.dfy`: the event kinds.
- `activity_formatter.dfy` and `formatter_props.dfy`: the formatter.
- `user_names.dfy`: the validator.

## Model

| member | source | states |
|---|---|---|
| JsonValue.Put | src/main/java/org/tommy/parser/JsonParser.java:42-58 | `map.put` on a LinkedHashMap: the key gets the new value, every other key keeps its value, a new key goes last and an existing key keeps its position, and a map with distinct keys keeps them distinct |
| JsonValue.Get | src/main/java/org/tommy/model/JsonReader.java:51 | `map.get` finds a binding exactly when the key is among the map's keys |
| JavaString.Trim | src/main/java/org/tommy/parser/JsonParser.java:39 | `String.trim` gives a text no longer than its input, with no blank at either end, and empty exactly when the input is all blanks (characters up to U+0020) |
| JavaString.TrimIgnoresMargins | src/main/java/org/tommy/parser/JsonParser.java:126 | blank margins around a text do not change its trimmed form |
| JavaString.IndexOf | src/main/java/org/tommy/parser/JsonParser.java:48 | `indexOf(c)` is -1 exactly when `c` is absent; otherwise it is the position of the first `c` |
| JavaString.SplitJoinRoundTrip | src/main/java/org/tommy/model/JsonReader.java:76-79 | `split` on a one-character delimiter gives back any non-empty, delimiter-free parts joined with that delimiter |
| JavaString.NatToString | src/main/java/org/tommy/GitHubEventActivityFormatter.java:105 | `%d` renders a natural number as decimal digits whose value is that number, with no leading zero |
| JavaString.ParseSigned | src/main/java/org/tommy/model/JsonReader.java:67 | `Integer.parseInt` / `Long.parseLong` return a value inside the type's range, or fail with NumberFormatException |
| JavaString.ParseSignedAccepts | src/main/java/org/tommy/model/JsonReader.java:67 | an optional `+` or `-`, any number of leading zeros and the decimal of a number parse to that number when it is inside the type's range, and fail with NumberFormatException when it is not |
| JavaString.ParseSignedOnlyThose | src/main/java/org/tommy/model/JsonReader.java:67 | every text that parses is written in that form, so every other text fails with NumberFormatException |
| JavaString.ParseSignedIff | src/main/java/org/tommy/model/JsonReader.java:67 | `parseInt` returns `v` exactly when `v` is in range and the text writes `v` with an optional sign and leading zeros |
| JavaString.LongRoundTrip | src/main/java/org/tommy/parser/JsonParser.java:143 | `Long.parseLong` reads back every long that `%d` renders |
| JavaString.IntRoundTrip | src/main/java/org/tommy/model/JsonReader.java:67 | `Integer.parseInt` reads back every int that `%d` renders |
| JsonSplitter.SplitJsonArray | src/main/java/org/tommy/parser/JsonParser.java:91-119 | the Java loop (quote flag, nesting level, cut at top-level commas, trimmed pieces, last piece only if non-empty) returns exactly `SplitTopLevel` of its input |
| JsonSplitter.RawPiecesJoin | src/main/java/org/tommy/parser/JsonParser.java:97-116 | the pieces between cutting commas, joined again with commas, give back the scanned text |
| JsonSplitter.RawPiecesCount | src/main/java/org/tommy/parser/JsonParser.java:105-107 | there is one more piece than there are cutting commas |
| JsonSplitter.SplitTopLevelPieces | src/main/java/org/tommy/parser/JsonParser.java:91-119 | every piece is trimmed and no longer than the input |
| JsonSplitter.QuotedTextIsOpaque | src/main/java/org/tommy/parser/JsonParser.java:101-103 | no comma from a quote opened outside a string to the next unescaped quote cuts, whatever brackets lie between, and the scan leaves the quoted text at the level it entered it |
| JsonSplitter.BalancedScan | src/main/java/org/tommy/parser/JsonParser.java:97-116 | balanced text (plain characters, quoted runs, bracketed balanced text, and their concatenations) entered outside a string leaves the scan in the state it found it, and none of its commas cuts inside brackets |
| JsonSplitter.BracketedTextIsOpaque | src/main/java/org/tommy/parser/JsonParser.java:109-112 | no comma from a bracket opened outside a string to the bracket that closes balanced text after it cuts, whatever quoted text or nested brackets lie between, and the level after the closing bracket is the level before the opening one |
| JsonSplitter.RawPiecesOfJoin | src/main/java/org/tommy/parser/JsonParser.java:97-116 | balanced pieces with no top-level comma, joined with commas, are cut back into exactly those pieces, and the scan ends at level 0 outside a string |
| JsonSplitter.SplitJoinPieces | src/main/java/org/tommy/parser/JsonParser.java:91-119 | the splitter undoes a comma join of non-empty, trimmed, balanced pieces with no top-level comma |
| JsonSplitter.SplitJoinTrimsPieces | src/main/java/org/tommy/parser/JsonParser.java:91-119 | the splitter cuts a comma join of non-blank, balanced pieces back into those pieces, each trimmed, so white space after a comma is dropped |
| JsonSplitter.EscapedBackslashKeepsString | src/main/java/org/tommy/parser/JsonParser.java:101-103 | a quote right after an escaped backslash, as in `"a\\",1`, does not close the string, so the comma after it does not cut and the text stays one piece |
| JsonSplitter.NoPiecesIffBlank | src/main/java/org/tommy/parser/JsonParser.java:91-119 | the splitter gives no pieces exactly when its input is blank |
| JsonSplitter.InteriorEmptyPiece | src/main/java/org/tommy/parser/JsonParser.java:105-107 | an empty piece between two commas is kept: `a,,b` gives `a`, empty, `b` |
| JsonSplitter.TrailingCommaDropped | src/main/java/org/tommy/parser/JsonParser.java:117 | an empty last piece is dropped: `a,` gives `a` |
| JsonParser.SplitPair | src/main/java/org/tommy/parser/JsonParser.java:48-56 | a piece with no `:` is an invalid pair, and a piece with a `:` splits into a value text shorter than the piece |
| JsonParser.ParseJson | src/main/java/org/tommy/parser/JsonParser.java:30-32 | `parseJson` returns what `parseValue` returns |
| JsonParser.ReadValue | src/main/java/org/tommy/parser/JsonParser.java:125-151 | the dispatch of `parseValue`, run recursively, returns exactly `ParseValue` |
| JsonParser.ReadObject | src/main/java/org/tommy/parser/JsonParser.java:38-61 | the map-filling loop of `parseObject` returns exactly `ParseObject` |
| JsonParser.ReadArray | src/main/java/org/tommy/parser/JsonParser.java:67-76 | the list-filling loop of `parseArray` returns exactly `ParseArray` |
| ParserProperties.ParseIgnoresMargins | src/main/java/org/tommy/parser/JsonParser.java:126 | blank margins around a value do not change what it parses to |
| ParserProperties.StringLiteral | src/main/java/org/tommy/parser/JsonParser.java:131-132 | any text between quotes parses to exactly that text, with no escape decoded |
| ParserProperties.LoneQuote | src/main/java/org/tommy/parser/JsonParser.java:132 | a lone `"` fails with StringIndexOutOfBoundsException |
| ParserProperties.Literals | src/main/java/org/tommy/parser/JsonParser.java:133-136 | `null`, `true` and `false` parse to null and the two booleans |
| ParserProperties.LongLiteral | src/main/java/org/tommy/parser/JsonParser.java:137-143 | the decimal text of every long parses back to that long |
| ParserProperties.NumberTextParses | src/main/java/org/tommy/parser/JsonParser.java:137-147 | trimmed text that starts with a sign or a digit and matches the number pattern is classified as a number |
| ParserProperties.LongOverflow | src/main/java/org/tommy/parser/JsonParser.java:143-146 | integer text beyond the long range fails with "Invalid number" and that text |
| ParserProperties.UnrecognizedText | src/main/java/org/tommy/parser/JsonParser.java:148-149 | trimmed text that starts no object, array or string and is neither a literal nor a number fails with "Unrecognized JSON value" |
| ParserProperties.UnclosedObject | src/main/java/org/tommy/parser/JsonParser.java:40 | object text that does not end in `}` fails with "Invalid JSON object" and the trimmed text |
| ParserProperties.BlankObject | src/main/java/org/tommy/parser/JsonParser.java:43-44 | braces around blank text give the empty map |
| ParserProperties.PairWithoutColon | src/main/java/org/tommy/parser/JsonParser.java:47-51 | the first piece of an object with no `:`, after pieces that all parse, fails the whole object with "Invalid key-value pair" and that piece |
| ParserProperties.QuotedPairKey | src/main/java/org/tommy/parser/JsonParser.java:52-56 | a quoted key loses its quotes and blank margins, and the value text is everything after the first `:`, further colons included |
| ParserProperties.PlainPairKey | src/main/java/org/tommy/parser/JsonParser.java:52-56 | an unquoted, trimmed key is kept as it is |
| ParserProperties.PairsSucceed | src/main/java/org/tommy/parser/JsonParser.java:47-58 | the pair loop succeeds exactly when every piece has a `:` and its value text parses |
| ParserProperties.PairsFirstError | src/main/java/org/tommy/parser/JsonParser.java:47-58 | a failing pair loop fails with the error of its first piece that has no `:` or whose value does not parse |
| ParserProperties.PairsErrorAt | src/main/java/org/tommy/parser/JsonParser.java:47-58 | a failing piece after pieces that all parse decides the error of the pair loop |
| ParserProperties.PairsKeysInOrder | src/main/java/org/tommy/parser/JsonParser.java:47-58 | on success, the map's keys are the old keys followed by the pieces' keys, each kept at its first occurrence, as LinkedHashMap insertion order does |
| ParserProperties.FirstOccurrencesAbsorb | src/main/java/org/tommy/parser/JsonParser.java:57 | dropping repeated keys early does not change which first occurrences are kept, so re-putting a key keeps its position |
| ParserProperties.PairsKeepUnique | src/main/java/org/tommy/parser/JsonParser.java:47-58 | the pair loop keeps each key once |
| ParserProperties.PairsKeepOther | src/main/java/org/tommy/parser/JsonParser.java:47-58 | a key that no piece names keeps its old binding |
| ParserProperties.PairsLastWins | src/main/java/org/tommy/parser/JsonParser.java:47-58 | the last piece that names a key gives that key its value |
| ParserProperties.ObjectLastWins | src/main/java/org/tommy/parser/JsonParser.java:38-61 | in a parsed object, a duplicated key has the value of its last occurrence |
| ParserProperties.ObjectOnlyNamedKeys | src/main/java/org/tommy/parser/JsonParser.java:38-61 | a parsed object binds no key that none of its pieces names |
| ParserProperties.ObjectKeysUnique | src/main/java/org/tommy/parser/JsonParser.java:42-58 | every object the parser returns has each key once |
| ParserProperties.ObjectSucceeds | src/main/java/org/tommy/parser/JsonParser.java:38-61 | an object parses exactly when its trimmed text ends in `}` and every top-level piece of its body has a `:` and a value text that parses |
| ParserProperties.ObjectFirstError | src/main/java/org/tommy/parser/JsonParser.java:38-61 | a failing object fails with "Invalid JSON object" when it does not end in `}`, and otherwise with the error of the first piece that does not parse |
| ParserProperties.ObjectKeysInOrder | src/main/java/org/tommy/parser/JsonParser.java:38-61 | a parsed object holds the keys its pieces name, in the order of their first occurrence |
| ParserProperties.ObjectOfJoinedPairs | src/main/java/org/tommy/parser/JsonParser.java:38-61 | braces around balanced pairs joined with commas parse as the pair loop over exactly those pairs |
| ParserProperties.ObjectOfValuePair | src/main/java/org/tommy/parser/JsonParser.java:38-61 | `{"k":v}`, for a balanced value text `v` that parses to `x`, parses to the map of `k` to `x` and is itself balanced text |
| ParserProperties.FlatObject | src/main/java/org/tommy/parser/JsonParser.java:38-61 | `{"k1":"t","k2":n}` parses to the map of `k1` to the string `t` and `k2` to the long `n`, in that order |
| ParserProperties.NestedObject | src/main/java/org/tommy/parser/JsonParser.java:38-61 | `{"a":{"k1":"t","k2":n}}` parses to the map of `a` to that inner map |
| ParserProperties.ItemsSucceed | src/main/java/org/tommy/parser/JsonParser.java:72-74 | the element loop succeeds exactly when every piece parses |
| ParserProperties.ItemsInOrder | src/main/java/org/tommy/parser/JsonParser.java:72-74 | on success, the element loop appends one value per piece, in piece order, after what it had |
| ParserProperties.ItemsFirstError | src/main/java/org/tommy/parser/JsonParser.java:72-74 | on failure, the error is that of the first piece that does not parse |
| ParserProperties.ArraySucceeds | src/main/java/org/tommy/parser/JsonParser.java:67-76 | an array parses exactly when its trimmed text has at least two characters and every top-level piece of its body parses |
| ParserProperties.ArrayElements | src/main/java/org/tommy/parser/JsonParser.java:67-76 | a parsed array has at least two characters of trimmed text and one element per top-level piece of its body, each the parse of its piece, in order |
| ParserProperties.ArrayFirstError | src/main/java/org/tommy/parser/JsonParser.java:67-76 | a failing array fails with StringIndexOutOfBoundsException when its trimmed text is shorter than two characters (a lone `[`), and otherwise with the error of its first piece that does not parse |
| ParserProperties.LoneBracket | src/main/java/org/tommy/parser/JsonParser.java:70 | a lone `[` is sent to parseArray and fails with StringIndexOutOfBoundsException, as `substring(1, 0)` does |
| ParserProperties.ArrayOfJoinedValues | src/main/java/org/tommy/parser/JsonParser.java:67-76 | brackets around non-blank, balanced element texts joined with commas, with white space allowed after each comma, parse to the list of the elements' values, in order |
| ParserProperties.EscapedBackslashArray | src/main/java/org/tommy/parser/JsonParser.java:97-115 | with `x` the text `"a\\",1`, `[x]` is a list of one string, `a\\",`, because the quote after the escaped backslash leaves the string open |
| ParserProperties.ArrayCloserIgnored | src/main/java/org/tommy/parser/JsonParser.java:70 | the last character of array text is dropped whatever it is: no closing `]` is required |
| ParserProperties.EmptyArray | src/main/java/org/tommy/parser/JsonParser.java:67-76 | `[]` is the empty list |
| JsonNumbers.MatchesNumberIsGrammar | src/main/java/org/tommy/parser/JsonParser.java:137 | the scanning matcher accepts exactly the texts made of an optional `-`, digits, an optional fraction and an optional signed exponent |
| JsonNumbers.ClassifyNumber | src/main/java/org/tommy/parser/JsonParser.java:139-146 | a matched number is a `Double` exactly when it holds `.`, `e` or `E`; otherwise it is a long within range; a failure is "Invalid number" with the text, and only for integer text |
| JsonNumbers.LongTextIsInteger | src/main/java/org/tommy/parser/JsonParser.java:137-143 | the decimal text of a long matches the pattern and is classified as that long |
| JsonNumbers.LongOverflowIsInvalid | src/main/java/org/tommy/parser/JsonParser.java:143-146 | digits beyond the long range match the pattern but give "Invalid number" |
| JsonNumbers.FloatingFraction | src/main/java/org/tommy/parser/JsonParser.java:140-141 | `3.14` is a double |
| JsonNumbers.FloatingSignedExponent | src/main/java/org/tommy/parser/JsonParser.java:140-141 | `-2.5E+10` is a double |
| JsonNumbers.FloatingExponent | src/main/java/org/tommy/parser/JsonParser.java:140-141 | `1e3` is a double |
| JsonNumbers.NotNumbers | src/main/java/org/tommy/parser/JsonParser.java:137 | `-`, `1.`, `.5`, `+1` and `1e` do not match the number pattern |
| Reader.Walk | src/main/java/org/tommy/model/JsonReader.java:45-55 | a path with no list segment never fails, and any failure is one of the four lookup exceptions |
| Reader.WalkKeys | src/main/java/org/tommy/model/JsonReader.java:45-55 | the Java loop with its early `break` returns exactly `Walk` |
| Reader.JsonReader.Of | src/main/java/org/tommy/model/JsonReader.java:21-29 | `of(data, delimiter)` keeps both |
| Reader.JsonReader.OfDefault | src/main/java/org/tommy/model/JsonReader.java:31-33 | `of(data)` uses the `.` delimiter |
| Reader.JsonReader.GetValueForKey | src/main/java/org/tommy/model/JsonReader.java:76-79 | `getValueForKey` splits the path with Java `split` semantics and walks it |
| Reader.ListSegmentSelects | src/main/java/org/tommy/model/JsonReader.java:65-70 | `name[n]` on a map whose `name` is a list longer than `n` continues from element `n` |
| Reader.ListSegmentOutOfRange | src/main/java/org/tommy/model/JsonReader.java:69 | an index past the end throws IndexOutOfBoundsException |
| Reader.NegativeIndex | src/main/java/org/tommy/model/JsonReader.java:67-69 | a negative index throws IndexOutOfBoundsException |
| Reader.ListSegmentAbsent | src/main/java/org/tommy/model/JsonReader.java:69 | a missing list throws NullPointerException |
| Reader.ListSegmentNotAList | src/main/java/org/tommy/model/JsonReader.java:49-69 | an entry that is not a list throws ClassCastException |
| Reader.ListSegmentOnNonMap | src/main/java/org/tommy/model/JsonReader.java:49 | a list segment on a value that is neither a map nor null throws ClassCastException |
| Reader.ListSegmentOnNull | src/main/java/org/tommy/model/JsonReader.java:49-69 | a list segment on null throws NullPointerException |
| Reader.NonNumericIndex | src/main/java/org/tommy/model/JsonReader.java:67 | an index text that `parseInt` refuses throws NumberFormatException |
| Reader.NonNumericTexts | src/main/java/org/tommy/model/JsonReader.java:67 | `x`, `1][2` and the empty text are refused by `parseInt` |
| Reader.LeadingBracketIsPlain | src/main/java/org/tommy/model/JsonReader.java:72-74 | `[0]` is a plain key, because its `[` is at position 0 |
| Reader.PlainSegmentStops | src/main/java/org/tommy/model/JsonReader.java:52 | a plain key on a value that is not a map stops the walk with that value |
| Reader.PlainPathFromNull | src/main/java/org/tommy/model/JsonReader.java:50-52 | a path with no list segment, walked from null, gives null |
| Reader.MissingKeyGivesNull | src/main/java/org/tommy/model/JsonReader.java:50-51 | a missing key gives null, and so does the rest of a plain path |
| Reader.PlainSegmentSteps | src/main/java/org/tommy/model/JsonReader.java:50-51 | a plain key present in a map continues from its value |
| Reader.WalkAppend | src/main/java/org/tommy/model/JsonReader.java:47-53 | walking `a + b` is walking `b` from where `a` ends, when `a` reaches a map without stopping |
| Reader.ResolveJoined | src/main/java/org/tommy/model/JsonReader.java:76-79 | resolving the delimiter-joined segments walks exactly those segments |
| Reader.TrailingDelimiterIgnored | src/main/java/org/tommy/model/JsonReader.java:77 | a trailing delimiter does not change the answer, because `split` drops trailing empty strings |
| Data.JsonData.GetValueForKey | src/main/java/org/tommy/model/JsonData.java:27-54 | JsonData resolves a path exactly as JsonReader does |
| Data.SameAnswer | src/main/java/org/tommy/model/JsonData.java:27-54 | a JsonData and a JsonReader over the same tree and delimiter give the same answer for every path |
| PathLookups.OneKey | src/test/java/org/tommy/test/JsonDataTest.java:36-49 | a top-level key resolves to its value |
| PathLookups.KeyThenKey | src/test/java/org/tommy/test/JsonDataTest.java:36-49 | `a.b` resolves to `b` inside the map under `a` |
| PathLookups.ListItem | src/test/java/org/tommy/test/JsonDataTest.java:51-67 | `name[n]` resolves to element `n` of the list under `name` |
| PathLookups.ListItemThenKey | src/test/java/org/tommy/test/JsonDataTest.java:69-81 | `name[n].b` resolves to `b` inside element `n` |
| PathLookups.TopLevelArrayLookup | src/test/java/org/tommy/test/JsonDataTest.java:83-100 | after a top-level array of maps, reader `i` resolves a key to that key's value in element `i` |
| PathLookups.FlatObjectLookups | src/test/java/org/tommy/test/JsonDataTest.java:15-33 | from the text `{"k1":"t","k2":n}`, the handler gives one reader in which `k1` finds `t` and `k2` finds `n` |
| PathLookups.NestedObjectLookups | src/test/java/org/tommy/test/JsonDataTest.java:36-49 | from `{"a":{"k1":"t","k2":n}}`, the handler gives one reader in which `a.k1` finds `t` and `a.k2` finds `n` |
| PathLookups.FlatTestObject | src/test/java/org/tommy/test/JsonDataTest.java:15-33 | the flat test text gives one reader, in which `name` finds "Tommy" and `age` finds 30 |
| PathLookups.NestedTestObject | src/test/java/org/tommy/test/JsonDataTest.java:36-49 | the nested test text gives one reader, in which `person.name` finds "Tommy" and `person.age` finds 30 |
| PathLookups.ListObjectLookups | src/test/java/org/tommy/test/JsonDataTest.java:51-67 | from `{"k":[a, b, c]}`, the handler gives one reader in which `k[0]`, `k[1]` and `k[2]` find the three numbers |
| PathLookups.ListTestObject | src/test/java/org/tommy/test/JsonDataTest.java:51-67 | the list test text `{"scores":[90, 80, 85]}` gives one reader, in which `scores[0]`, `scores[1]` and `scores[2]` find 90, 80 and 85 |
| PathLookups.ObjectListLookups | src/test/java/org/tommy/test/JsonDataTest.java:69-81 | from `{"k":[{"n":"t1"},{"n":"t2"}]}`, the handler gives one reader in which `k[0].n` finds `t1` and `k[1].n` finds `t2` |
| PathLookups.ComplexTestObject | src/test/java/org/tommy/test/JsonDataTest.java:69-81 | the complex test text gives one reader, in which `students[0].name` finds "A" and `students[1].name` finds "B" |
| PathLookups.SpacedArrayLookups | src/test/java/org/tommy/test/JsonDataTest.java:83-100 | from `[{"n": "t1"}, {"n": "t2"}]`, the handler gives two readers, in which `n` finds `t1` and then `t2` |
| PathLookups.TopLevelArrayTest | src/test/java/org/tommy/test/JsonDataTest.java:83-100 | the top-level array test text gives two readers, in which `name` finds "Tommy" and then "Jerry" |
| DataHandler.ExtractJsonData | src/main/java/org/tommy/model/JsonDataHandler.java:36-47 | parse failures pass through; an array gives one default reader per element, in order, when every element is a map or null, and a ClassCastException otherwise; any other value gives one reader when it is a map or null |
| DataHandler.WrapParsed | src/main/java/org/tommy/model/JsonDataHandler.java:38-46 | the same, from the parse result |
| EventTypes.ValuesComplete | src/main/java/org/tommy/GitHubEventType.java:23-49 | the sixteen constants, each once |
| EventTypes.TypeNamesDistinct | src/main/java/org/tommy/GitHubEventType.java:23-49 | no two constants share a type string |
| EventTypes.MapOfEntries | src/main/java/org/tommy/GitHubEventType.java:77-81 | the map built from a list of constants binds exactly their type strings, each to a constant carrying that string |
| EventTypes.BuildEventTypeMap | src/main/java/org/tommy/GitHubEventType.java:75-81 | the static initializer loop builds exactly the map of all constants |
| EventTypes.FromEventTypeRoundTrip | src/main/java/org/tommy/GitHubEventType.java:83-85 | looking up a constant's type string gives that constant |
| EventTypes.FromEventTypeFinds | src/main/java/org/tommy/GitHubEventType.java:83-85 | lookup succeeds exactly for the constants' type strings and returns a constant carrying the string |
| EventTypes.FromEventTypeUnknown | src/main/java/org/tommy/GitHubEventType.java:83-85 | any other string gives null |
| EventTypes.CategorySizes | src/main/java/org/tommy/GitHubEventType.java:20-49 | the classification follows the three declaration groups of ten, three and three constants |
| ActivityFormatter.CaseLabelsAreEventTypes | src/main/java/org/tommy/GitHubEventActivityFormatter.java:32-66 | the sixteen `case` labels are exactly the type strings of GitHubEventType |
| ActivityFormatter.CaseLabelOf | src/main/java/org/tommy/GitHubEventActivityFormatter.java:32-64 | each constant's label selects that constant's formatter |
| ActivityFormatter.CaseLabelUnknown | src/main/java/org/tommy/GitHubEventActivityFormatter.java:65-66 | a string that is no type string selects no case |
| ActivityFormatter.DispatchFollowsEventTypes | src/main/java/org/tommy/GitHubEventActivityFormatter.java:31-66 | a known type runs its formatter, an unknown one throws "Unsupported GitHub event type", and a null type throws NullPointerException |
| ActivityFormatter.GollumDispatch | src/main/java/org/tommy/GitHubEventActivityFormatter.java:61-62 | a `GollumEvent` runs the gollum formatter |
| ActivityFormatter.DispatchTo | src/main/java/org/tommy/GitHubEventActivityFormatter.java:31-64 | an event whose type is a constant's type string runs that constant's formatter |
| ActivityFormatter.FormatEvents | src/main/java/org/tommy/GitHubEventActivityFormatter.java:28-72 | the loop over the readers returns the formatted events in order, or the first event's exception |
| ActivityFormatter.FormatEventMethod | src/main/java/org/tommy/GitHubEventActivityFormatter.java:31-66 | one turn of the loop formats one event |
| ActivityFormatter.GollumEventMethod | src/main/java/org/tommy/GitHubEventActivityFormatter.java:180-192 | the page loop returns exactly the gollum sentence |
| FormatterProperties.FirstFailingLookupDecides | src/main/java/org/tommy/GitHubEventActivityFormatter.java:77-200 | for every formatter but the commit comment, the first lookup that fails or does not fit its variable decides the exception |
| FormatterProperties.FormatSucceedsWhenLookupsFit | src/main/java/org/tommy/GitHubEventActivityFormatter.java:77-200 | the eleven formatters that only fill a pattern succeed exactly when every lookup fits its variable |
| FormatterProperties.FormatterReadsOnlyLookups | src/main/java/org/tommy/GitHubEventActivityFormatter.java:77-200 | a formatter reads only its listed paths: two events that agree on them format alike |
| FormatterProperties.CommitIdCut | src/main/java/org/tommy/GitHubEventActivityFormatter.java:89-94 | the commit id is cut to six characters: a null id throws NullPointerException and a shorter one StringIndexOutOfBoundsException, before the repository is read |
| FormatterProperties.CommitIdPrefixOnly | src/main/java/org/tommy/GitHubEventActivityFormatter.java:89-94 | commit ids that agree on their first six characters give the same sentence |
| FormatterProperties.IssueCommentRef | src/main/java/org/tommy/GitHubEventActivityFormatter.java:96-106 | the comment is on a "pull request" exactly when the issue has a `pull_request` key, and a null issue throws NullPointerException |
| FormatterProperties.ReviewCommentAction | src/main/java/org/tommy/GitHubEventActivityFormatter.java:120-127 | the action is "Edited" exactly when the payload has a `changes` key, and a null payload throws NullPointerException |
| FormatterProperties.SponsorshipAction | src/main/java/org/tommy/GitHubEventActivityFormatter.java:142-149 | `pending_tier_change` gives the tier-change sentence, any other action is quoted, and a null action throws NullPointerException |
| FormatterProperties.CreateRef | src/main/java/org/tommy/GitHubEventActivityFormatter.java:163-170 | with no ref the repository is named; otherwise the ref is named in upper case |
| FormatterProperties.CollectOk | src/main/java/org/tommy/GitHubEventActivityFormatter.java:30-71 | when every event formats, the result has one sentence per event, in order |
| FormatterProperties.CollectFails | src/main/java/org/tommy/GitHubEventActivityFormatter.java:30-71 | the first event that fails decides the exception |
| FormatterProperties.PageSentence | src/main/java/org/tommy/GitHubEventActivityFormatter.java:186-188 | a page map renders its action and name, with `null` for a missing one |
| FormatterProperties.PageNotAMap | src/main/java/org/tommy/GitHubEventActivityFormatter.java:185 | a null page throws NullPointerException, and a page that is not a map throws ClassCastException |
| FormatterProperties.GollumNoPages | src/main/java/org/tommy/GitHubEventActivityFormatter.java:183-191 | no pages give the empty string |
| FormatterProperties.GollumLines | src/main/java/org/tommy/GitHubEventActivityFormatter.java:183-191 | the gollum sentence is the page lines, in page order, joined with newlines |
| FormatterProperties.GollumOneLinePerPage | src/main/java/org/tommy/GitHubEventActivityFormatter.java:183-191 | when no page line holds a newline, cutting the sentence at newlines gives back one line per page |
| UserNames.IsValidUserName | src/main/java/org/tommy/GitHubUserNameValidator.java:31-39 | a name is accepted exactly when it has 1 to 39 characters, all ASCII letters, digits or `-`, and neither starts nor ends with `-` |
| UserNames.DoubleHyphenAccepted | src/main/java/org/tommy/GitHubUserNameValidator.java:37-38 | `a--b` holds two consecutive hyphens and is accepted |
| UserNames.ContainsDoubleHyphen | src/main/java/org/tommy/GitHubUserNameValidator.java:23 | the search for `--` finds it exactly when two hyphens are adjacent |
| UserNames.IsValidUserNameIntended | src/main/java/org/tommy/GitHubUserNameValidator.java:10-14 | the rule the class comment states: the conditions above, and no two consecutive hyphens anywhere |
| UserNames.IntendedIsStricter | src/main/java/org/tommy/GitHubUserNameValidator.java:31-39 | the intended rule accepts a subset of what the code accepts; the two differ exactly on well-formed names with `--`, such as `a--b` |

## Left out

- The HTTP client and the command line (`GItHubAPI`, `GitHubUserActivity`) are not part of this model. They do network I/O and printing.
- JsonReader and JsonData split paths on a regular expression. The model splits on one literal character, which is what the default `\\.` and every delimiter used in the program denote.
- A `Double` keeps its text. `Double.parseDouble` always succeeds on text that matches the pattern, and the value is never computed with.
- The `%S` conversion is modelled for ASCII letters only. Java's locale-dependent upper-casing of other letters is not modelled.
- `Integer.parseInt` (JsonReader.java:67) is modelled for ASCII digits. Java also accepts other Unicode decimal digits there. The number pattern's `\d` matches ASCII digits only, as the model does, so `Long.parseLong` at JsonParser.java:143 only ever sees ASCII digits.
- FormatterProperties.CommitIdCut: counts characters, where `substring(0, 6)` at GitHubEventActivityFormatter.java:91 counts UTF-16 code units. The two differ for a commit id holding a character outside the Basic Multilingual Plane; GitHub's hexadecimal ids hold none.
- A null user name, which makes the validator throw, is not modelled: names are strings.
- A stack overflow on deeply nested input is not modelled: recursion depth is unbounded here.
- The tests cast the handler's result to `JsonData`, which would throw ClassCastException because the handler returns `JsonReader`. The lookup lemmas are stated for readers, and `Data.SameAnswer` shows the two classes answer alike.
- FirstFailingLookupDecides: does not cover the commit comment. That formatter cuts the id before it reads the repository, and `CommitIdCut` states what it does instead.
- The comment at JsonReader.java:63 says an out-of-range index gives null. The code throws IndexOutOfBoundsException, and the model follows the code (`ListSegmentOutOfRange`, `NegativeIndex`).
- `parseArray` does not check for a closing `]`. The model follows the code (`ArrayCloserIgnored`).
- The splitter's quote test looks only at the one character before a `"`. A string that ends in an escaped backslash, such as `"a\\"`, therefore stays open. The model follows the code (`EscapedBackslashKeepsString`, `EscapedBackslashArray`).
- `GitHubEventType` descriptions are modelled as data (`Description`). Nothing reads them.

## Findings

| source | as written | input that shows it | evidently intended | confidence | as-written member | corrected member |
|---|---|---|---|---|---|---|
| src/main/java/org/tommy/GitHubUserNameValidator.java:37-38 | `invalidPattern.matcher(userName).matches()` needs the whole name to be `--`, a name the hyphen check already rejects, so consecutive hyphens inside a name pass | `a--b` | reject any name containing `--` (`find()`), as the class comment states | high, not executed | UserNames.DoubleHyphenAccepted | UserNames.IntendedIsStricter |
