# Proxy-list field tokenizer

A Dafny model of the semantic-token provider of the `proxylist` editor
extension. A proxy list has one entry per line,
`host:port:value:username:password`. The provider splits the document into
lines and each line into `:`-separated fields. It emits one token per field:
`(line, startCharacter, length, tokenType, tokenModifiers)`. A field's token
type depends only on its position in the line: delimiter, port, value,
username, password, and delimiter again from the sixth field on. Token types
are encoded by their index in the legend
`["delimiter", "port", "value", "username", "password"]`. The modifier code is
always 0.

The model has three modules:

- `Legend` (`legend.dfy`): the `Category` datatype and the legend. It holds
  the name-to-index table, which is filled from the legend one position at a
  time, the same way the source fills its `Map`. It also holds the
  position-to-category switch and the two encoders.
- `Split` (`split.dfy`): the splitting primitives as pure functions.
  - `SplitLines` is the split on `\r\n|\r|\n`, scanning left to right with
    `\r\n` tried first.
  - `SplitOn` is `String.split` on a single character.
  - `Join` and `FieldStart` say where each field lies in its line.
- `Tokenizer` (`tokenizer.dfy`): the `Token` datatype and the tokenizer.
  - `Tokenize` is the pure specification.
  - `ParseText` is the imperative version. It mirrors the source's two nested
    loops, the `push` onto the result list and the running `currentOffset`.
    Its postcondition is that it returns exactly `Tokenize(text)`.
  - The remaining lemmas state the properties of `Tokenize`.

The token type is a `Category` value instead of the string the source stores.
`Legend.Name` gives that string, and `EncodeTokenType` is applied to it. A JS
array that `push` extends is modelled as a `seq` reassigned with one more
element. Strings are `seq<char>`, and lengths count `char`s.

## Model

| member | source | states |
|---|---|---|
| `Legend.IndexTable` | src/extension.ts:3-8 | The table filled from a legend has exactly the legend's names as keys. Each name maps to a position of the legend that holds that name. |
| `Legend.IndexTableLastOccurrence` | src/extension.ts:8 | A name is mapped to its last position in the legend: no later position holds it, since a later `set` overwrites an earlier one. |
| `Legend.ModifierTableEmpty` | src/extension.ts:11-14 | The modifier table filled from the empty modifier legend has no entries. |
| `Legend.Name` | src/extension.ts:90-104 | Every category's name, the string `_getTokenForPart` returns, is one of the legend's names. |
| `Legend.EncodeTokenModifiers` | src/extension.ts:63-65 | Every modifier list, whatever it holds, is encoded as 0. |
| `Legend.IndexTableOfDistinct` | src/extension.ts:7-8 | If the legend has no duplicate names, the name at position k is mapped to k. |
| `Legend.EncodeTokenType` | src/extension.ts:56-61 | A legend name is encoded as the legend index that holds it. A name outside the legend is encoded as 0. The code is always a valid legend index. |
| `Legend.GetTokenForPart` | src/extension.ts:90-104 | The category name of field position j < 5 is legend entry j. Every position from 5 on is delimiter. |
| `Legend.EncodeNameIsLegendIndex` | src/extension.ts:7-8 | Encoding a category's name gives the unique legend index that holds that name. |
| `Legend.EncodedTypeOfPart` | src/extension.ts:90-104 | The encoded token type of field position j is j for j < 5 and 0 for j ≥ 5. |
| `Split.SplitLines` | src/extension.ts:69 | A text always gives at least one line, and no line contains `\r` or `\n`. |
| `Split.LineCount` | src/extension.ts:69 | There is one more line than there are terminators. Each `\n` counts once, whether alone or closing a `\r\n`. Each `\r` counts once only when it is not followed by `\n`. |
| `Split.LinesConcat` | src/extension.ts:69 | Concatenating the lines gives the text with every `\r` and `\n` removed. No other character is lost, duplicated or reordered. |
| `Split.SingleLine` | src/extension.ts:69 | A text without `\r` and `\n`, including the empty text, is exactly one line: itself. |
| `Split.SplitLinesAtTerminator` | src/extension.ts:69 | Splitting `line + term + rest` gives `line` followed by the lines of `rest`. Here `line` has no breaks, and `term` is `\r\n`, `\n`, or a `\r` that no `\n` follows. |
| `Split.SplitOn` | src/extension.ts:74 | A line always gives at least one field, and no field contains the separator. |
| `Split.FieldCount` | src/extension.ts:74 | A line gives one field more than it holds separators. |
| `Split.SplitOnAt` | src/extension.ts:74 | Splitting `a + ':' + b` gives the fields of `a` followed by the fields of `b`. |
| `Split.EmptyFieldBetween` | src/extension.ts:74 | Two neighbouring separators enclose an empty field. |
| `Split.EmptyFirstField` | src/extension.ts:74 | A leading separator gives an empty first field. |
| `Split.EmptyLastField` | src/extension.ts:74 | A trailing separator gives an empty last field. |
| `Split.JoinSplitOn` | src/extension.ts:74 | Joining the fields of a line with the separator gives back the line. |
| `Split.SplitOnJoin` | src/extension.ts:74 | Splitting the join of separator-free fields gives back those fields. |
| `Split.SplitOnNoSeparator` | src/extension.ts:74 | A line without the separator is a single field. |
| `Split.SplitOnLastField` | src/extension.ts:74 | A separator followed by a separator-free tail adds that tail as the last field. |
| `Split.FieldStartStep` | src/extension.ts:84 | Each field starts exactly `length of the previous field + 1` after the previous field starts. |
| `Split.FieldStartIncreasing` | src/extension.ts:72-84 | Field starts strictly increase with the field index. |
| `Split.JoinLength` | src/extension.ts:84 | The joined line ends exactly where its last field ends: the start of the last field plus its length. |
| `Split.JoinLayout` | src/extension.ts:72-84 | In the joined line, field j occupies `[FieldStart(j), FieldStart(j) + length)`. A separator follows every field except the last. The last field ends the line. |
| `Split.LineLengthBalance` | src/extension.ts:74-84 | The sum of the field lengths plus (field count − 1) equals the line length. |
| `Tokenizer.ParseText` | src/extension.ts:67-88 | The nested loops with the running offset produce exactly `Tokenize(text)`. |
| `Tokenizer.TokensOnLine` | src/extension.ts:70-86 | Selecting the tokens with line index i gives exactly the tokens of line i, in order. An index past the last line gives none. |
| `Tokenizer.LineTokenLayout` | src/extension.ts:72-84 | Token j of a line has the line's index. It starts at the sum of the lengths of fields 0..j-1 plus j. Its slice of the line is field j and contains no `:`. A `:` follows it unless it is the last token, and the last token ends the line. Its type is the category of position j, and its modifiers are empty. |
| `Tokenizer.LineTokenStarts` | src/extension.ts:72-84 | The first token of every line starts at 0, because the offset is reset for each line. Token starts strictly increase along a line. |
| `Tokenizer.LineLengthFromTokens` | src/extension.ts:74-84 | The sum of a line's token lengths plus (token count − 1) equals the line length. |
| `Tokenizer.TokensOfLinesOrdered` | src/extension.ts:70-86 | Every token's line index is below the number of lines. Line indices never decrease. Within a line, start characters strictly increase. |
| `Tokenizer.TokenCountPerLine` | src/extension.ts:74-85 | Line i has 1 + (number of `:` in line i) tokens. A line index past the end has none. |
| `Tokenizer.TokensOrdered` | src/extension.ts:70-86 | A document's tokens are ordered by line, then by strictly increasing start. All line indices are in `0..lines-1`, and every line has at least one token. |
| `Tokenizer.TokenPositions` | src/extension.ts:72-84 | On line i of a document, token j is placed over field j exactly as `LineTokenLayout` states, and the line's token lengths plus separators add up to the line length. |
| `Tokenizer.ModifiersAlwaysEmpty` | src/extension.ts:82 | Every token's modifier list is empty, and `EncodeTokenModifiers` (src/extension.ts:63-65) encodes it as 0. |
| `Tokenizer.EncodedTypeOnLine` | src/extension.ts:44-51 | The encoded type of the j-th token on any line is j when j < 5 and 0 otherwise. |
| `Tokenizer.EmptyDocument` | src/extension.ts:69-85 | The empty document gives exactly one token: `(0, 0, 0, delimiter, [])`. |
| `Tokenizer.SingleLineDocument` | src/extension.ts:69-72 | A document without line breaks gives just the tokens of line 0. |
| `Tokenizer.TwoLineDocument` | src/extension.ts:69-72 | Two lines joined by `\r\n`, `\n` or `\r` give the tokens of line 0 followed by those of line 1. |
| `Tokenizer.FiveFieldLine` | src/extension.ts:75-84 | A line of five fields gives the five tokens delimiter, port, value, username and password, at starts 0, l0+1, l0+l1+2, and so on. |
| `Tokenizer.EntryTokens` | src/extension.ts:67-104 | Five fields without `:` or line breaks, joined with `:`, form a one-line document. Its tokens are the five tokens of `FiveFieldLine` on line 0. |
| `Tokenizer.FullEntry` | src/extension.ts:74-104 | `host:port:value:username:password` with plain fields gives exactly five tokens, each at its field's column with its field's length and category. |

## Left out

- `activate` and the provider registration (src/extension.ts:19-27) are editor host glue with no logic of their own.
- `provideDocumentSemanticTokens` (src/extension.ts:38-54) is left out. It is asynchronous, ignores its cancellation token, and hands the tokens to the editor's `SemanticTokensBuilder`, whose delta encoding is not part of this model. What the model keeps of it is the per-token encoding (`EncodeTokenType`, `EncodeTokenModifiers`, `Tokenizer.EncodedTypeOnLine`).
- The construction of the `SemanticTokensLegend` object (src/extension.ts:16) is left out. The legend itself is the constant `Legend.TokenTypesLegend`.
- The regular-expression engine is not modelled. `SplitLines` states the split on `\r\n|\r|\n` directly as a left-to-right scan.
- JS string lengths count UTF-16 code units. The model counts `char`s, so surrogate pairs are not modelled.
- The running offset after a line's last field is `line length + 1`. This value is never emitted, because the offset restarts at 0 on the next line, so the model does not state it.
