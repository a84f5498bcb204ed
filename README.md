# CSV row source of embedded-druid, in Dafny

embedded-druid runs Druid's ingest and query engines inside a JVM. Its own logic is
mostly glue. The exception is the CSV row source `CSVLoader`. This project models that
loader and proves facts about it. It has two parts.

- `parse(row)` splits a line with a `StringTokenizer` on `","`. A line whose token count
  differs from the number of declared columns is malformed, and `parse` returns null.
  Otherwise each token that is not `"null"` goes into a column → value map. The column
  named `"value"` holds `Float.parseFloat(token)`; every other column holds the token.
- `CSVReaderIterator` keeps a one-line lookahead buffer `nextLine` over a `BufferedReader`.
  `hasNext()` fills the buffer. `next()` empties the buffer, parses the line, and builds a
  row of (`getTimestamp(map)`, dimensions, map).

The model has three layers:

- `JavaLong` and `StringTokenizer` model the two JDK routines the loader relies on:
  `Long.valueOf` / `Long.parseLong` and `StringTokenizer` with delimiter `,`.
- `CsvParse` and `CsvIterator` are the specification. They are pure functions over an
  explicit state: the buffer, the reader's cursor and its closed flag, all over a fixed
  sequence of lines.
- `CsvLoader` has the classes. `LineReader` is the BufferedReader, `CSVLoader.Parse`
  keeps both loops of the source, and `CSVReaderIterator` holds the mutable buffer. `LineReader.ReadLine`
  and the `HasNext`, `Next` and `Close` methods of `CSVReaderIterator` are proved to give
  the same result and the same new state as their specification functions, and `Parse`
  the same result as `ParseRow`.

The model reproduces what the code does with a malformed line. `next()` clears the
buffer and calls itself. It keeps only an exception from that call and throws away the
row it returns. It then goes on with a null map. When the call on the following line throws,
that exception escapes; a following line that fits the columns but fails in
`parseFloat` or `getTimestamp` stays buffered. When `next()`
returns, the following line is consumed and its row is lost, and the result is a row
with timestamp 1, the dimensions and a null event; with a timestamp column set,
`next()` throws a NullPointerException instead. A caller might expect
a malformed line to be skipped. The code does not skip it, and the model follows the
code.

Three more behaviours of the code are captured:

- When `parseFloat` or `getTimestamp` throws on a line that fits the columns, the line
  stays in the buffer, so every later `next()` throws the same exception.
- `next()` with no line left and no `hasNext()` first, with the reader open at end of
  stream, parses null and throws a NullPointerException. With a closed or failing reader
  it returns null instead.
- After `hasNext()` has returned false the reader is closed, and `next()` returns null
  (the IOException branch).

Modelling choices:

- Java `null` is `Option.None`.
- An exception that escapes `next()` is the outcome `Threw(e)`. The exceptions are
  NullPointer, NumberFormat and ClassCast.
- The reader is a sequence of lines and an `Ending`. The ending says what `readLine()`
  does after the last line: return null, or throw an IOException. The second stands for
  a reader that fails at that point.
- `Float.parseFloat` is kept abstract. The model stores the literal, as `Float(literal)`.
  Which literals are accepted is the parameter `isFloat` of `Loader`.

## Model

| member | source | states |
|---|---|---|
| `JavaLong.ParseLong` | src/main/java/io/druid/embedded/load/impl/CSVLoader.java:86 | an accepted timestamp string is an optional sign followed by decimal digits, and its value fits in a 64-bit `long` |
| `JavaLong.ParseLongToString` | src/main/java/io/druid/embedded/load/impl/CSVLoader.java:86 | every `long` printed by `Long.toString` is read back by `Long.valueOf` unchanged |
| `StringTokenizer.SkipDelimiters` | src/main/java/io/druid/embedded/load/impl/CSVLoader.java:51-53 | the tokenizer steps over a run of commas, stopping at the first non-comma or the end |
| `StringTokenizer.ScanToken` | src/main/java/io/druid/embedded/load/impl/CSVLoader.java:51-53 | a token runs over non-comma characters up to the next comma or the end |
| `StringTokenizer.SkipDelimitersTokens` | src/main/java/io/druid/embedded/load/impl/CSVLoader.java:52 | skipping delimiters (`hasMoreTokens`) leaves the tokens still to come unchanged |
| `StringTokenizer.NextTokenStep` | src/main/java/io/druid/embedded/load/impl/CSVLoader.java:53 | one `nextToken()` yields the first remaining token and advances past it |
| `StringTokenizer.TokensAreTokens` | src/main/java/io/druid/embedded/load/impl/CSVLoader.java:50-54 | every collected token is non-empty and contains no comma |
| `StringTokenizer.TokensOfJoin` | src/main/java/io/druid/embedded/load/impl/CSVLoader.java:50-54 | tokenising a comma-joined list of tokens gives back exactly that list |
| `StringTokenizer.Tokens` | src/main/java/io/druid/embedded/load/impl/CSVLoader.java:50-54 | the list `data` of tokens, in order; there are never more tokens than characters |
| `CsvParse.Fill` | src/main/java/io/druid/embedded/load/impl/CSVLoader.java:59-70 | the map the `for` loop fills, or a NumberFormatException; no key other than a declared column is ever added |
| `CsvParse.ParseRow` | src/main/java/io/druid/embedded/load/impl/CSVLoader.java:56-58 | `parse` returns null (malformed) if and only if the token count differs from the column count |
| `CsvParse.FillKeys` | src/main/java/io/druid/embedded/load/impl/CSVLoader.java:59-70 | the map built by the loop has as keys exactly the columns whose field passes the skip test |
| `CsvParse.FillValue` | src/main/java/io/druid/embedded/load/impl/CSVLoader.java:59-70 | a kept field that no later field of the same column overwrites is stored as its token, or as a float for "value" |
| `CsvParse.FillRejects` | src/main/java/io/druid/embedded/load/impl/CSVLoader.java:64-65 | the loop throws if and only if some kept "value" field is not a float literal |
| `CsvParse.EmptyTestNeverFires` | src/main/java/io/druid/embedded/load/impl/CSVLoader.java:60 | since tokens are never empty, a field is skipped exactly when it is "null" |
| `CsvParse.ParseKeys` | src/main/java/io/druid/embedded/load/impl/CSVLoader.java:59-71 | on success the key set is exactly { columns[i] : token i is not "null" } |
| `CsvParse.ParseValue` | src/main/java/io/druid/embedded/load/impl/CSVLoader.java:64-68 | on success a non-"null" field is stored verbatim, or as the float it denotes in the "value" column (last write wins for repeated column names) |
| `CsvParse.ParseRejects` | src/main/java/io/druid/embedded/load/impl/CSVLoader.java:56-65 | `parse` throws NumberFormatException if and only if the line fits and a non-"null" "value" field is not a float literal |
| `CsvParse.ParseJoin` | src/main/java/io/druid/embedded/load/impl/CSVLoader.java:49-72 | a line written from one token per distinct column parses back to the map of its non-"null" fields |
| `CsvIterator.ReadLine` | src/main/java/io/druid/embedded/load/impl/CSVLoader.java:92 | `readLine()` returns the next unread line and advances by one; otherwise null at end of input or an IOException once closed or failing, and the position does not move |
| `CsvIterator.Close` | src/main/java/io/druid/embedded/load/impl/CSVLoader.java:129-134 | `close()` closes the reader and leaves the buffer and position alone |
| `CsvIterator.CloseKeepsBuffer` | src/main/java/io/druid/embedded/load/impl/CSVLoader.java:129-134 | after `close()` only the already-buffered line can still be handed out |
| `CsvIterator.HasNext` | src/main/java/io/druid/embedded/load/impl/CSVLoader.java:90-103 | `hasNext()` is true if and only if a line remains; it consumes nothing, buffers the next line, and closes the reader exactly when it returns false |
| `CsvIterator.HasNextIdempotent` | src/main/java/io/druid/embedded/load/impl/CSVLoader.java:90-97 | a second `hasNext()` reads nothing and returns the same answer |
| `CsvIterator.GetTimestamp` | src/main/java/io/druid/embedded/load/impl/CSVLoader.java:82-88 | 1 without a timestamp column; otherwise the decimal parse of the column's text; a null map, a missing entry, a float entry or a non-numeric text each throw |
| `CsvIterator.GetTimestampOfLong` | src/main/java/io/druid/embedded/load/impl/CSVLoader.java:86 | a timestamp field holding a printed `long` yields that `long` |
| `CsvIterator.Finish` | src/main/java/io/druid/embedded/load/impl/CSVLoader.java:120-122 | unless `getTimestamp` throws (state untouched), the result is the row (`getTimestamp(map)`, dimensions, map) and the buffer is cleared |
| `CsvIterator.Fetch` | src/main/java/io/druid/embedded/load/impl/CSVLoader.java:106-108 | the first step of `next()` reads only into an empty buffer and then holds the first remaining line |
| `CsvIterator.Next` | src/main/java/io/druid/embedded/load/impl/CSVLoader.java:105-123 | `next()` as a whole (on an IOException it closes the reader and returns null, otherwise it goes on with `NextFetched`); its own contract only keeps the reader position within the lines, and the `Next*` lemmas below state its behaviour |
| `CsvIterator.NextFetched` | src/main/java/io/druid/embedded/load/impl/CSVLoader.java:115-122 | the body of `next()` after the read, recursive call on a malformed line included; it never returns null, and the reader position stays within the lines |
| `CsvIterator.NextConsumes` | src/main/java/io/druid/embedded/load/impl/CSVLoader.java:105-122 | `next()` consumes lines only from the front, in order, each at most once, and at least one unless it throws |
| `CsvIterator.NextFetchedConsumes` | src/main/java/io/druid/embedded/load/impl/CSVLoader.java:115-122 | the same after the read step, including through the recursive call |
| `CsvIterator.NextCleanLine` | src/main/java/io/druid/embedded/load/impl/CSVLoader.java:105-122 | a well-formed line with a valid timestamp becomes the row (timestamp, dimensions, map), exactly that line is consumed and the buffer is cleared |
| `CsvIterator.NextStuck` | src/main/java/io/druid/embedded/load/impl/CSVLoader.java:115-121 | a line that fits but whose float or timestamp fails throws and stays buffered, so the next `next()` throws again |
| `CsvIterator.NextMalformedThenClean` | src/main/java/io/druid/embedded/load/impl/CSVLoader.java:115-120 | a malformed line followed by a clean one consumes both and loses the clean line's row: the result is (1, dimensions, null), or a NullPointerException with a timestamp column |
| `CsvIterator.NextMalformedLast` | src/main/java/io/druid/embedded/load/impl/CSVLoader.java:106-120 | a malformed last line throws a NullPointerException at end of stream; if the reader fails instead or is closed, the result is as after a lost row |
| `CsvIterator.NextMalformedThenStuck` | src/main/java/io/druid/embedded/load/impl/CSVLoader.java:115-119 | a malformed line followed by one that fits but fails in `parseFloat` or `getTimestamp`: the recursive call's exception escapes and the following line stays buffered |
| `CsvIterator.NextMalformedAny` | src/main/java/io/druid/embedded/load/impl/CSVLoader.java:115-120 | after a malformed first line, whatever follows, `next()` throws or returns (1, dimensions, null); it always throws with a timestamp column; when it returns, at least the following line is consumed too |
| `CsvIterator.NextReadFails` | src/main/java/io/druid/embedded/load/impl/CSVLoader.java:106-113 | with an empty buffer and a reader that fails or is closed, `next()` closes the reader and returns null |
| `CsvIterator.NextAtEndOfStream` | src/main/java/io/druid/embedded/load/impl/CSVLoader.java:106-115 | `next()` with nothing left and no `hasNext()` first, with the reader open at end of stream, throws a NullPointerException and changes nothing |
| `CsvIterator.NextAfterExhausted` | src/main/java/io/druid/embedded/load/impl/CSVLoader.java:90-113 | once `hasNext()` has returned false, `next()` returns null and changes nothing |
| `CsvIterator.Drain` | src/main/java/io/druid/embedded/IndexHelper.java:65-67 | the for-each loop over the loader yields at most one outcome per remaining line, never a null row, and only its last outcome can be an exception |
| `CsvIterator.DrainClean` | src/main/java/io/druid/embedded/IndexHelper.java:65-67 | looping over the loader with `hasNext`/`next` over clean lines yields one row per line, in line order |
| `CsvLoader.LineReader.constructor` | src/main/java/io/druid/embedded/load/impl/CSVLoader.java:78-80 | a new BufferedReader is open and at the first line |
| `CsvLoader.LineReader.ReadLine` | src/main/java/io/druid/embedded/load/impl/CSVLoader.java:92 | updates the reader exactly as `CsvIterator.ReadLine` says |
| `CsvLoader.LineReader.Close` | src/main/java/io/druid/embedded/load/impl/CSVLoader.java:131 | closes the reader and keeps its position |
| `CsvLoader.CSVLoader.constructor` | src/main/java/io/druid/embedded/load/Loader.java:33-37 | stores the reader, the columns, the dimensions and the timestamp column |
| `CsvLoader.CSVLoader.Parse` | src/main/java/io/druid/embedded/load/impl/CSVLoader.java:49-72 | the tokenizer loop and the map-filling loop compute exactly `CsvParse.ParseRow` |
| `CsvLoader.CSVLoader.Iterator` | src/main/java/io/druid/embedded/load/impl/CSVLoader.java:44-47 | `iterator()` returns a fresh iterator with an empty buffer over a fresh reader at the first line |
| `CsvLoader.CSVReaderIterator.constructor` | src/main/java/io/druid/embedded/load/impl/CSVLoader.java:78-80 | a new iterator has an empty buffer over a new open reader |
| `CsvLoader.CSVReaderIterator.HasNext` | src/main/java/io/druid/embedded/load/impl/CSVLoader.java:90-103 | returns and updates the buffer and reader exactly as `CsvIterator.HasNext` says |
| `CsvLoader.CSVReaderIterator.Next` | src/main/java/io/druid/embedded/load/impl/CSVLoader.java:105-123 | returns and updates the buffer and reader exactly as `CsvIterator.Next` says, recursion on malformed lines included |
| `CsvLoader.CSVReaderIterator.Close` | src/main/java/io/druid/embedded/load/impl/CSVLoader.java:129-134 | updates the state exactly as `CsvIterator.Close` says |

## Left out

- Float.parseFloat: the number is not computed; the model keeps the literal. Which literals parse is the parameter `isFloat`, not Java's floating-point grammar.
- JavaLong.ParseLong: accepts only ASCII digits. Java's `Character.digit` also accepts other Unicode decimal digits.
- IOException: the model raises it only on a closed reader, or after the last line when the ending is `ReadError`. It does not model a failure that lets reading go on afterwards, the `printStackTrace` output, or an exception from `close()` (which the code swallows).
- The BufferedReader's splitting of text into lines: the model starts from the lines themselves.
- `remove()`: it always throws UnsupportedOperationException and holds no logic.
- Several iterators from one CSVLoader share one underlying Reader. The model gives each iterator its own copy of the lines from the start.
- Deep recursion on many consecutive malformed lines can overflow the Java stack. The model's recursion has no depth limit.
- `MapBasedInputRow` is a plain datatype of (timestamp, dimensions, event). Its accessors and Druid's handling of a null event are not modelled.
- Null entries in the column list, and a null line anywhere except at end of input, are not modelled.
- QueryHelper.java, IndexHelper.java and Utils.java are not part of this model. They wire Druid's incremental index, persistence, query runners and resource pools, which live in library code. Apart from `loader.hashCode()` (IndexHelper.java:72), IndexHelper uses the loader only in the for-each loop that `CsvIterator.Drain` describes.
- The incremental index, segment builder and query engines belong to the Druid library, not to this repository, and are not part of this model.
