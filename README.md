# Sentiment-classification page: padding and CSV rows in Dafny

The application is a single React page (`src/App.js`). The user uploads a
CSV file of texts, the page classifies each text with a pretrained
sentiment network, and the user downloads the labelled rows. Nearly all
of it is UI, browser I/O and calls into TensorFlow.js. Three parts are
self-contained logic, and this project models and proves those:

- `padSequences` (Keras-style sequence padding). It is modelled as the
  method `Padding.PadSequences`, whose loop pushes one padded sequence at
  a time. The method is proved equal to the value-level specification
  `Padding.Pad`. The lemmas about `Pad` state the promised properties:
  - which inputs succeed and which throw (and with what);
  - the shape of the output;
  - the `'pre'` and `'post'` round trips;
  - idempotence;
  - that the default length never fails.
- Reading the uploaded file's text into rows (`trim`, `split("\n")`,
  `split(",")[0]`). This is `Csv.ParseRows`, built on models of the
  JavaScript string built-ins in `JsStrings`.
- Writing rows back as the body of the downloaded CSV (each row rendered
  as `text,classification`, rows joined with `"\n"`). This is
  `Csv.SerializeRows`. It is tied to parsing by a round-trip lemma.

Modules: `Wrappers` (Option, Result), `JsStrings` (trim, split, join),
`Padding` (padSequences), `Csv` (row parsing and serialisation).

Errors are values. `padSequences` either returns `Success(batch)` or
`Failure(e)`. `e` is `InvalidPaddingType(mode)` for the
`Error("Invalid padding type: …")` the loop throws. It is
`InvalidArrayLength(n)` for the `RangeError` that `new Array(n)` throws
when `n` is negative.

Behaviour of `padSequences` worth noting:

- The mode check sits inside the loop. So an empty batch with an unknown
  mode returns `[]` (`Padding.PadInvalidMode`).
- A sequence longer than an explicit `maxlen` is not truncated and has no
  error of its own. The call fails because `new Array` gets a negative
  length (`InvalidArrayLength`, `Padding.PadFirstTooLong`).
- An empty batch is accepted and gives `[]`.

## Model

| member | source | states |
|---|---|---|
| Padding.Message | src/App.js:37 | the thrown Error's message starts with "Invalid padding type: " and the rejected mode can be read back from the rest; the RangeError's message does not start that way |
| Padding.Fill | src/App.js:32-35 | new Array(n).fill(value) has length n and every element equals the fill value |
| Padding.TargetLength | src/App.js:25-27 | an explicit maxlen is used as given; without one, the length is at least every sequence's length, equal to one of them for a non-empty batch, and never negative |
| Padding.PadAll | src/App.js:29-41 | the loop over a batch: an empty batch gives [], a result has one row per sequence, the first row is the first sequence's padded form, and a failing first sequence decides the error |
| Padding.Pad | src/App.js:22-42 | padSequences as a value: an empty batch gives [] whatever the mode, a result has one row per sequence, and an unknown mode on a non-empty batch throws "Invalid padding type" |
| Padding.PadSequences | src/App.js:22-42 | the loop (default length filled in, then one push per sequence, stopping at the first throw) returns exactly the reference result `Pad` |
| Padding.MaxLength | src/App.js:25-27 | the default length is at least every sequence's length and equal to one of them; it is 0 for an empty batch |
| Padding.PadOne | src/App.js:30-37 | one loop pass: it succeeds iff the mode is 'pre' or 'post' and the sequence fits; an unknown mode gives InvalidPaddingType, a too-long sequence gives InvalidArrayLength(maxlen - length); success has length maxlen, with the sequence after ('pre') or before ('post') copies of the fill value |
| Padding.PadAllShape | src/App.js:29-41 | a padded batch has one row per input, in input order, and row i is the padded form of sequence i |
| Padding.PadSucceedsIff | src/App.js:29-41 | padSequences returns iff the batch is empty, or the mode is valid and no sequence is longer than the target length (both directions) |
| Padding.PadInvalidMode | src/App.js:29-38 | with an unknown mode, an empty batch returns [] and any other batch throws "Invalid padding type" naming the mode |
| Padding.PadFirstTooLong | src/App.js:31-35 | with an explicit maxlen, the first sequence longer than it makes the call throw InvalidArrayLength with its negative padding length; nothing is truncated |
| Padding.PadDefaultLength | src/App.js:25-35 | without maxlen, a valid mode never throws and every row has the longest input's length |
| Padding.PadPreRoundTrip | src/App.js:30-32 | 'pre': every row has the target length; dropping its first target - length elements gives back the sequence; those elements all equal the fill value |
| Padding.PadPostRoundTrip | src/App.js:33-35 | 'post': every row has the target length; its first length elements are the sequence and every later element is the fill value |
| Padding.PadAllUniform | src/App.js:29-41 | a batch whose sequences all have the target length is returned unchanged |
| Padding.PadIdempotent | src/App.js:22-42 | padding a padded batch again with the same arguments returns it unchanged |
| Padding.DefaultLengthAndModeExamples | src/App.js:22-42 | lengths 3, 5, 2 give default length 5; mode "mid" throws "Invalid padding type: mid" on [[1]] and returns [] on an empty batch |
| Padding.PreAndPostExamples | src/App.js:30-35 | [1,2,3] padded to 5 with 0 is [0,0,1,2,3] ('pre') and [1,2,3,0,0] ('post') |
| Padding.DefaultsExample | src/App.js:22-32 | padSequences([[1,2],[3]]) with every parameter at its default ('pre', 0, no maxlen) gives [[1,2],[0,3]] |
| Padding.MixedBatchExample | src/App.js:25-32 | [[7],[1,2,3]] padded 'pre' with 9 to the default length gives [[9,9,7],[1,2,3]] |
| JsStrings.IsWhitespace | src/App.js:57 | the set trim removes (ECMAScript WhiteSpace and LineTerminator): every member is in the Basic Multilingual Plane; space, tab, LF and CR are in it; the comma and U+0085 are not |
| JsStrings.TrimStartIndex | src/App.js:57 | the index where trim starts keeping characters: everything before it is whitespace, the character at it is not |
| JsStrings.TrimEndIndex | src/App.js:57 | the index where trim stops keeping characters: everything from it on is whitespace, the character before it is not |
| JsStrings.Trim | src/App.js:57 | the result is a slice of the input with only whitespace before and after it, and neither starts nor ends with whitespace |
| JsStrings.TrimUnique | src/App.js:57 | conversely, any such slice is exactly what trim returns |
| JsStrings.TrimNoop | src/App.js:57 | text that neither starts nor ends with whitespace is left unchanged by trim |
| JsStrings.Split | src/App.js:58 | split on a character gives one more piece than there are separators; no piece contains the separator; the first piece is the input's prefix up to its first separator |
| JsStrings.Join | src/App.js:100 | join of no pieces is empty; otherwise the text starts with the first piece, which is followed by the separator when there are more pieces |
| JsStrings.JoinSplit | src/App.js:58 | joining the pieces of a split with the separator gives back the input |
| JsStrings.SplitJoin | src/App.js:100 | splitting a join of separator-free pieces gives back the pieces, in order |
| JsStrings.JoinCount | src/App.js:100 | joining n >= 1 separator-free pieces puts exactly n - 1 separators in the text |
| Csv.FirstField | src/App.js:59 | row.split(",")[0] is a comma-free prefix of the line, either the whole line or followed by a comma |
| Csv.FirstFieldOf | src/App.js:59 | for a comma-free text, the first field of text + "," + anything is the text |
| Csv.RowsOfLines | src/App.js:59 | the map over lines gives one row per line |
| Csv.ParseRows | src/App.js:56-59 | parsing gives one row per line of the trimmed text (newlines + 1); every text is free of commas and newlines; every classification is empty |
| Csv.ParseRowsLines | src/App.js:56-59 | the lines joined with "\n" are the trimmed text, and row i's text is line i up to its first comma |
| Csv.ParseWhitespaceOnly | src/App.js:56-59 | a file holding only whitespace gives exactly one row, with empty text and empty classification |
| Csv.RenderRow | src/App.js:100 | the template literal: the line has the text's length + 1 + the classification's length, holds a comma right after the text, and has no newline when neither field has one |
| Csv.RenderRowReadsBack | src/App.js:100 | for a comma-free text, the line's first field is the text and everything after the comma that follows it is the classification |
| Csv.RenderRows | src/App.js:100 | the map: one line per row, and no line holds a newline when no field does |
| Csv.SerializeRows | src/App.js:98-100 | no rows give the empty body |
| Csv.SerializeLines | src/App.js:98-100 | when no field holds a newline, the body of n >= 1 rows has n - 1 newlines, and splitting it on "\n" gives back the rendered rows in order |
| Csv.SerializeEnds | src/App.js:98-100 | the body starts with the first rendered row's first character and ends with the last rendered row's last character |
| Csv.SerializeTrimmed | src/App.js:98-100 | when the first text does not start with whitespace, trim removes from the body only the trailing whitespace of the last classification (the last row's comma stops it) |
| Csv.ParseSerializeRoundTrip | src/App.js:98-100 | parsing a downloaded body gives back each row's text with an empty classification, provided texts have no comma or newline, classifications no newline, and the first text does not start with whitespace |

## Left out

- Padding.PadSequences: it does not model JavaScript's array-length ceiling of 2^32 - 1. `new Array(n)` also throws for n > 4294967295, and `concat` throws when its result would be that long. Lengths in the model are unbounded, so only the negative-length RangeError is modelled.
- Padding.PadSequences: `maxlen` is an integer, `padding` a string, and the fill value and tokens are integers. In JavaScript these are arbitrary values; a fractional or NaN `maxlen`, which `new Array` would reject, is not modelled.
- No mutation: JavaScript's `concat` builds new arrays, so the inputs are never changed. The model works on sequence values, so it cannot mutate its inputs, and it cannot express sharing between input and output arrays either.
- React state hooks, `useColorModeValue` and Chakra UI rendering (src/App.js:45-47, 111-160): these are UI with no logic to state.
- `FileReader` reading the uploaded file (src/App.js:50-54): browser I/O. Only the string transformation of its result is modelled.
- `handleClassifyClick` (src/App.js:64-94): it fetches weights and the model over the network and runs `tf.loadLayersModel`, `tf.tensor` and `model.predict`. TensorFlow.js is not part of this model. The `>= 0.5` threshold on floating-point predictions (src/App.js:85) is left out with it.
- The `data:text/csv;charset=utf-8,` prefix, `encodeURI` and the DOM link (src/App.js:99, 101-107): browser and URI-encoding plumbing. Only the body string is modelled.
- JsStrings.IsWhitespace: JavaScript strings are sequences of UTF-16 code units, but the model's strings are sequences of Unicode scalar values. Every code point trim removes, and the separators "\n" and ",", lies in the Basic Multilingual Plane and is a single code unit, so trim and split give the same pieces under either view. Lone surrogates, which a JavaScript string may hold, cannot be represented. The space-separator category is fixed to the current Unicode list.
