# bertastic tokenization and input assembly, in Dafny

This project models the text-encoding half of bertastic, a Java port of BERT's
`tokenization.py`, and the code that lays the encoded batch out for the model:

- `Tokenizer.whitespaceTokenize` (`whitespace.dfy`): `trim()`, then split on runs of `\s`.
- `BtBasic` (`basic.dfy`) is the basic tokenizer. It cleans the text, puts spaces around
  CJK ideographs, optionally lower-cases and strips accents, and splits every punctuation
  code point out as a token of its own.
- `BtWordPiece` (`wordpiece.dfy`) is the greedy longest-match-first WordPiece split of
  each word against a vocabulary. It has a length cap and an unknown token.
- `BtFull` and its legacy twin `FullTokenizer` (`vocabulary.dfy`, `full.dfy`) compose the
  two tokenizers. They build the token-to-id map from the lines of a vocabulary file and
  convert tokens to ids.
- `Tokenizer`'s batch overloads (`tokenizers.dfy`) work over any of the three tokenizers.
  As written they always throw; the model keeps that code and a corrected version (see
  "## Findings").
- `getInputs` of `BtSession` and of its legacy twin `Bert` (`batch.dfy`, `session.dfy`)
  fills three row-major `IntBuffer`s of `count * maxSequenceLength` slots:
  - the ids, laid out as `[CLS]`, the ids cut to `L - 2`, `[SEP]`, then zero padding;
  - the attention mask;
  - the segment ids.

  It also looks up the ids of `[CLS]` and `[SEP]` when the session is built.

## How the model is built

- A Java `String` is its sequence of code points (`Chars.Text`). That is what
  `codePoints()` yields, with a lone surrogate standing for itself.
- `toCharArray()` and `substring` work on UTF-16 units. They are `Chars.Encode` and
  `Chars.Decode`. `Chars.EncodeDecode` proves that decoding loses nothing, so equality
  and map keys agree with Java's.
- The JDK's Unicode data (`Character.getType`, `String.toLowerCase`, NFD normalisation)
  enters as a parameter `u: Unicode.Jdk` of function values. Every property is proved
  for all such data.
- Loops that accumulate into a `StringBuilder`, a `Stream.Builder` or a `HashMap` are
  methods. Each is proved equal to a function that specifies it:
  - `Basic.CleanText`, `Basic.TokenizeChineseCharacters`, `Basic.StripAccents` and
    `Basic.SplitOnPunctuation`;
  - `WordPiece.SplitToken`;
  - `Vocabulary.LoadVocabulary`.

  The properties the source promises are then lemmas about those functions. Stream
  pipelines are functions.
- The three lockstep `IntBuffer`s of `getInputs` are one class, `Batch.InputBuffers`. It
  holds three arrays and the single position they share.
  - `put` past the end makes `Put` return `false` (Java throws `BufferOverflowException`).
  - A missing token is the failure `UnknownToken` (Java unboxes a `null`).
  - A negative capacity is `NegativeCapacity` (`IllegalArgumentException`).
  - `Batch.Assemble` runs the loops of `getInputs` over these buffers. It is proved equal
    to `Batch.Expected`, which states the outcome and the layout without loops.
- `Bert` and `BtSession` have the same `getInputs` and the same id lookup. `FullTokenizer`
  and `BtFull` have the same vocabulary loading, conversion and tokenization. Each pair
  is modelled once. The rows below cite one file of the pair, and the other file's lines
  are given in the text.

The Javadoc of the tokenizers names BERT's `tokenization.py` as the code they were
ported from. The model follows the Java code, including where it departs from that
reference:

- Suppose a WordPiece word has a matched prefix and a later piece fails. The code keeps
  the matched pieces and then emits the unknown token once (`BtWordPiece.java:70-73`).
  The vocabulary `{un}` and the word `unx` give `[un, [UNK]]`; `tokenization.py` gives
  `[[UNK]]` alone. A later piece is looked up with its `##` prefix, so "unbreakable"
  over `{un, break}` also gives `[un, [UNK]]`, because `##break` is not a key.
- The WordPiece length cap counts UTF-16 units, not code points (`BtWordPiece.java:49`).
- `splitOnPunctuation` emits the buffer before each punctuation code point even when it
  is empty (`BtBasic.java:79-81`). Only the trailing flush checks for emptiness. The
  empty pieces vanish in the join and the whitespace split that follow.
- `whitespaceTokenize` of a blank text gives the single empty token (Java's
  `"".split(...)`). So the basic tokenizer maps a blank text to `[""]`.
- Whether `getInputs` overflows when `0 <= L < 2` depends on the counts. With capacity
  `count * L`, the overflow comes at the first put that would pass the end. For `L = 0`
  that is the `[CLS]` put of the first row. For `L = 1` it is the `[CLS]` or the `[SEP]`
  put of row `count / 2`. Rows before it are still converted, so an unknown token in an
  earlier row is reported first (`Batch.Reached`).

## Model

| member | source | states |
|---|---|---|
| `Chars.ToChars` | src/main/java/io/vacco/bertastic/BtBasic.java:44 | A code point below U+10000 is one UTF-16 unit equal to it; any other is a high surrogate followed by a low surrogate |
| `Chars.ToCharsDecodes` | src/main/java/io/vacco/bertastic/BtBasic.java:97 | The `char`s `Character.toChars` appends for a code point are its UTF-16 encoding: they decode to exactly that code point |
| `Chars.EncodeDecode` | src/main/java/io/vacco/bertastic/BtWordPiece.java:61 | Re-encoding the decoded substring gives back exactly the UTF-16 units, so the `String` built from `chars[start..end)` determines those units |
| `Chars.DecodePlain` | src/main/java/io/vacco/bertastic/BtWordPiece.java:61 | Units that are not surrogates decode to the same values as code points |
| `Chars.EncodeLength` | src/main/java/io/vacco/bertastic/BtWordPiece.java:49 | A token has at least as many UTF-16 units as code points, and exactly as many iff every code point is below U+10000 |
| `Chars.EncodeAppend` | src/main/java/io/vacco/bertastic/BtWordPiece.java:49 | The UTF-16 form of a concatenation is the concatenation of the UTF-16 forms |
| `Whitespace.TrimLeading` | src/main/java/io/vacco/bertastic/Tokenizer.java:20 | After leading trimming the text is empty or starts with a code point above U+0020 |
| `Whitespace.TrimTrailing` | src/main/java/io/vacco/bertastic/Tokenizer.java:20 | After trailing trimming the text is no longer, is empty or ends above U+0020, and keeps the first code point |
| `Whitespace.Trim` | src/main/java/io/vacco/bertastic/Tokenizer.java:20 | `trim()` leaves a text that is empty or begins and ends with a code point above U+0020 |
| `Whitespace.TrimLeadingSlice` | src/main/java/io/vacco/bertastic/Tokenizer.java:20 | Leading trimming removes a prefix made only of code points <= U+0020 |
| `Whitespace.TrimTrailingSlice` | src/main/java/io/vacco/bertastic/Tokenizer.java:20 | Trailing trimming removes a suffix made only of code points <= U+0020 |
| `Whitespace.TrimIsSlice` | src/main/java/io/vacco/bertastic/Tokenizer.java:20 | `trim()` yields a contiguous slice `s[a..b]` with only trimmable code points outside it and non-trimmable ends |
| `Whitespace.WordPrefix` | src/main/java/io/vacco/bertastic/Tokenizer.java:20 | The first word is the longest prefix without `\s`; what follows it, if anything, starts with `\s` |
| `Whitespace.SkipSpacesSuffix` | src/main/java/io/vacco/bertastic/Tokenizer.java:20 | Skipping a separator drops a prefix of `\s` code points and stops at a non-`\s` code point or the end |
| `Whitespace.Runs` | src/main/java/io/vacco/bertastic/Tokenizer.java:20 | Splitting on `\s+` yields non-empty tokens without `\s`, at least one when the text starts with a non-`\s` code point |
| `Whitespace.WhitespaceTokenize` | src/main/java/io/vacco/bertastic/Tokenizer.java:19-21 | At least one token and none containing `\s`; the result is `[""]` exactly when the trimmed text is empty, and otherwise no token is empty |
| `Whitespace.RunsSkipSpaces` | src/main/java/io/vacco/bertastic/Tokenizer.java:20 | Leading `\s` does not change the tokens of the split |
| `Whitespace.JoinRuns` | src/main/java/io/vacco/bertastic/Tokenizer.java:20 | For a text with non-`\s` ends, joining the split tokens with single spaces gives the text with each `\s` run collapsed to one space |
| `Whitespace.WhitespaceTokenizeJoin` | src/main/java/io/vacco/bertastic/Tokenizer.java:19-21 | Tokens come out in input order: joined with single spaces they give the trimmed input with every `\s` run collapsed |
| `Whitespace.IsolatedSlice` | src/main/java/io/vacco/bertastic/Tokenizer.java:20 | A slice of a text in which some code points have only `\s` neighbours keeps that property |
| `Whitespace.IsolatedWord` | src/main/java/io/vacco/bertastic/Tokenizer.java:20 | A `\s`-free text with that property is one such code point alone or contains none |
| `Whitespace.IsolatedRuns` | src/main/java/io/vacco/bertastic/Tokenizer.java:20 | Each token of the `\s+` split of such a text is one such code point alone or contains none |
| `Whitespace.IsolatedTokens` | src/main/java/io/vacco/bertastic/Tokenizer.java:19-21 | If every code point of a kind has only `\s` neighbours, every token of `whitespaceTokenize` is one such code point alone or free of them |
| `Basic.AsciiPunctuation` | src/main/java/io/vacco/bertastic/BtBasic.java:63-69 | Every code point in 33-47, 58-64, 91-96 and 123-126 is punctuation, whatever category the JDK gives it |
| `Basic.CleanText` | src/main/java/io/vacco/bertastic/BtBasic.java:39-46 | The builder loop over code points produces exactly `Cleaned` of the input |
| `Basic.CleanedCodePoints` | src/main/java/io/vacco/bertastic/BtBasic.java:39-46 | The output is no longer than the input; each output code point is U+0020 or a kept non-whitespace input code point; each kept input code point appears, whitespace as U+0020 (NUL, U+FFFD and control categories other than tab, LF and CR are dropped) |
| `Basic.CleanedAppend` | src/main/java/io/vacco/bertastic/BtBasic.java:41-45 | Cleaning works code point by code point: cleaning a concatenation concatenates the cleaned parts, so order is kept |
| `Basic.CleanedIdempotent` | src/main/java/io/vacco/bertastic/BtBasic.java:39-46 | Whenever U+0020 itself is kept, cleaning cleaned text changes nothing |
| `Basic.TokenizeChineseCharacters` | src/main/java/io/vacco/bertastic/BtBasic.java:101-113 | The builder loop produces exactly `SpacedCjk` of the input |
| `Basic.SpacedCjkLength` | src/main/java/io/vacco/bertastic/BtBasic.java:101-113 | Output length is input length plus twice the number of CJK code points; text without CJK is unchanged |
| `Basic.UnspacedSpacedCjk` | src/main/java/io/vacco/bertastic/BtBasic.java:101-113 | Removing the space on either side of each ideograph gives the input back, so nothing but the added spaces changes |
| `Basic.SpacedCjkIsolates` | src/main/java/io/vacco/bertastic/BtBasic.java:101-113 | Every CJK code point of the output has only spaces as neighbours |
| `Basic.SpacedCjkTokens` | src/main/java/io/vacco/bertastic/BtBasic.java:101-113 | After the whitespace split every token is one CJK code point alone or contains none |
| `Basic.StripAccents` | src/main/java/io/vacco/bertastic/BtBasic.java:93-99 | The loop over the NFD form produces exactly `AccentsStripped` of the token |
| `Basic.MarksRemoved` | src/main/java/io/vacco/bertastic/BtBasic.java:95-97 | Dropping non-spacing marks keeps exactly the code points of other categories, and leaves mark-free text unchanged |
| `Basic.AccentsStrippedCodePoints` | src/main/java/io/vacco/bertastic/BtBasic.java:93-99 | The result holds exactly the NFD code points that are not non-spacing marks |
| `Basic.SplitOnPunctuation` | src/main/java/io/vacco/bertastic/BtBasic.java:75-91 | The buffer loop produces exactly `PunctuationSplit` of the token |
| `Basic.PunctuationSplitProperties` | src/main/java/io/vacco/bertastic/BtBasic.java:75-91 | The pieces concatenate to the token; each punctuation code point is a one-code-point piece, every other piece is punctuation-free, and the last piece is never an empty trailing buffer |
| `Basic.StripAndSplitIsolates` | src/main/java/io/vacco/bertastic/BtBasic.java:125-130 | In the joined pieces every punctuation code point has only spaces as neighbours |
| `Basic.TokenizeTokens` | src/main/java/io/vacco/bertastic/BtBasic.java:146-151 | Every token contains no `\s` and is a single punctuation code point or punctuation-free |
| `Basic.CaseKept` | src/main/java/io/vacco/bertastic/BtBasic.java:125-130 | Without `doLowerCase`, tokenization does not depend on lower-casing or NFD, only on the category table |
| `Basic.TokenizeBatchRows` | src/main/java/io/vacco/bertastic/BtBasic.java:133-143 | The staged batch stream (clean all, space out ideographs in all, whitespace-split all, then `stripAndSplit` and re-split each row) gives one row per sequence, in order, and row `i` equals the single-sequence `tokenize` of sequence `i` (lines 146-150) |
| `WordPiece.WithVocabulary` | src/main/java/io/vacco/bertastic/BtWordPiece.java:17-33 | The one-argument constructor keeps the vocabulary and uses the unknown token `[UNK]` and the cap 200 |
| `WordPiece.LongestMatch` | src/main/java/io/vacco/bertastic/BtWordPiece.java:58-69 | A found end lies in `(start, limit]`, its candidate is in the vocabulary and no larger end's candidate is; when none is found no end's candidate is in the vocabulary |
| `WordPiece.SplitToken` | src/main/java/io/vacco/bertastic/BtWordPiece.java:48-77 | The greedy outer loop produces exactly `WordPieces` of the token: over the cap the unknown token alone, otherwise each longest match in turn and, when a start has none, one unknown token and stop |
| `WordPiece.LongestPiece` | src/main/java/io/vacco/bertastic/BtWordPiece.java:58-69 | The inner loop finds a key iff `LongestMatch` does, and then stops at that largest `end` with the `##`-prefixed candidate as the substring |
| `WordPiece.Cuts` | src/main/java/io/vacco/bertastic/BtWordPiece.java:55-75 | The piece starts begin at 0, stay within the token and strictly increase, so the loop ends |
| `WordPiece.CutsEnd` | src/main/java/io/vacco/bertastic/BtWordPiece.java:55-75 | After the last cut either the token is used up and there is one piece per pair of cuts, or no candidate from the last cut is a key and exactly one unknown token follows |
| `WordPiece.CutsPiece` | src/main/java/io/vacco/bertastic/BtWordPiece.java:58-69 | Piece `i` is the candidate between cuts `i` and `i + 1`, and cut `i + 1` is the longest match from cut `i`, that is, the end the inner loop stops at |
| `WordPiece.CandidateChars` | src/main/java/io/vacco/bertastic/BtWordPiece.java:61 | A candidate is the unit slice `[start, end)`, prefixed with `##` exactly when `start > 0` |
| `WordPiece.WordPiecesVocabulary` | src/main/java/io/vacco/bertastic/BtWordPiece.java:70-73 | Every piece but the last is a vocabulary key; the last is a key or the unknown token. So, when the unknown token is not itself a key, the unknown token occurs at most once and only at the end (the failure marker is at most one piece and last in any case, by `WordPiecesCover`) |
| `WordPiece.WordPiecesKnown` | src/main/java/io/vacco/bertastic/BtWordPiece.java:61-71 | Every piece is a vocabulary key or the unknown token |
| `WordPiece.WordPiecesMatched` | src/main/java/io/vacco/bertastic/BtWordPiece.java:55-75 | Under the cap, each matched piece is the vocabulary key for units `[cuts[i], cuts[i+1])`, with `##` on all but the first, and no longer candidate at its start is in the vocabulary |
| `WordPiece.WordPiecesCover` | src/main/java/io/vacco/bertastic/BtWordPiece.java:55-75 | Under the cap, the matched pieces without `##` concatenate to a prefix of the token; there is no unknown token exactly when that prefix is the whole token, and otherwise the one extra piece is the unknown token |
| `WordPiece.WordPiecesEdges` | src/main/java/io/vacco/bertastic/BtWordPiece.java:49-52 | A token with more UTF-16 units than the cap yields exactly the unknown token; the empty token yields no pieces |
| `WordPiece.KeepsMatchedPieces` | src/main/java/io/vacco/bertastic/BtWordPiece.java:70-73 | With vocabulary `{un}`, the word `unx` gives `[un, [UNK]]`: matched pieces are kept before the unknown token |
| `WordPiece.TokenizeVocabulary` | src/main/java/io/vacco/bertastic/BtWordPiece.java:80-84 | Every token of a whitespace-split and WordPiece-split sequence is a vocabulary key or the unknown token |
| `WordPiece.TokenizeBatchRows` | src/main/java/io/vacco/bertastic/BtWordPiece.java:87-94 | The staged batch stream (whitespace-split all, then split the tokens of each row) gives one row per sequence, in order, and row `i` equals the single-sequence `tokenize` of sequence `i` (lines 80-84) |
| `Vocabulary.LoadVocabulary` | src/main/java/io/vacco/bertastic/BtFull.java:25-37 | The line loop with `index++` builds exactly `Indexed` of the lines (`FullTokenizer.java:31-43` is the same loop) |
| `Vocabulary.PositionsKeys` | src/main/java/io/vacco/bertastic/BtFull.java:31 | A key is in the map iff it is one of the inserted keys |
| `Vocabulary.PositionsIds` | src/main/java/io/vacco/bertastic/BtFull.java:31 | A key's id is an index where it was inserted and no later index holds it, so a later duplicate wins |
| `Vocabulary.IndexedEntries` | src/main/java/io/vacco/bertastic/FullTokenizer.java:31-43 | A key is present iff some trimmed line equals it; its id is the 0-based index of the last such line |
| `Vocabulary.DistinctLines` | src/main/java/io/vacco/bertastic/BtFull.java:25-37 | When trimmed lines are distinct, line `i` maps to `i` |
| `Vocabulary.Convert` | src/main/java/io/vacco/bertastic/BtFull.java:57-59 | Conversion succeeds iff every token is a vocabulary key, and then gives `vocabulary[tokens[i]]` at position `i`, same length and order (`FullTokenizer.java:75-77` is the same) |
| `Full.Create` | src/main/java/io/vacco/bertastic/BtFull.java:45-49 | The tokenizer holds the loaded vocabulary, a basic tokenizer with the given `doLowerCase`, and a WordPiece tokenizer over the same vocabulary with `[UNK]` and 200 |
| `Full.CreateDefault` | src/main/java/io/vacco/bertastic/FullTokenizer.java:51-53 | The one-argument legacy constructor loads the vocabulary and does not lower-case |
| `Full.PiecesKnown` | src/main/java/io/vacco/bertastic/BtFull.java:61-66 | Every piece of the WordPiece stage is a vocabulary key or the unknown token |
| `Full.TokenizeKnown` | src/main/java/io/vacco/bertastic/BtFull.java:61-66 | Every token of the full pipeline is a vocabulary key or `[UNK]` |
| `Full.ConvertTokenize` | src/main/java/io/vacco/bertastic/BtFull.java:45-66 | When `[UNK]` is in the vocabulary, converting the tokens of any sequence succeeds with one id per token |
| `Full.TokenizeBatch` | src/main/java/io/vacco/bertastic/BtFull.java:69-76 | One row per input sequence in order, row `i` equal to `tokenize` of sequence `i` (`FullTokenizer.java:87-94` is the same) |
| `Tokenizers.TokenizeAllAsWrittenThrows` | src/main/java/io/vacco/bertastic/Tokenizer.java:29-41 | As written, the `Iterable` and `Iterator` overloads throw `ClassCastException` on every input, the empty one included: `Iterables.toArray` returns an array whose runtime class is `Object[]` (`Iterables.java:21-33`), and passing it as `String...` casts it to `String[]`; the corrected overloads succeed on the same input |
| `Tokenizers.TokenizeAllRows` | src/main/java/io/vacco/bertastic/Tokenizer.java:23-41 | With the array built with component class `String`, as `BtIterables.toArray(…, String.class)` builds it (`BtIterables.java:22-34`), the overloads succeed for every implementation with one row per element, in iteration order, and row `i` is the single-sequence `tokenize` of element `i`, as their documentation promises |
| `Tokenizers.TokenizeAllAppend` | src/main/java/io/vacco/bertastic/Tokenizer.java:23-41 | For the corrected overloads, tokenizing a concatenation of inputs concatenates the rows, so rows never depend on other inputs |
| `Batch.Repeat` | src/main/java/io/vacco/bertastic/BtSession.java:174-178 | `n` copies of a value |
| `Batch.LayoutLength` | src/main/java/io/vacco/bertastic/BtSession.java:148-150 | The id and mask layouts of `count` rows have exactly `count * L` slots |
| `Batch.ConvertRowsEach` | src/main/java/io/vacco/bertastic/BtSession.java:160-161 | Converting all rows succeeds iff each row converts, and then gives each row's ids in order |
| `Batch.ConvertRowsFails` | src/main/java/io/vacco/bertastic/BtSession.java:160-161 | Once a row fails to convert, every longer prefix of rows fails too |
| `Batch.Reached` | src/main/java/io/vacco/bertastic/BtSession.java:160-180 | The number of rows reached before the buffers overflow never exceeds the row count |
| `Batch.InputBuffers.Allocate` | src/main/java/io/vacco/bertastic/BtSession.java:148-150 | Three fresh buffers of the given capacity, at position 0 |
| `Batch.InputBuffers.Put` | src/main/java/io/vacco/bertastic/BtSession.java:162-164 | One lockstep `put`: below the limit it appends the id, the mask and segment 0 and advances; at the limit it fails and changes nothing |
| `Batch.InputBuffers.PutIds` | src/main/java/io/vacco/bertastic/BtSession.java:165-169 | Appends the first `min(n, L - 2)` ids with mask 1 and segment 0 (none when `L < 2`) |
| `Batch.InputBuffers.PutPadding` | src/main/java/io/vacco/bertastic/BtSession.java:174-178 | Pads with id 0, mask 0 and segment 0 until the position reaches the limit, and no further |
| `Batch.InputBuffers.PutRow` | src/main/java/io/vacco/bertastic/BtSession.java:161-179 | For `L >= 2` a row appends `[CLS]`, the kept ids, `[SEP]` and padding to exactly `L` slots, and its masks and zero segments; for `L < 2` it succeeds iff two slots remain |
| `Batch.Assemble` | src/main/java/io/vacco/bertastic/BtSession.java:146-190 | The row loop over the buffers returns exactly `Expected`: the error that Java would throw first, or the layout (`Bert.java:143-186` is the same loop) |
| `Batch.AssembleRow` | src/main/java/io/vacco/bertastic/BtSession.java:160-180 | One pass of the row loop: a failure is exactly the one `Expected` reports; otherwise the buffers hold the converted rows so far, one more than before |
| `Batch.ExpectedUnknown` | src/main/java/io/vacco/bertastic/BtSession.java:161 | An unconvertible row reached before any overflow makes the result `UnknownToken` |
| `Batch.ExpectedOverflow` | src/main/java/io/vacco/bertastic/BtSession.java:162-172 | With `L < 2`, the first row whose puts pass the capacity makes the result `BufferOverflow` |
| `Batch.ExpectedLayout` | src/main/java/io/vacco/bertastic/BtSession.java:146-190 | With `L >= 2` and all rows converted, the result is the row-by-row layout, or empty buffers for no rows |
| `Batch.LaidOutSnoc` | src/main/java/io/vacco/bertastic/BtSession.java:160-180 | Appending one row's ids, mask and zero segments extends the layout by that row |
| `Batch.RowSlots` | src/main/java/io/vacco/bertastic/BtSession.java:161-178 | Slot `j` of a row holds `[CLS]` at 0, `ids[j-1]` up to `m = min(n, L-2)`, `[SEP]` at `m+1` and 0 after; the mask is 1 up to `m+1` and 0 after |
| `Batch.LayoutSlots` | src/main/java/io/vacco/bertastic/BtSession.java:160-180 | Slot `i*L + j` of the layout is slot `j` of row `i` |
| `Batch.ExpectedOutcome` | src/main/java/io/vacco/bertastic/BtSession.java:146-190 | The result is `NegativeCapacity` iff there are rows and `L < 0`; it succeeds iff there are no rows, or `L >= 2` and every token of every row is in the vocabulary |
| `Batch.ExpectedSlots` | src/main/java/io/vacco/bertastic/BtSession.java:148-189 | On success `L >= 2`, each buffer has `count * L` slots, slot `i*L + j` holds `[CLS]`, `ids[j-1]`, `[SEP]` or 0 as in `RowSlots`, its mask has `m+2` leading ones then zeros, and its segment id is 0 |
| `Session.Open` | src/main/java/io/vacco/bertastic/BtSession.java:46-54 | Building a session succeeds iff `[CLS]` and `[SEP]` are both in the loaded vocabulary; the session then holds their ids and a tokenizer over that vocabulary with the model's `doLowerCase` (`Bert.java:43-50` is the same) |
| `Session.GetInputs` | src/main/java/io/vacco/bertastic/BtSession.java:146-190 | Tokenizes the batch and assembles the buffers, with exactly the outcome `Inputs` states |
| `Session.InputsSucceed` | src/main/java/io/vacco/bertastic/BtSession.java:146-190 | With `[UNK]` in the vocabulary, `getInputs` succeeds iff the batch is empty or `L >= 2` |
| `Session.InputsConvert` | src/main/java/io/vacco/bertastic/BtSession.java:160-161 | When `getInputs` succeeds, every sequence of the batch converts to ids |
| `Session.InputsRow` | src/main/java/io/vacco/bertastic/Bert.java:156-176 | On success, slot `i*L + j` holds the vocabulary id of `[CLS]`, the ids of sequence `i` cut to `L - 2`, the id of `[SEP]`, then 0, with mask 1 through the separator and 0 after (`BtSession.java:160-180` is the same) |

## Left out

- TensorFlow inference (`embedSequences`, `embedTokens`, `SavedModelBundle`, `close`) is a foreign library with floating-point outputs. So is the wrapping of the buffers into `BtInputs`/`Inputs` tensors (`rewind`, `DataBuffers.of`). The model returns the buffers' contents with the count and `L`.
- Reading the vocabulary file (`BufferedReader`) is file I/O. The model starts from the file's lines.
- Model bundle unpacking, temporary directories and file paths (`BtFileIO`, `FileIO`, `BtModelSource`, `ModelBundle`, `JsonInput`) are filesystem I/O with no logic to prove.
- `Iterables.toArray` and `BtIterables.toArray` copy the elements into a list and then into an array, in iteration order. The model keeps only the resulting elements and the array's runtime component class (`Tokenizers.JavaArray`), which decides whether the overloads' cast to `String[]` succeeds.
- `Character.getType`, `String.toLowerCase` and NFD normalisation are JDK Unicode data. They are the function values of `Unicode.Jdk`, so no property depends on a Unicode table.
- `BasicTokenizer` and `WordpieceTokenizer`, which `FullTokenizer` delegates to, are not part of this model. They are modelled by `BtBasic` and `BtWordPiece`.
- `Batch.Assemble`: the product `count * maxSequenceLength` is an unbounded integer, so a Java `int` overflow of the buffer size is not modelled.
- `Chars.Text`: a sequence of code points may hold a high-surrogate code point followed by a low-surrogate one, which no `String.codePoints()` yields, and on such texts `Encode` is not injective. Such texts are not excluded; with the JDK's data `cleanText` drops category Cs, but the abstract `Unicode.Jdk` does not force that.
- `Batch.InputBuffers`: the three buffers share one position, because the source always puts into all three together. Buffers that drift apart are not modelled.

## Findings

| source | as written | input that shows it | evidently intended | confidence | as-written member | corrected member |
|---|---|---|---|---|---|---|
| src/main/java/io/vacco/bertastic/Tokenizer.java:29-41 | The overloads pass `Iterables.toArray`'s result to `tokenize(String...)`. That result is a `new Object[size]` under a generic cast (`Iterables.java:24,31`), so the implicit cast to `String[]` fails | any iterable or iterator of strings, e.g. `List.of("a")` or an empty list: `ClassCastException` | build the array with component class `String`, as `BtIterables.toArray(…, String.class)` does for `BtSession` (`BtSession.java:64`), and return one row per element | high; not executed | `Tokenizers.TokenizeAllAsWrittenThrows` | `Tokenizers.TokenizeAllRows` |
