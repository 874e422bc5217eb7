# Receipt text parser — a verified model

This project models the text-parsing half of the receipt OCR pipeline in
`lib/ocr.ts`. `parseReceiptText` takes the raw transcript that the OCR engine
produced and its confidence percentage, and builds an `ExtractedData` record:

- **Normalization.** The transcript is split on `\n`, each piece is trimmed
  and empty pieces are dropped. Modules `Text` and `Lines`.
- **Vendor.** The first of the leading five lines that passes a test. The
  test runs on the upper-cased copy: no reserved word, a length strictly
  between 2 and 50, and no digit. The line is returned as written. Module
  `Vendor`.
- **Date.** The leftmost match of the date regular expression in the first
  line that has one, taking as many digits as the expression allows. The
  expression accepts `D{1,2}/D{1,2}/D{2,4}` or `D{4}/D{1,2}/D{1,2}`, with
  `/` or `-` as separators. Modules `Dates` and
  `DateExtraction`.
  - The backtracking of the regular-expression engine is modelled by a small
    token matcher.
  - The matcher is proved sound and complete against a declarative
    description of the two shapes.
- **Amounts.** Module `Amounts`, on top of the matchers in `Numbers`.
  - Keyed pass: the total comes from the first line whose upper-cased form
    has a `TOTAL`/`AMOUNT`/`BALANCE`/`DUE` amount, and the tax from the first
    line with a `TAX` amount. In both cases JavaScript truthiness applies: a
    0 does not stop the search, and it remains only when no non-zero match
    exists.
  - Pool: every strictly positive `$` amount of every line.
  - Fallback: when no non-zero keyed total exists and the pool is not
    empty, the total becomes the largest pooled amount. With two or more
    pooled amounts the tax becomes the second largest, replacing any keyed
    tax; with one, the keyed tax stays. With an empty pool the keyed results
    stand.
- **Line items.** Module `LineItems`. A line becomes an item when all of
  these hold:
  - it carries no skip word;
  - it contains a `$` amount;
  - it is longer than three characters;
  - its text minus that amount, trimmed, is not empty.

  At most the first ten items are kept.
- **Review flag.** The record needs review exactly when one of these holds:
  the confidence is below 80, there is no vendor, or the total is absent or
  zero. Module `Receipt`.

Amounts are exact decimals (`real`), built from the digit strings that
`parseFloat` reads. The operations that mutate local state are methods whose
loops carry invariants:

- `extractAmounts`: first-wins guards, pushes to the pool, then the sort;
- `extractLineItems`: pushes, then the slice;
- `parseReceiptText`: fills the record field by field.

Each method is proved equal to a specification function. The properties of
the extractors are proved about those functions.

## Model

| member | source | states |
|---|---|---|
| Text.Trim | lib/ocr.ts:78 | the trimmed line is no longer than the original, neither starts nor ends with white space, and is empty exactly when the line is all white space |
| Text.TrimPiece | lib/ocr.ts:78 | the trimmed line stands in the original with only white space before and after it |
| Text.TrimKeepsOut | lib/ocr.ts:78 | trimming introduces no character, so a trimmed piece of a split still holds no line break |
| Text.TrimIdempotent | lib/ocr.ts:78 | trimming twice is trimming once |
| Text.Split | lib/ocr.ts:78 | `split('\n')` gives at least one piece and no piece holds a line break |
| Text.JoinSplit | lib/ocr.ts:78 | splitting loses nothing: joining the pieces with line breaks gives back the transcript |
| Text.SplitJoin | lib/ocr.ts:78 | splitting a join of break-free pieces gives back those pieces |
| Text.SplitConcat | lib/ocr.ts:78 | the pieces of `a + "\n" + b` are the pieces of `a` followed by the pieces of `b` |
| Text.UpperDigits | lib/ocr.ts:110 | upper-casing neither creates nor removes digits |
| Lines.Normalize | lib/ocr.ts:78 | every normalized line is non-empty, already trimmed and free of line breaks |
| Lines.CleanPiecesAppend | lib/ocr.ts:78 | trimming and dropping empty pieces works piece by piece, so document order is kept |
| Lines.NormalizeConcat | lib/ocr.ts:78 | the lines of two transcripts joined by a line break are the lines of the first followed by those of the second |
| Lines.NormalizeSingleLine | lib/ocr.ts:78 | a break-free text gives exactly its trimmed form as one line, or no line when that is empty |
| Lines.NormalizeBlank | lib/ocr.ts:78 | a transcript of white space only gives no lines |
| Lines.NormalizeIdempotent | lib/ocr.ts:78 | writing the lines back out and normalizing again gives the same lines |
| Numbers.DigitRunEnd | lib/ocr.ts:142 | `\d+`/`\d*` match greedily: the run ends at the first non-digit |
| Numbers.DecimalValueSpec | lib/ocr.ts:154 | the value `parseFloat` reads from `int.frac` lies in [int, int+1) and is 0 exactly when every digit is `0` |
| Numbers.NumeralAt | lib/ocr.ts:142 | `\d+\.?\d*` matches at `i` exactly when a digit stands there; the match covers digits and a dot only and its value is not negative |
| Numbers.NumeralAtSpec | lib/ocr.ts:142 | the match is the whole digit run, then one optional dot, then the following digit run, and its value is that decimal |
| Numbers.PriceAt | lib/ocr.ts:164 | `\$(\d+\.?\d*)` matches at `p` exactly when `$` stands there followed by a digit |
| Numbers.FirstPriceFrom | lib/ocr.ts:211 | the first `$` amount is the leftmost position where the pattern matches; none matches when there is none |
| Numbers.PricesScan | lib/ocr.ts:164 | the global scan, which resumes after each match, lists exactly the amounts found by looking at every position and skipping over each match |
| Numbers.FirstPriceFirst | lib/ocr.ts:164 | the global scan is empty exactly when there is no first amount, and otherwise starts with it |
| Numbers.SkipSpaceColon | lib/ocr.ts:142 | `[\s:]*` stops only at the end of the text or at a character that is neither white space nor a colon |
| Numbers.SkipSpaceColonSkips | lib/ocr.ts:142 | everything `[\s:]*` consumes is white space or a colon |
| Numbers.LabelTailSpec | lib/ocr.ts:142-143 | after a label, `[\s:]*\$?number` matches exactly when a digit follows the spaces and colons and an optional `$`, and its value is that numeral's |
| Numbers.LabelledAtFrom | lib/ocr.ts:142-143 | a match at `p` starts at `p`, names one of the labels and has a value that is not negative |
| Numbers.LabelledAtFromSpec | lib/ocr.ts:142-143 | at one position the label alternatives are tried in order: the match uses a label that stands there with a matching tail and gives that tail's value, and no earlier label does; there is no match only when no label does |
| Numbers.LabelledFromSpec | lib/ocr.ts:142-143 | the keyed pattern yields the match at the leftmost position where some label matches, and nothing when no position does |
| Numbers.LabelledAmount | lib/ocr.ts:152-160 | a keyed amount is never negative |
| Dates.MatchSound | lib/ocr.ts:128 | an end the backtracking matcher reports spans the token pattern |
| Dates.MatchComplete | lib/ocr.ts:128 | whenever the pattern spans some piece from `i`, the matcher finds a match |
| Dates.SpansShift | lib/ocr.ts:128 | whether a piece has a date shape does not depend on the text around it |
| Dates.AltAtSpec | lib/ocr.ts:128 | one try at `p`, alternatives in order, returns an end such that the piece has a shape of one of the alternatives; it fails only when no piece from `p` has such a shape |
| Dates.SpanFromSpec | lib/ocr.ts:131 | `line.match` finds a piece of the line with a date shape, and no piece starting further left has one; it finds nothing only when no piece has one |
| Dates.SpanFromAt | lib/ocr.ts:131 | the match found is the engine's try of the alternatives at the leftmost index that has one |
| Dates.LeadingRun | lib/ocr.ts:128 | a piece spanned by a pattern that opens with `\d{lo,hi}` and a separator opens with a digit run of `lo` to `hi` digits |
| Dates.MatchLongest | lib/ocr.ts:128 | for a pattern in which every digit group but the last is closed by a separator, the backtracking engine ends at the longest piece the pattern spans |
| Dates.AltAtLongest | lib/ocr.ts:128 | two alternatives whose leading digit counts cannot agree never both match at one index, so the engine's try ends at the longest piece either spans |
| Dates.DateMatchLongest | lib/ocr.ts:128-131 | `line.match` returns the longest date-shaped piece at its start index: no longer piece from there has a date shape |
| Dates.ShapeOfPiece | lib/ocr.ts:128 | a piece with a date shape inside a line has that shape on its own |
| Dates.FoundDateShape | lib/ocr.ts:131-133 | a found date is the matched text and has one of the two shapes on its own, with no calendar check |
| DateExtraction.DateLineFrom | lib/ocr.ts:130-137 | the loop stops at the first line in which the date pattern matches; it runs to the end only when no line has a match |
| DateExtraction.ExtractDateSpec | lib/ocr.ts:127-138 | a returned date is, unmodified, the longest date-shaped piece at the leftmost index that starts one, in the first line that holds one; no earlier line holds a date-shaped piece; it is absent exactly when no line holds one |
| Vendor.VendorFrom | lib/ocr.ts:109-124 | the result is the earliest line within the first min(5, n) that passes the test, returned as written |
| Vendor.LooksLikeVendorOriginal | lib/ocr.ts:110-119 | the length and digit tests give the same answer on the line as on its upper-cased copy |
| Vendor.VendorSpec | lib/ocr.ts:107-125 | a vendor is one of the first min(5, n) lines, verbatim; it holds no reserved word once upper-cased, has 3 to 49 characters and no digit, and no earlier line in the window qualifies; it is absent exactly when no line in the window qualifies |
| Amounts.KeyedAt | lib/ocr.ts:149-160 | entry `i` of the keyed matches is the match on the upper-cased line `i` |
| Amounts.FirstKeyedSpec | lib/ocr.ts:145-161 | the guard `!total` makes the first non-zero match win; a 0 stays only when no non-zero match exists; nothing is found exactly when no line matched |
| Amounts.FirstKeyedIsFirst | lib/ocr.ts:153-155 | the first non-zero match is the result |
| Amounts.PositivesCount | lib/ocr.ts:166-170 | a line adds each strictly positive amount as often as it occurs, and no other value |
| Amounts.PushPositives | lib/ocr.ts:164-171 | the `forEach` callback pushes exactly the strictly positive amounts of the line, in order, after what was already pooled |
| Amounts.PoolCount | lib/ocr.ts:163-172 | the pool keeps duplicates: a positive value is pooled as often as it occurs as a `$` amount over all lines, and nothing else is pooled |
| Amounts.PoolMembers | lib/ocr.ts:163-172 | a value is pooled exactly when it is positive and is a `$` amount of some line |
| Amounts.InsertDescending | lib/ocr.ts:177 | inserting into a descending list keeps it descending and adds exactly that element |
| Amounts.SortDescending | lib/ocr.ts:177 | `sort((a, b) => b - a)` returns a descending permutation of the pool |
| Amounts.DescendingHeads | lib/ocr.ts:177-181 | after the sort, the first element is the pool maximum and the second the largest of the rest; the second equals the first exactly when the maximum occurs twice |
| Amounts.SortedRepeatedHead | lib/ocr.ts:177-180 | a maximum that occurs twice is also the second element of the descending order |
| Amounts.KeyedTotalWins | lib/ocr.ts:153-155 | when line `i` holds the first non-zero keyed total it is the total and the fallback is not used, so the tax is the first non-zero keyed tax |
| Amounts.FallbackToLargest | lib/ocr.ts:175-182 | with no non-zero keyed total and a non-empty pool, the total is the pool maximum; with two or more pooled amounts the tax is the second largest, replacing any keyed tax, and equals the total exactly when the maximum occurs twice; with one, the keyed tax stays |
| Amounts.EmptyPoolKeepsKeyed | lib/ocr.ts:175-182 | with no non-zero keyed total and no positive `$` amount the pool is empty, no fallback happens, and the total stays absent or 0 |
| Amounts.ExtractAmounts | lib/ocr.ts:140-185 | the loop, the pool and the fallback compute exactly the keyed-then-fallback result |
| LineItems.ItemOfSpec | lib/ocr.ts:203-220 | a line yields an item exactly when it has no skip word once upper-cased, is longer than 3, holds a `$` amount, and leaves a non-empty trimmed remainder once its first `$` amount is cut out; the description is that remainder, the price is the line's first `$` amount, and quantity and unit price are absent |
| LineItems.YieldsAt | lib/ocr.ts:201-221 | entry `i` of the per-line results is what line `i` yields |
| LineItems.PresentInOrder | lib/ocr.ts:201-221 | the collected items are the yielded items, one each, in increasing line order, and none is missed |
| LineItems.FirstItems | lib/ocr.ts:223 | the first min(10, n) of the n items, in document order |
| LineItems.ExtractLineItems | lib/ocr.ts:187-224 | the loop and the slice return the first min(10, n) of the n qualifying items, in document order |
| Receipt.ParseReceiptText | lib/ocr.ts:77-105 | every field comes from the normalized lines: vendor, date, keyed-or-fallback amounts and the first ten items; the confidence is the input divided by 100, and it lies in [0, 1] for an input in [0, 100]; review is needed exactly when the input is below 80, the vendor is absent or the total is absent or 0; a record not needing review has a vendor and a non-zero total |
| Receipt.BlankTranscript | lib/ocr.ts:77-105 | a transcript of white space only yields no lines, no vendor, no date, no amounts and no items |

## Left out

- `processReceipt`, `convertPdfToImage`, `fileToDataUrl` and the pdf.js worker setting (lib/ocr.ts:6, 23-75). These are asynchronous calls into the OCR engine, pdf.js, canvas and FileReader. The transcript and its confidence become the parameters of `Receipt.ParseReceiptText`.
- Floating point. `parseFloat` and `confidence / 100` are exact `real` arithmetic here. Binary rounding of decimal fractions is not modelled.
- Text.Upper: upper-casing maps ASCII `a`–`z` only. Non-ASCII case mapping of `toUpperCase` is not modelled, including mappings that change a string's length.
- Amounts.SortDescending: the in-place `Array.prototype.sort` of the pool is modelled as a pure function on a sequence. Only its result is stated (descending, a permutation). The library's algorithm is not modelled, nor the mutation of the array.
- Dates.AltAtSpec: for an arbitrary list of alternatives states only that the end the engine picks gives a shape. For the date expression, `Dates.DateMatchLongest` states that the end is the longest one.
- Dates.SpanFromSpec: stated for any list of alternatives, so it does not fix where the match ends; `Dates.DateMatchLongest` does so for the date expression.
- Vendor.LooksLikeVendor: lengths are counted in Unicode code points (Dafny's `|s|`), while `line.length` counts UTF-16 code units. A character outside the Basic Multilingual Plane counts 1 here and 2 in the source, which shifts the bounds 2 < length < 50; lone surrogates cannot be represented.
- LineItems.ItemOf: the same code-point counting applies to the bound `line.length > 3`.
- `quantity` and `unitPrice` of a line item are never set by the source. The model keeps them as always-absent fields.
- The user interface, the upload hash, the API routes and the dashboard aggregates are not part of this model. They are rendering, persistence and foreign calls.
