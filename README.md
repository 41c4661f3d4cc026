# PDF body-text cleaning pipeline, modelled in Dafny

This project models the deterministic core of a PDF-to-text cleaning pipeline.
The pipeline reads a PDF's rendered layout and keeps the "body text": the text
lines whose font size is within one unit of the document's average size. It
then cleans that text through a fixed chain of stages:
- delete e-mail tokens;
- delete digit runs;
- delete an optional header pattern;
- delete ASCII punctuation;
- lower-case and strip;
- drop stopwords;
- redact named entities.

A companion diagnostic script extracts the layout word by word. It reports the
last hundred words and the average font sizes.

The layout parser, the named-entity recogniser, the stopword list and the
header regular expression are outside code. They become inputs:
- an abstract layout tree (`Layout.Document`);
- a list of `(word, group)` entities, or a function producing one;
- a stopword set;
- a text-deletion function for the header pattern.

Modules, one per file:
- `Wrappers`: `Option`.
- `Seqs`: order-preserving filtering and its characterisation.
- `Text`: Python's whitespace set, digits, `string.punctuation`, `lower`, `strip`, `split` and `join`.
- `Layout`: pages, elements, lines and glyphs; the first-character scan.
- `Extraction`: the main line-level extractor.
- `FontProfile`: the average and the tolerance filter.
- `Normalization`: the text scrubs.
- `Redaction`: the `str.replace` loop over entities.
- `Pipeline`: `clean_pdf_document`.
- `WordExtraction`: the diagnostic script.

The code that works by loops is modelled as methods with loops:
- the loop nests of the two extractors (`Extraction.ExtractTextWithFontSize` and `WordExtraction.ExtractTextWithFontSize`, with their per-page, per-container and per-line methods);
- the first-character scan (`Layout.FirstCharSize`);
- the redaction loop (`Redaction.RemoveNamedEntities`);
- the orchestration (`Pipeline.CleanPdfDocument`).

Each of these methods is proved equal to a recursive specification function.
Lemmas about those functions state what the source promises. Font sizes are exact `real`s.

## Model

| member | source | states |
|---|---|---|
| Layout.FirstSize | main.py:28-32 | a line has no size exactly when all its glyphs are annotations; otherwise its size is that of its first character glyph, every glyph before which is an annotation |
| Layout.FirstCharSize | main.py:28-32 | the scan that stops at the first character glyph returns exactly that glyph's size, or none |
| Layout.NoContainersNoLines | main.py:23-24 | a document whose pages hold no text container has no text lines |
| Layout.LineText | main.py:27 | a line's `get_text()` is its glyphs' texts, concatenated in order; `Extraction.BlocksComeFromLines` ties each block to it |
| Extraction.MakeBlock | main.py:34 | a sized line becomes the block of its stripped text and its first-character size; `Extraction.LineBlocksAreSizedLines` states which lines become blocks |
| Extraction.LineBlocks | main.py:26-35 | the specification of the extractor's loop nest: one block per line that has a character glyph, in order; characterised by `Extraction.LineBlocksAreSizedLines` |
| Extraction.ExtractTextWithFontSize | main.py:18-38 | the blocks are those of the document's text lines in page, element, line order, and the size list is parallel to them: same length, `sizes[i]` is block `i`'s size |
| Extraction.AppendPageLines | main.py:23-35 | handling one page appends exactly that page's line blocks and keeps the size list parallel |
| Extraction.AppendContainerLines | main.py:25-35 | handling one text container appends exactly its sized lines' blocks and their sizes |
| Extraction.LineBlocksAreSizedLines | main.py:33-35 | the blocks are, one for one and in order, the lines that have a character glyph; their number is the count of such lines |
| Extraction.BlocksComeFromLines | main.py:27-34 | every block holds the stripped text of one of the lines and that line's first-character size |
| Extraction.SizelessLineContributesNothing | main.py:33 | a line with no character glyph can be removed without changing the blocks |
| Extraction.LineBlocksAppend | main.py:22-25 | the blocks of consecutive line runs are the concatenation of each run's blocks |
| FontProfile.CalculateAverageFontSize | main.py:40-44 | the average is undefined exactly for an empty list; otherwise it times the count equals the sum |
| FontProfile.AverageBounds | main.py:44 | the average lies between any lower and upper bound of the sizes |
| FontProfile.FilterByAverageFontSize | main.py:46-48 | an undefined average gives the empty string |
| FontProfile.BodyBlocks | main.py:49 | every kept block is one of the blocks and lies within 1 of the average, and no more blocks are kept than there were |
| FontProfile.BodyBlocksCharacterization | main.py:49 | the kept blocks are exactly those within 1 of the average, boundary included, in their original order |
| FontProfile.UniformSizeKeepsEverything | main.py:44-49 | a document in one size throughout keeps every block, joined by single spaces |
| FontProfile.MinorityScenario | main.py:44-49 | sizes 10, 10, 10 and 24 average 13.5, and no block is kept |
| FontProfile.BoundaryScenario | main.py:49 | sizes 10 and 12 average 11, and both blocks, exactly 1 away, are kept and joined |
| Text.PunctuationSet | main.py:59 | the punctuation predicate is membership in the 32 characters of `string.punctuation` |
| Text.SplitJoin | main.py:65-66 | splitting a single-space join of words gives the words back |
| Text.JoinSingleSpaced | main.py:66 | a single-space join of words has no leading, trailing or doubled whitespace |
| Text.SplitStrip | main.py:27 | splitting ignores the margins that stripping removes |
| Normalization.RemoveEmails | main.py:52-53 | `\S+@\S+` deletes exactly the whitespace-delimited tokens with an interior '@', whole, and keeps all whitespace: its first `\S+` starts no later than the token and both runs stop at whitespace, so each match is one whole token; characterised by `Normalization.RemoveEmailsTokens` and `Normalization.RemoveEmailsKeepsWhitespace` |
| Normalization.RemoveEmailsTokens | main.py:52-53 | the words of the scrubbed text are exactly the input's words minus those with an interior '@', in order |
| Normalization.RemoveEmailsAppend | main.py:52-53 | text cut before a whitespace character is scrubbed piece by piece: no match spans the cut |
| Normalization.RemoveEmailsKeepsWhitespace | main.py:52-53 | the scrub keeps every whitespace character, in order |
| Normalization.RemoveEmailsWithoutAt | main.py:52-53 | text without an '@' is unchanged |
| Normalization.RemoveEmailsIdempotent | main.py:52-53 | scrubbing twice is scrubbing once |
| Normalization.EmailTokenDropped | main.py:53 | a whole token with an interior '@' is deleted, punctuation glued to it included |
| Normalization.ContactScenario | main.py:52-56 | "Contact me at a@b.com, call 2024"-shaped text becomes "Contact me at  call ": the comma goes with its token and the surrounding spaces stay |
| Normalization.RemoveNumbers | main.py:55-56 | no digit is left |
| Normalization.RemoveNumbersCharacterization | main.py:55-56 | the result is the input's subsequence of non-digits, its length the input's less the digit count |
| Normalization.RemoveNumbersIdempotent | main.py:55-56 | removing digits twice is removing them once |
| Normalization.CleanPunctuation | main.py:58-59 | no punctuation character is left |
| Normalization.CleanPunctuationCharacterization | main.py:58-59 | the result is the input's subsequence of non-punctuation, its length the input's less the punctuation count |
| Normalization.CleanPunctuationIdempotent | main.py:58-59 | removing punctuation twice is removing it once |
| Normalization.NormalizeText | main.py:61-62 | the result has no upper-case letter and no whitespace margin |
| Normalization.NormalizeTextIdempotent | main.py:61-62 | normalizing twice is normalizing once |
| Normalization.RemoveStopwords | main.py:64-67 | split on whitespace, keep the words whose lower-case form is not a stopword, join with single spaces; characterised by `Normalization.RemoveStopwordsTokens` |
| Normalization.RemoveStopwordsTokens | main.py:64-67 | the output's words are the input's words whose lower-case form is not a stopword, in order, and the output is single-spaced |
| Normalization.RemoveStopwordsIdempotent | main.py:64-67 | removing stopwords twice is removing them once |
| Normalization.RemoveStopwordsChars | main.py:64-67 | the output uses only the input's characters and the space |
| Redaction.DeleteAll | main.py:74 | the result is no longer than the text and uses only its characters |
| Redaction.DeleteAllUnchangedIff | main.py:74 | for a non-empty word, the text changes exactly when the word occurs in it |
| Redaction.DeleteAllRemovesWholeCopies | main.py:74 | the length lost is the word's length times the number of copies cut out |
| Redaction.DeletionCanReassemble | main.py:74 | deleting "ab" from "aabb" leaves "ab": an occurrence can remain after redaction |
| Redaction.Redact | main.py:72-74 | the redacted text is no longer than the input and uses only its characters |
| Redaction.RemoveNamedEntities | main.py:69-75 | the loop's result is the entities' deletions applied in the reported order |
| Redaction.RedactNothingSuppressed | main.py:72-73 | if no entity's group is a label to remove, the text is unchanged |
| Redaction.RedactOnlySuppressed | main.py:73 | entities of other groups have no effect |
| Redaction.RedactOneEntity | main.py:73-74 | a suppressed entity occurring in the text is deleted and the text shrinks |
| Redaction.AggregatedGroup | main.py:13 | an aggregated group is a suffix of the tag it comes from |
| Redaction.SourceLabelsAggregate | main.py:13 | every listed tag label is reported under PER, ORG or LOC, never under itself |
| Redaction.AsWrittenRedactsNothing | main.py:103 | with the labels as written, entities reported under aggregated groups leave the text unchanged |
| Redaction.CorrectedRedactsEntity | main.py:103 | with the corrected labels, a reported person, organisation or location occurring in the text is deleted |
| Pipeline.FilteredText | main.py:83-87 | the body text: the blocks of the document within 1 of the average size, joined by single spaces, or "" when there is no block |
| Pipeline.Normalized | main.py:93-101 | the text stages in the source's order: e-mails, digits, the header pattern when it is given and non-empty, punctuation, lower-case and strip, stopwords; `Pipeline.NormalizedChars` states what they leave |
| Pipeline.CleanedText | main.py:83-105 | "" when the body text is empty; otherwise the normalized text with the entities of the given labels redacted; `Pipeline.CleanPdfDocument` is proved equal to it |
| Pipeline.CleanPdfDocument | main.py:82-105 | the stage-by-stage run equals the cleaned-text function with the tag labels main.py:103 passes, and an empty filtered text returns "" |
| Pipeline.CorrectedPipelineRedactsEntity | main.py:103 | with the corrected labels, whenever the document yields text, the recogniser reports exactly one entity and its word occurs, a person, organisation or location the recogniser reports in the normalized text is deleted from it and the text shrinks |
| Pipeline.UnsetHeaderIsNoOp | main.py:96-97 | an absent or empty header pattern leaves the stages as they are |
| Pipeline.NoSizedLinesNoText | main.py:83-91 | a document with no sized line yields "" |
| Pipeline.NoContainersNoText | main.py:83-91 | a document with no text container yields "" |
| Pipeline.EarlyExitIgnoresLaterStages | main.py:89-91 | on an empty filtered text the result is "" whatever the header, stopwords, recogniser and labels are |
| Pipeline.RedactionOnlyDeletes | main.py:103 | the result is no longer than the normalized text and uses only its characters |
| Pipeline.NothingSuppressedKeepsNormalized | main.py:103 | if the recogniser reports no suppressed entity, the result is the normalized text |
| Pipeline.AsWrittenPipelineRedactsNothing | main.py:103 | with the labels as written and aggregated groups, the result is the normalized text |
| Pipeline.NormalizedChars | main.py:78-101 | the normalized text is single-spaced and has no punctuation, no upper-case letter and no digit, header pattern or not, because `re.sub(pattern, '', text)` only deletes |
| Pipeline.CleanedTextChars | main.py:78-105 | the final text has no punctuation, no upper-case letter and no digit |
| Pipeline.NormalizedIdempotent | main.py:93-101 | without a header, running the text stages on their own output changes nothing |
| Pipeline.ScrubbedTextIsStable | main.py:93-100 | a scrubbed single-spaced text passes the scrubs and case normalization unchanged |
| WordExtraction.WordBlocks | debug.py:13-24 | the specification of the word extractor's loop nest: the words of each line that has a character glyph, at that line's size, line after line; characterised by `WordExtraction.WordBlocksFromLines` and `WordExtraction.WordBlocksSplitLineBlocks` |
| WordExtraction.ExtractTextWithFontSize | debug.py:4-26 | the blocks are the word blocks of the document's text lines, in page, element, line and word order |
| WordExtraction.AppendPageWords | debug.py:10-24 | handling one page appends exactly its word blocks |
| WordExtraction.AppendContainerWords | debug.py:13-24 | handling one container appends, for each sized line, its words at that line's size |
| WordExtraction.AppendLineWords | debug.py:15-24 | handling one text line appends its words at its first-character size when it has a character glyph, and nothing otherwise |
| WordExtraction.AppendWords | debug.py:23-24 | the word loop appends one block per word, in order, all at the line's size |
| WordExtraction.WordBlockOrigin | debug.py:15-24 | each block is a non-empty whitespace-free word of one of the lines, at that line's first-character size |
| WordExtraction.WordBlocksFromLines | debug.py:15-24 | every block is a word of some sized line, at that line's size |
| WordExtraction.WordBlocksSplitLineBlocks | debug.py:15-24 | the word blocks are the main extractor's line blocks split into words |
| WordExtraction.Last100 | debug.py:30 | the result is the suffix of length min(100, n) |
| WordExtraction.MeanSize | debug.py:33-36 | 0 for no blocks; otherwise the mean times the count equals the sum of the sizes |
| WordExtraction.ExtractLast100WordsWithFontSize | debug.py:28-38 | the suffix is the last-hundred slice; its average is 0 when empty and otherwise times the count equals the sum |
| WordExtraction.CalculateAverageFontSize | debug.py:40-47 | 0 for no blocks; otherwise the mean size |
| WordExtraction.ShortDocumentSameAverage | debug.py:30-47 | with at most 100 blocks, the last-hundred average equals the whole-document average |
| WordExtraction.AverageAgreesWithMain | debug.py:40-47 | the average agrees with the main pipeline's where that is defined; it is 0 where the main average is undefined |
| WordExtraction.Last100AverageBounds | debug.py:33-34 | the last-hundred average lies between any bounds of the sizes |

## Behaviour of the code worth knowing

In four cases the code's results differ from what a reader of the function names would expect. The model follows the code:
- **Contact line.** On "Contact me at a@b.com, call 2024", the code's `\S+@\S+` takes the whole token "a@b.com,", comma included. With the digits gone too, the result is "Contact me at  call ", with two spaces where the token was. It is not "Contact me at , call ". See `Normalization.ContactScenario`.
- **Sizes 10, 10, 10, 24.** The average is 13.5. The three 10.0 blocks are 3.5 away and the 24.0 block is 10.5 away, so all four are dropped and the filtered text is "". See `FontProfile.MinorityScenario`.
- **Redaction can leave a copy behind.** `str.replace` deletes left to right in one pass, and the pieces around a deleted copy can join into a new one. Deleting "ab" from "aabb" leaves "ab". See `Redaction.DeletionCanReassemble`.
- **Stopword case.** Only the word is lower-cased before the stopword test (main.py:66). The stopword set is used as given, so a stopword listed with a capital letter never matches.

## Findings

| source | as written | input that shows it | evidently intended | confidence | as-written member | corrected member |
|---|---|---|---|---|---|---|
| main.py:103 | `labels_to_remove` lists the token tags B-PER, I-PER, B-ORG, I-ORG, B-LOC and I-LOC. The recogniser is built with `aggregation_strategy="simple"` (main.py:13), which reports each span's group without its B-/I- prefix, so no reported group is in the list. | Any text for which the recogniser reports an entity such as ("ahmet", "PER"): that entity is kept. | Person, organisation and location names are removed. | medium; not executed; rests on simple aggregation dropping the tag prefix | Redaction.AsWrittenRedactsNothing | Redaction.CorrectedRedactsEntity |

`Pipeline.CleanPdfDocument` follows the code as written and redacts with the tag labels (`Redaction.SourceLabels`). `Pipeline.CleanedText` takes the labels as a parameter. For the whole pipeline, `Pipeline.AsWrittenPipelineRedactsNothing` states the as-written behaviour. `Pipeline.CorrectedPipelineRedactsEntity` states the corrected behaviour, with the corrected groups `Redaction.SuppressedGroups`: PER, ORG and LOC plus the original tag labels.

## Left out

- PDF parsing (`extract_pages` and the `LT*` classes) is left out. The layout is an input tree in which a character glyph carries its size and an annotation glyph carries none. Parser failures are I/O.
- The named-entity model (loading and inference) is a foreign model call. It becomes an entity list (`Redaction`) or a function from text to entities (`Pipeline`). The span and score fields are not modelled because the code never reads them.
- The recogniser's tokenisation artefacts in reported words (such as sub-word markers) are not modelled. Reported words are taken as they come.
- The `stopwords` library is a parameter (`stopwords: set<string>`).
- The header regular expression is an opaque function (`removePattern`). It is applied only when the pattern is given and non-empty. General regular-expression semantics are out of scope. The character lemmas assume only what `re.sub(pattern, '', text)` guarantees, `Pipeline.OnlyDeletes`: every character of its result comes from the text.
- Pipeline.NormalizedIdempotent: states idempotence only without a header pattern. With one, the program's stages are not idempotent: deleting one match can create another, as deleting "ab" from "aabb" leaves "ab" (`Redaction.DeletionCanReassemble` shows the same for `str.replace`).
- JSONL output, every `print` and both `__main__` blocks are left out as I/O. This includes the diagnostic script's joining of the last hundred words for display.
- Floating point is left out: sizes, sums, averages and `abs` are exact `real`s. The tolerance comparison is exact.
- Unicode beyond what is modelled is left out:
  - `\d` is restricted to ASCII digits;
  - `lower()` is modelled for ASCII, Latin-1 and the Turkish capitals Ğ, İ and Ş, with İ becoming "i" plus a combining dot;
  - other scripts' case mappings are not modelled.
  - Whitespace is Python's full `str.isspace` set.
- FontProfile.FilterByAverageFontSize: its own contract states only the undefined-average case; the defined case is stated by `FontProfile.BodyBlocksCharacterization` and the scenarios.
