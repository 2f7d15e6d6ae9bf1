# Question bank import, modelled in Dafny

This project models the import core of the question-bank manager `py-timuToJson/timu_manager.py`. The manager fills the SQLite table `timu` from three sources.

- **Text import** (`import_from_txt`). It normalises the fullwidth full stop, splits the text into question blocks at the numbering pattern `(?:^|\n\s*)\d+?[\.。]`, and drops the text before the first number. From each block it extracts four fields:
  - a title, up to the first line break followed by an option letter;
  - the options, as a non-overlapping `findall` of a letter `A`–`E`, an optional full stop and a lazy body;
  - an answer and an explanation, chosen by three ordered tiers: a letter key `答案：ABC`, then `答案：… \n解析`, then `答案：…` to the end.

  Each block is inserted under a freshly generated id. If that id is taken, one more id is generated. If that one is taken too, the whole import stops.
- **JSON import** (`import_from_json`). Each item is inserted, or, when its id already exists, overwrites that row's fields except the creation time. Every item is counted.
- **Batch import** (`batch_import_from_folder`). The files of a folder are taken in listing order and chosen by lower-cased extension. `.txt` files go through the text import. `.json` files go through an insert-only JSON import: an item whose id exists is skipped and not counted. One error handler surrounds the whole loop, so the first unreadable or malformed file stops the batch.

The model has seven modules:

- `Text`: character classes, `str.strip`, and leftmost search.
- `Matching`: the left-to-right scan shared by `re.split` and `re.findall`.
- `Normalizer`, `Segmenter` and `Extractor`: the parser, as pure functions.
- `Store`:
  - the table as a `map` from id to row;
  - each import as a reference function over a `Run` state;
  - the class `QuestionBank`, whose loop methods update the table in place and are proved equal to those functions.
- `Scenarios`: worked examples on short concrete blocks.

Generated ids come from a stream `draw: nat -> string`:

- The text import uses one element per insert attempt.
- The JSON imports use one element per item, because the default argument of `item.get` is evaluated whether or not the item has an id.

The clock is a parameter `now`, and the JSON decoder is a parameter `decode`.

Several behaviours of the code are easy to misread; the model follows the code:

- A block with no line break followed by an option letter has an empty title, not the whole block (`timu_manager.py:175-176`).
- Option letters are not anchored to the start of a line. Any `A`–`E` followed by a character starts an option unless it lies inside an earlier option's match. So in a key `答案：AB` the `A` starts an option whose body is `B`, and the block gains an option `B`; `Scenarios.KeyedOptions` shows this. An option body also ends only at `\n答案` or `\n解析`, not at those words elsewhere.
- The batch import does not isolate files: the first unreadable file, or the first JSON file that does not decode, stops the whole batch, and no count is reported (`timu_manager.py:273`, `377-379`).

## Model

| member | source | states |
|---|---|---|
| Normalizer.Normalize | py-timuToJson/timu_manager.py:165 | same length; every `．` becomes `.`, every other character is kept in place |
| Normalizer.NormalizeRemovesStops | py-timuToJson/timu_manager.py:165 | no fullwidth full stop is left after normalisation |
| Normalizer.NormalizeIdempotent | py-timuToJson/timu_manager.py:165 | normalising twice is normalising once |
| Normalizer.NormalizeFixesStopFree | py-timuToJson/timu_manager.py:165 | text without `．` is unchanged |
| Text.Strip | py-timuToJson/timu_manager.py:180 | the result is a slice of the input with only whitespace (Python's `isspace` set) before and after it, and neither of its ends is whitespace |
| Text.StripStripped | py-timuToJson/timu_manager.py:180 | a string whose ends are not whitespace is its own strip |
| Text.StripIdempotent | py-timuToJson/timu_manager.py:180 | stripping twice is stripping once |
| Matching.Scan | py-timuToJson/timu_manager.py:169 | the scan `re.split` and `re.findall` make: every span is a match at its start, inside the text, and the spans are in order without overlap |
| Matching.ScanCovers | py-timuToJson/timu_manager.py:169 | no match is skipped: every position where the pattern matches starts or lies inside a reported span |
| Matching.NoMatchBefore | py-timuToJson/timu_manager.py:169 | the pattern matches nowhere before the first span |
| Matching.NoMatchAfter | py-timuToJson/timu_manager.py:169 | the pattern matches nowhere between two consecutive spans or after the last |
| Matching.ScanSkip | py-timuToJson/timu_manager.py:179 | positions where the pattern does not match are passed over |
| Matching.ScanTake | py-timuToJson/timu_manager.py:179 | a match where the scan stands is reported, and the scan resumes at its end |
| Segmenter.NumberAt | py-timuToJson/timu_manager.py:168 | `\d+?[\.。]` ends after its start and inside the text |
| Segmenter.MarkerAt | py-timuToJson/timu_manager.py:168 | a question-number match ends after its start and inside the text |
| Segmenter.MarkerAtIsPattern | py-timuToJson/timu_manager.py:168 | the matcher finds a marker ending at `e` exactly when the text holds the start of text or a line break plus whitespace, then digits, then a full stop up to `e` |
| Segmenter.MarkerAtShape | py-timuToJson/timu_manager.py:168 | what the matcher finds has the shape of the pattern |
| Segmenter.ShapeMarkerAt | py-timuToJson/timu_manager.py:168 | every occurrence of the pattern's shape is found by the matcher |
| Segmenter.Markers | py-timuToJson/timu_manager.py:168-169 | the marker matches are non-empty, inside the text and in order |
| Segmenter.Pieces | py-timuToJson/timu_manager.py:169 | `split` yields one more piece than there are matches |
| Segmenter.Split | py-timuToJson/timu_manager.py:169 | `pattern.split(data)` has one piece per match plus the preamble |
| Segmenter.Segment | py-timuToJson/timu_manager.py:169-173 | `data_list[1:]` has exactly one block per marker match |
| Segmenter.WeavePieces | py-timuToJson/timu_manager.py:169 | putting the matched texts back between the pieces gives back the text |
| Segmenter.PieceAt | py-timuToJson/timu_manager.py:169 | piece 0 is the text before the first match; piece `k + 1` runs from the end of match `k` to the next match or the end |
| Segmenter.SegmentRoundTrip | py-timuToJson/timu_manager.py:169-173 | the preamble, then each marker followed by its block, reconstruct the whole text |
| Segmenter.SegmentBlockAt | py-timuToJson/timu_manager.py:169-173 | block `k` is exactly the text between marker `k` and the next marker (or the end); the dropped preamble is the text before the first marker |
| Segmenter.SegmentNoMarker | py-timuToJson/timu_manager.py:169-173 | text without a question number gives no blocks: the whole text is the dropped preamble |
| Segmenter.MarkersMatch | py-timuToJson/timu_manager.py:168-169 | every cut is made at a match of the numbering pattern |
| Segmenter.NoMarkerInPreamble | py-timuToJson/timu_manager.py:169-173 | no number pattern matches inside the dropped preamble |
| Segmenter.NoMarkerInBlock | py-timuToJson/timu_manager.py:169-173 | no number pattern matches inside a block, so blocks are cut at every match and nowhere else |
| Extractor.Title | py-timuToJson/timu_manager.py:175-176 | the stripped text before the first line break that is followed by an option letter; empty when there is none |
| Extractor.NearestStop | py-timuToJson/timu_manager.py:179 | the first position from `i` where an option body may end: a line break before an option letter, `\n答案`, `\n解析`, or the end of the block |
| Extractor.OptionLineAt | py-timuToJson/timu_manager.py:175 | the lookahead `(?=\n[A-E])`: a line break followed by an option letter; `Extractor.Title` stops at its first occurrence |
| Extractor.OptionStop | py-timuToJson/timu_manager.py:179 | the lookahead that ends an option body: `\n[A-E]`, `\n答案`, `\n解析`, or `$`, with `$` at the end of the block and before a final line break; `Extractor.NearestStop` finds its first position |
| Extractor.BodyStart | py-timuToJson/timu_manager.py:179 | the greedy `[\.。]?`: a full stop right after the letter is skipped when a character follows it, and otherwise left to the body; `Extractor.OptionBody` states it both ways |
| Extractor.OptionAt | py-timuToJson/timu_manager.py:179 | an option match ends after its letter and inside the block |
| Extractor.OptionSpans | py-timuToJson/timu_manager.py:179 | the `findall` matches: each is an option match at its start, inside the block, in order without overlap |
| Extractor.Options | py-timuToJson/timu_manager.py:179-180 | one stripped option per match |
| Extractor.LetterKeyAt | py-timuToJson/timu_manager.py:183 | tier (a) `答案[:：]([A-E]+)` matches at `p`: the marker and a colon, then an option letter; `Extractor.LetterKeyAnswer` gives the answer it yields |
| Extractor.ExplainedEnd | py-timuToJson/timu_manager.py:187 | tier (b) at `p`: an answer marker with at least one character before the nearest following `\n解析`, and no `\n解析` in between |
| Extractor.AnswerToEndAt | py-timuToJson/timu_manager.py:193 | tier (c) `答案[:：]([\s\S]+)` matches at `p`: the marker and a colon with at least one character after them; `Extractor.ToEndAnswer` gives the answer it yields |
| Extractor.AnalysisAt | py-timuToJson/timu_manager.py:190 | `解析[:：]([\s\S]+)` matches at `p`: the marker and a colon with at least one character after them; `Extractor.AnalysisText` takes the first such position |
| Extractor.Classify | py-timuToJson/timu_manager.py:183-194 | the first tier with any match decides, at its leftmost match; a later tier is used only when no earlier tier matches anywhere |
| Extractor.AnalysisText | py-timuToJson/timu_manager.py:190-191 | the stripped rest after the first `解析` and colon that has text after it; empty when there is none |
| Extractor.AnswerAndAnalysis | py-timuToJson/timu_manager.py:183-198 | answer and explanation are both stripped |
| Extractor.ParseBlock | py-timuToJson/timu_manager.py:174-198 | every block yields a question, never an error, and all its fields are stripped |
| Extractor.OptionBody | py-timuToJson/timu_manager.py:179-180 | option `i` starts with its letter, then a full stop exactly when one follows the letter with a character after it; its body has at least one character and ends at the nearest stop; the option is that body stripped |
| Extractor.OptionsInDocumentOrder | py-timuToJson/timu_manager.py:179 | options come in the order of their letters in the block, whatever the letters are |
| Extractor.EveryLetterIsAnOption | py-timuToJson/timu_manager.py:179 | every `A`–`E` with a character after it starts or lies inside some option match, in the title or the answer alike |
| Extractor.NoLetterOutsideOptions | py-timuToJson/timu_manager.py:179 | before the first option and between options there is no option letter followed by a character |
| Extractor.LetterKeyAnswer | py-timuToJson/timu_manager.py:183-198 | tier (a): the answer is the whole run of option letters at the leftmost `答案：<letter>`, never empty, and the explanation is the `解析` text |
| Extractor.ExplainedAnswer | py-timuToJson/timu_manager.py:186-191 | tier (b): the answer is the stripped text from the first answer marker to the nearest `\n解析`, and the explanation is the `解析` text |
| Extractor.ToEndAnswer | py-timuToJson/timu_manager.py:192-194 | tier (c): the answer is the stripped rest after the first answer marker, and the explanation is empty |
| Extractor.NoAnswerText | py-timuToJson/timu_manager.py:192-194 | without an answer marker that has text after it, answer and explanation are both empty |
| Extractor.NoAnswerMarker | py-timuToJson/timu_manager.py:183-194 | a block without `答案` and a colon has an empty answer and explanation |
| Store.Report | py-timuToJson/timu_manager.py:219-225 | what an import reports: the question count of a finished run, or the error that stopped it with no count; the batch reports the same way at lines 373-379; `Store.StoreAllReport` relates it to the text import |
| Store.QuestionRecord | py-timuToJson/timu_manager.py:205-207 | the inserted row of a parsed question: its title, its options serialised as a list, its answer and explanation, the file name as source and the import's time |
| Store.BlockRecord | py-timuToJson/timu_manager.py:174-207 | the row of one question block: the block parsed by `Extractor.ParseBlock`, then turned into a row by `Store.QuestionRecord` |
| Store.BlockRecords | py-timuToJson/timu_manager.py:173-207 | one row per question block |
| Store.TxtRecords | py-timuToJson/timu_manager.py:165-207 | one row per block of the normalised text |
| Store.StoreOne | py-timuToJson/timu_manager.py:201-217 | one question: stored under the first drawn id if it is free, else under a second drawn id if that is free, else the import stops with a duplicate-id error; properties in `Store.FreshStep` and `Store.StoreAllAccounts` |
| Store.StoreAll | py-timuToJson/timu_manager.py:173-217 | the questions inserted one after the other, each a `Store.StoreOne` step; properties in the `Store.StoreAll...` lemmas |
| Store.StoreAllSnoc | py-timuToJson/timu_manager.py:173-217 | inserting one more question is one more insertion step |
| Store.StoreAllStaysAborted | py-timuToJson/timu_manager.py:223-225 | once an insertion has failed, the remaining questions are not inserted |
| Store.StoreAllOnlyAdds | py-timuToJson/timu_manager.py:204-217 | the text import never changes or removes an existing row |
| Store.StoreAllAccounts | py-timuToJson/timu_manager.py:201-217 | a finished import has counted every question, added one row for each and drawn between one and two ids per question; a stopped one has added fewer rows than there are questions |
| Store.StoreAllFreshIds | py-timuToJson/timu_manager.py:201-209 | with distinct ids that are not yet taken, question `i` is stored under the `i`-th drawn id, nothing else is added and no row changes |
| Store.FreshStep | py-timuToJson/timu_manager.py:204-209 | with a fresh id the first insert attempt succeeds |
| Store.StoreAllReport | py-timuToJson/timu_manager.py:219-225 | a finished insertion reports the number of questions; a stopped one reports its error |
| Store.TextImportAccounts | py-timuToJson/timu_manager.py:165-225 | a finished text import reports exactly as many questions as the normalised text has numbered blocks, and the table has grown by that many rows |
| Store.ItemId | py-timuToJson/timu_manager.py:242 | the item's own id, else the id drawn for it; a draw is used for every item, because the default of `item.get` is evaluated first |
| Store.OptionColumnOf | py-timuToJson/timu_manager.py:245 | a missing `option` is the empty list, a list is serialised, any other value is stored as it is |
| Store.ItemRecord | py-timuToJson/timu_manager.py:245-253 | the row of an item: its fields, with missing texts read as empty, the file name as source and the given creation time |
| Store.UpsertAll | py-timuToJson/timu_manager.py:240-262 | each item inserted, or written over the existing row of its id except for the creation time; properties in the `Store.UpsertAll...` lemmas |
| Store.UpsertAllLastWins | py-timuToJson/timu_manager.py:240-262 | the last item carrying an id decides that row's fields; the row keeps its creation time if it existed before, and otherwise gets the import's time |
| Store.UpsertAllKeepsRows | py-timuToJson/timu_manager.py:255-261 | the JSON import removes no row and never changes a creation time |
| Store.UpsertAllNewRowTime | py-timuToJson/timu_manager.py:248-253 | a row the JSON import created carries the import's time |
| Store.UpsertAllUntouched | py-timuToJson/timu_manager.py:240-262 | a row that no item names is unchanged, and no row appears that no item names |
| Store.InsertNew | py-timuToJson/timu_manager.py:354-371 | the insert-only import counts exactly the rows it adds, never more than its items |
| Store.InsertNewSnoc | py-timuToJson/timu_manager.py:354-371 | one more item is inserted if its id is new and skipped otherwise |
| Store.InsertNewOnlyAdds | py-timuToJson/timu_manager.py:369-371 | an existing row is never changed by the insert-only import |
| Store.InsertNewKeys | py-timuToJson/timu_manager.py:354-371 | an id is in the table afterwards exactly when it was before or some item carries it |
| Store.InsertNewFirstWins | py-timuToJson/timu_manager.py:362-371 | the first item with a new id decides that row; later items with the same id are skipped |
| Store.LastDot | py-timuToJson/timu_manager.py:286 | the position of the last `.`, or none when there is no `.` |
| Store.Extension | py-timuToJson/timu_manager.py:286 | `splitext`: the suffix from the last `.`, provided some non-dot comes before it; otherwise empty |
| Store.AsciiLower | py-timuToJson/timu_manager.py:286 | same length; ASCII capitals become lower case and nothing else changes |
| Store.Kind | py-timuToJson/timu_manager.py:283-288 | the lower-cased extension picks the text import for `.txt`, the JSON import for `.json`, and skipping otherwise; `Store.Kind...` lemmas show the cases |
| Store.ImportText | py-timuToJson/timu_manager.py:294-348 | the batch's text branch: the file's normalised, segmented questions inserted as in the text import (`Store.StoreAll`), with the file name as source |
| Store.ImportJson | py-timuToJson/timu_manager.py:349-371 | the batch's JSON branch: the items inserted when their id is new (`Store.InsertNew`), one draw used per item, and only inserted items added to the total |
| Store.ImportEntry | py-timuToJson/timu_manager.py:285-371 | one folder entry: skipped when unsupported, the batch stopped when it cannot be read or decoded, otherwise its text or JSON import |
| Store.BatchAll | py-timuToJson/timu_manager.py:273-379 | the entries in listing order inside one error handler, each a `Store.ImportEntry` step; properties in the `Store.Batch...` lemmas |
| Store.BatchOnlyAdds | py-timuToJson/timu_manager.py:273-379 | the batch import never changes or removes an existing row, whether it finishes or stops |
| Store.BatchSnoc | py-timuToJson/timu_manager.py:285-371 | importing one more folder entry is one more step |
| Store.BatchStaysAborted | py-timuToJson/timu_manager.py:377-379 | once the batch has stopped, the remaining entries are not imported |
| Store.BatchUnreadableStops | py-timuToJson/timu_manager.py:296-297 | a supported file that cannot be read stops the whole batch at that entry |
| Store.BatchSkipsUnsupported | py-timuToJson/timu_manager.py:285-288 | entries without a supported extension change nothing |
| Store.KindIgnoresCase | py-timuToJson/timu_manager.py:286-287 | `paper.TXT` is imported as text |
| Store.KindUsesLastExtension | py-timuToJson/timu_manager.py:286-287 | `bank.v2.json` is imported as JSON |
| Store.KindOtherExtension | py-timuToJson/timu_manager.py:283-288 | `notes.md` is skipped |
| Store.KindDotFile | py-timuToJson/timu_manager.py:286-288 | `.json` has no extension and is skipped |
| Store.QuestionBank.constructor | py-timuToJson/timu_manager.py:17-33 | the bank starts with the given table |
| Store.QuestionBank.StoreQuestions | py-timuToJson/timu_manager.py:173-217 | the insertion loop leaves exactly the table and run state of the reference insertion of the blocks' rows |
| Store.QuestionBank.ImportFromTxt | py-timuToJson/timu_manager.py:154-225 | the text import leaves the reference table and reports its count or its error |
| Store.QuestionBank.ImportFromJson | py-timuToJson/timu_manager.py:239-262 | the JSON import leaves the reference upsert table and counts every item |
| Store.QuestionBank.InsertNewItems | py-timuToJson/timu_manager.py:354-371 | the insert-only loop leaves the reference table and counts the rows it inserted |
| Store.QuestionBank.ImportTextFile | py-timuToJson/timu_manager.py:294-348 | the batch text branch leaves exactly the run `Store.ImportText` gives from the current run |
| Store.QuestionBank.ImportJsonFile | py-timuToJson/timu_manager.py:349-371 | the batch JSON branch leaves exactly the run `Store.ImportJson` gives from the current table, count and draw position |
| Store.QuestionBank.ImportOneEntry | py-timuToJson/timu_manager.py:285-371 | one folder entry is handled as the reference step: skipped, imported, or the batch stopped |
| Store.QuestionBank.BatchImportFromFolder | py-timuToJson/timu_manager.py:272-379 | the batch loop leaves the reference table and reports its total or the first error |
| Scenarios.PaperMarkers | py-timuToJson/timu_manager.py:168-169 | in `1.a\n 2。b` the numbers are matched at the start and after the indented line break |
| Scenarios.PaperBlocks | py-timuToJson/timu_manager.py:168-173 | `1.a\n 2。b` splits into the blocks `a` and `b` |
| Scenarios.OneLineBlocks | py-timuToJson/timu_manager.py:168-173 | in `1.a 2.b` the second number does not follow a line break, so there is one block, `a 2.b` |
| Scenarios.KeyedSpans | py-timuToJson/timu_manager.py:179 | in `Q\nA.x\n答案：AB` the option matches are `A.x` and the `AB` of the key |
| Scenarios.KeyedOptions | py-timuToJson/timu_manager.py:179-180 | that block's options are `x` and `B` |
| Scenarios.KeyedTitle | py-timuToJson/timu_manager.py:175-176 | that block's title is `Q` |
| Scenarios.KeyedAnswer | py-timuToJson/timu_manager.py:183-198 | that block's answer is `AB` and its explanation is empty |
| Scenarios.KeyedBlock | py-timuToJson/timu_manager.py:174-198 | that block parses to title `Q`, options `x`, `B`, answer `AB`, no explanation |
| Scenarios.ExplainedFields | py-timuToJson/timu_manager.py:186-191 | `答案：n\n解析：w` has answer `n` and explanation `w` |

## Left out

- The Tk user interface is not modelled: dialogs, status line, message boxes, list refresh, and the export, search, edit and delete commands.
- SQLite is not modelled: the table is a map from id to row. `commit` is not modelled. When an import stops, the rows it inserted stay in the connection without being committed or rolled back; the model keeps them in `table`.
- The text of a file is taken as `f.read()` returns it in text mode: line ends `\r\n` and `\r` already read as `\n`. The encoding is `UTF-8`, not `utf-8-sig`, so a byte-order mark is kept as the character U+FEFF. A file that starts with it has no `^\d` match at position 0, and its first question falls into the dropped preamble.
- File and folder access is not modelled. The batch import receives the folder listing as a sequence of entries in listing order, each with its contents or `None` when it cannot be read. The text and JSON imports receive the contents and the source name (the file's base name) directly.
- Store.QuestionBank.ImportFromJson: receives the items already decoded. A file that is not JSON, or whose data is not a list of objects, makes the source stop with an error, possibly after inserting earlier items; this is not modelled.
- Store.ImportEntry: a JSON file in the batch either decodes to a list of objects or stops the batch before any of its items is inserted. The source can also stop midway when a later element of the list is not an object; that is not modelled.
- JSON values are taken as strings. A JSON `null` or number for `id`, `title`, `answer` or `analysis`, or `null` for `option`, is not modelled. An `option` value that is not a list is kept as the text it is stored as (`Verbatim`). A list is kept as the list itself (`Serialized`) rather than as its `json.dumps` text.
- Ids are elements of the stream `draw`. Their form (the minute of the clock followed by a random number) is not modelled, only whether they collide.
- The clock is one parameter `now` per import. The source reads the clock, to the second, for every row, so rows of one import can have different creation times. Only the generated id uses the clock at minute resolution.
- `\d` in the numbering pattern is modelled as the ASCII digits. Python also matches other Unicode decimal digits there.
- Python's lazy and greedy matching is modelled by position functions that were proved equal to the pattern where backtracking could matter (`Segmenter.MarkerAtIsPattern`). The option and answer patterns are modelled directly by their leftmost-match reading, without a separate regular-expression semantics.
