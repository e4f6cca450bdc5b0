# speechtexttomedical — a Dafny model of its core

This project models the core of *speechtexttomedical*. That application turns
an ophthalmologist's dictation into a corrected report and looks up the Czech
statutes that bear on a question. The model covers three parts.

- **The dictation pipeline** (`backend/stt/services.py`, module `SttServices`).
  `format_prompt` wraps the transcript in a two-message chat prompt.
  `parse_output` turns the language model's JSON reply into the report: the
  corrected text, a `Doporučení:` header and one `• ` bullet per
  recommendation. `run_pipeline` chains the two around the model call. Each
  way a modelled reply can make `parse_output` raise is a `ParseError`.
- **Building the statute collection**
  (`backend/rag/utils/open_data_to_mongo.py`, module `OpenDataToMongo`).
  - `parse_laws` reads the pasted law list, one line at a time. It skips
    blank lines and the `Číslo` column-header rows, and tracks the current
    category. It turns every line matched by
    `^(\d+)/(\d+)\s+Sb[.]?\s+(.*?)(?:\s+(\d{2}[.]\d{2}[.]\d{4}))?$` into a
    `Law`.
  - The regular expression is written out as a recognizer. `Recognize` is
    proved to find exactly the match positions that `Matches` describes.
  - Inside `get_law_details`, the fragment loop groups the fragments of one
    page of the e-Sbírka API into sections (`Paragraf`). A `Paragraf`
    fragment opens a section; its number is the first run of digits in the
    fragment's markup. Every other fragment adds its text, with tags removed,
    to the open section.
- **Seeding the vector store** (`backend/rag/utils/seed_qdrant.py`, module
  `SeedQdrant`).
  - `main` walks every section of every statute and skips blank ones. It
    gives each kept section the next point id, and embeds and uploads the
    kept sections in batches of 100, then any remainder as a shorter last
    batch.
  - If the embedding service returns the wrong number of vectors, the batch
    is dropped, but its ids stay used.
  - With no statutes, or an empty sample embedding, nothing is uploaded.

The records of `backend/rag/models/types.py` are in module `Types`. The parts
of Python's `str` that the code relies on are in `PyStr`: `isspace` (which is
also what `\s` matches), `strip`, `startswith`, one-character `split` and
`join`. `Wrappers` holds `Option` and `Result`.

The three loops (the line loop of `parse_laws`, the fragment loop and the
batching loop) are `for`/`while` loops in Dafny methods (`ParseLaws`,
`GroupPage`, `Seed` with `SeedLaw` and `SeedSection`). Each is proved equal
to a recursive specification function (`LawsOf`, `Page`, `Seeding`), and the
lemmas state what those functions guarantee.

One behaviour of the fragment loop is modelled as written. A `Paragraf`
fragment with no digit saves the open section but does not close it, so the
same section is saved again later (`DigitlessOpeningRepeats`).

## Model

| member | source | states |
|---|---|---|
| `SttServices.FormatPrompt` | backend/stt/services.py:24-74 | two messages, system then user; the system message is the fixed instructions; the user message is the fixed Czech request followed by the transcript unchanged |
| `SttServices.TranscriptOf` | backend/stt/services.py:70-73 | reads the transcript back out of a prompt of that shape: whatever follows the fixed request in the user message, or nothing when the prompt has another shape |
| `SttServices.TranscriptOfPrompt` | backend/stt/services.py:70-73 | the transcript can be read back out of the prompt built from it |
| `SttServices.FormatPromptInjective` | backend/stt/services.py:70-73 | two transcripts give the same prompt if and only if they are equal |
| `SttServices.Bullets` | backend/stt/services.py:93 | one bullet line per recommendation, in order: `• ` followed by the recommendation |
| `SttServices.ParseOutput` | backend/stt/services.py:87-96 | undecodable JSON raises; a reply that is not an object raises; a missing `recommendations` raises; a missing `text` with recommendations raises. It succeeds if and only if the reply is an object with recommendations and either they are empty or the text is present. An empty list returns the text as it is (even `None`). Otherwise the report is the text, the header and the bullets, joined by newlines |
| `SttServices.ReportLines` | backend/stt/services.py:93-94 | with single-line recommendations, the report's lines are the text's lines, then the header, then one bullet per recommendation, none dropped or merged |
| `SttServices.OneRecommendation` | backend/stt/services.py:93-94 | one recommendation gives `text\nDoporučení:\n• rec` |
| `SttServices.ReportWithRecommendation` | backend/stt/services.py:99-102 | a concrete reply goes through the whole pipeline to the concrete report |
| `SttServices.RunPipeline` | backend/stt/services.py:99-102 | the result is `parse_output` of the model's reply to the prompt built from the transcript, with one model call |
| `SttServices.NoFallbackToTranscript` | backend/stt/services.py:88 | an undecodable reply makes the pipeline fail; the raw transcript is never returned instead |
| `Types.NewLaw` | backend/rag/models/types.py:9-16 | a `Law` built from name, number and year has no category, date or URL, and no sections |
| `Types.ValidateQuery` | backend/rag/models/types.py:21-25 | a query is refused if and only if it is all whitespace, with the fixed message; an accepted query is kept unchanged, not trimmed |
| `PyStr.IsSpace` | backend/rag/utils/open_data_to_mongo.py:42 | `str.isspace` on one character, which is also what `\s` matches: the code points of the ten ranges Python treats as whitespace |
| `PyStr.Strip` | backend/rag/utils/open_data_to_mongo.py:40-45 | `strip()`: removes the leading and trailing whitespace; the result is no longer than the input and starts and ends with no whitespace |
| `PyStr.Split` | backend/rag/utils/open_data_to_mongo.py:40 | `split(sep)` on one character: at least one part, none holding the separator |
| `PyStr.Join` | backend/stt/services.py:93 | `sep.join(parts)`: the parts with the separator between each two; `JoinSplit` and `SplitJoin` relate it to `Split` |
| `PyStr.StripEmptyIff` | backend/rag/models/types.py:23 | `strip()` is empty if and only if every character is whitespace |
| `PyStr.JoinSplit` | backend/rag/utils/open_data_to_mongo.py:40 | splitting on a character and joining with it gives the string back |
| `PyStr.SplitJoin` | backend/stt/services.py:93 | joining parts that do not contain the separator and splitting again gives the parts back |
| `OpenDataToMongo.Matches` | backend/rag/utils/open_data_to_mongo.py:41-43 | the reading of the pattern on a line without `\n`, part by part: the spans of `(\d+)/(\d+)`, `\s+Sb[.]?\s+`, the lazy name and the optional date tail; `RecognizeIff` proves the recognizer finds exactly these |
| `OpenDataToMongo.DigitsEnd` | backend/rag/utils/open_data_to_mongo.py:42 | `\d+` is greedy: the run ends at the first non-digit |
| `OpenDataToMongo.SpacesEnd` | backend/rag/utils/open_data_to_mongo.py:42 | `\s+` is greedy: the run ends at the first non-whitespace character |
| `OpenDataToMongo.NameEnd` | backend/rag/utils/open_data_to_mongo.py:42 | the lazy `(.*?)` stops at the first position after which only whitespace and a date remain, or at the end |
| `OpenDataToMongo.Recognize` | backend/rag/utils/open_data_to_mongo.py:41-43 | the positions found lie inside the line and are in order |
| `OpenDataToMongo.RecognizeSound` | backend/rag/utils/open_data_to_mongo.py:41-43 | every position set `Recognize` reports is a match of the pattern |
| `OpenDataToMongo.RecognizeComplete` | backend/rag/utils/open_data_to_mongo.py:41-43 | every match of the pattern is found |
| `OpenDataToMongo.RecognizeIff` | backend/rag/utils/open_data_to_mongo.py:41-56 | `Recognize` reports a position set if and only if the pattern matches the line with those positions |
| `OpenDataToMongo.GroupsOf` | backend/rag/utils/open_data_to_mongo.py:58 | `match.groups()`: the id, the year, the name and the date (or `None`) cut out of the line at the match's spans |
| `OpenDataToMongo.GroupsOfMatch` | backend/rag/utils/open_data_to_mongo.py:58 | the groups of a match are a digit run, a digit run, a name, and an optional `dd.mm.yyyy` date |
| `OpenDataToMongo.StripNumber` | backend/rag/utils/open_data_to_mongo.py:61-62 | `strip()` leaves a digit run unchanged |
| `OpenDataToMongo.StripDate` | backend/rag/utils/open_data_to_mongo.py:63 | `strip()` leaves a date unchanged |
| `OpenDataToMongo.LawOf` | backend/rag/utils/open_data_to_mongo.py:58-65 | the `Law` built from a match is well formed and carries the current category |
| `OpenDataToMongo.Classify` | backend/rag/utils/open_data_to_mongo.py:45-58 | the checks of the loop body in their order: blank, column header, category name, law line, anything else; `ClassifyBlank`, `ClassifyColumnHeader`, `ClassifyHeader` and `ClassifyLaw` characterise each outcome |
| `OpenDataToMongo.ClassifyBlank` | backend/rag/utils/open_data_to_mongo.py:45-47 | a line is skipped as blank if and only if it is all whitespace |
| `OpenDataToMongo.ClassifyColumnHeader` | backend/rag/utils/open_data_to_mongo.py:48-50 | a line is skipped as a column header if and only if, stripped, it starts with `Číslo` |
| `OpenDataToMongo.CategoryStart` | backend/rag/utils/open_data_to_mongo.py:29-52 | no category name starts like the column header or with a digit |
| `OpenDataToMongo.ClassifyHeader` | backend/rag/utils/open_data_to_mongo.py:52-54 | a line sets the category if and only if, stripped, it is one of the nine names, and then to that name |
| `OpenDataToMongo.ClassifyLaw` | backend/rag/utils/open_data_to_mongo.py:56-58 | a line is a law line if and only if the stripped line matches the pattern, and it then carries the match's groups |
| `OpenDataToMongo.Kinds` | backend/rag/utils/open_data_to_mongo.py:44 | one classification per line, in order |
| `OpenDataToMongo.LawsOf` | backend/rag/utils/open_data_to_mongo.py:44-67 | at most one law per line |
| `OpenDataToMongo.CategoryAfter` | backend/rag/utils/open_data_to_mongo.py:52-54 | the current category once some lines are read: the last category name among them, or the one before them; `OneLine` and `NoHeaderKeepsCategory` state it |
| `OpenDataToMongo.LawsOfAppend` | backend/rag/utils/open_data_to_mongo.py:44-66 | parsing two blocks of lines is parsing the first, then the second under the category left by the first |
| `OpenDataToMongo.OneLine` | backend/rag/utils/open_data_to_mongo.py:44-66 | a line adds one law exactly when the pattern matches it, and changes the category exactly when it is a category name |
| `OpenDataToMongo.NoHeaderKeepsCategory` | backend/rag/utils/open_data_to_mongo.py:28-54 | lines without a header keep the category; laws before the first header have none |
| `OpenDataToMongo.KindsWellClassified` | backend/rag/utils/open_data_to_mongo.py:44-58 | every law line holds well-formed groups and every header line one of the nine names |
| `OpenDataToMongo.LawsOfListed` | backend/rag/utils/open_data_to_mongo.py:52-66 | every law parsed is well formed and its category is `None` or one of the nine names |
| `OpenDataToMongo.ParsedLawsListed` | backend/rag/utils/open_data_to_mongo.py:26-67 | the same, for the whole text |
| `OpenDataToMongo.UnlistedHeadingIgnored` | backend/rag/utils/open_data_to_mongo.py:270 | the line `ÚSTAVA ČR` is neither a header nor a law, so the category stays `ÚSTAVNÍ PRÁVO` |
| `OpenDataToMongo.ColumnHeaderRowSkipped` | backend/rag/utils/open_data_to_mongo.py:205 | the column-header row of the list is skipped |
| `OpenDataToMongo.TrailingTextKeptInName` | backend/rag/utils/open_data_to_mongo.py:252 | a row whose date is followed by `)` has no date; the tab and the date stay in the name |
| `OpenDataToMongo.ClassifyMatched` | backend/rag/utils/open_data_to_mongo.py:45-58 | a stripped line that the pattern matches is a law line with that match's groups |
| `OpenDataToMongo.ListRowLayout` | backend/rag/utils/open_data_to_mongo.py:195-273 | a list row `id/year Sb.<TAB>name[<TAB>date]` has its parts at the expected positions |
| `OpenDataToMongo.ListRowMatches` | backend/rag/utils/open_data_to_mongo.py:195-273 | the pattern matches such a row, and its groups are the id, the year, the name and the date |
| `OpenDataToMongo.LayoutMatches` | backend/rag/utils/open_data_to_mongo.py:42 | any line with that layout matches, with those groups |
| `OpenDataToMongo.ListRowParses` | backend/rag/utils/open_data_to_mongo.py:195-273 | every row written in the list's layout parses back to its id, year, name and date, with or without a date |
| `OpenDataToMongo.ParseLaws` | backend/rag/utils/open_data_to_mongo.py:26-67 | the loop's laws are the specification `LawsOf` over the lines of the stripped text, starting with no category |
| `OpenDataToMongo.NextClose` | backend/rag/utils/open_data_to_mongo.py:111 | the first `>` at or after a position, or the end |
| `OpenDataToMongo.TagLength` | backend/rag/utils/open_data_to_mongo.py:111 | a tag runs from `<` to the first `>`, with at least one character between them |
| `OpenDataToMongo.StripTags` | backend/rag/utils/open_data_to_mongo.py:111-152 | `re.sub(r'<[^>]+>', '', x)`: scans left to right and deletes each tag it meets; the result is never longer than the input, and the lemmas below prove no tag survives and a second pass changes nothing |
| `OpenDataToMongo.StripTagsChars` | backend/rag/utils/open_data_to_mongo.py:152 | removing tags only deletes characters |
| `OpenDataToMongo.TagFreeCons` | backend/rag/utils/open_data_to_mongo.py:111 | a string holds no tag if and only if its head starts none and its tail holds none |
| `OpenDataToMongo.StripTagsTagFree` | backend/rag/utils/open_data_to_mongo.py:152 | no tag is left once the tags are removed |
| `OpenDataToMongo.StripTagsOfTagFree` | backend/rag/utils/open_data_to_mongo.py:152 | text without tags is left unchanged |
| `OpenDataToMongo.StripTagsIdempotent` | backend/rag/utils/open_data_to_mongo.py:152 | removing tags twice is the same as removing them once |
| `OpenDataToMongo.EmptyBracketsKept` | backend/rag/utils/open_data_to_mongo.py:111 | `<>` is not a tag and is kept |
| `OpenDataToMongo.FirstDigit` | backend/rag/utils/open_data_to_mongo.py:144 | the first digit at or after a position, or the end |
| `OpenDataToMongo.FirstNumber` | backend/rag/utils/open_data_to_mongo.py:144-148 | there is no number if and only if the markup has no digit; a number found is a digit run |
| `OpenDataToMongo.FirstNumberAt` | backend/rag/utils/open_data_to_mongo.py:144-148 | the number found is the leftmost digit run, taken whole |
| `OpenDataToMongo.FirstDigitUnique` | backend/rag/utils/open_data_to_mongo.py:144 | a digit with none before it is the one found |
| `OpenDataToMongo.Closed` | backend/rag/utils/open_data_to_mongo.py:137-142 | a new opening saves at most one section |
| `OpenDataToMongo.PageFrom` | backend/rag/utils/open_data_to_mongo.py:132-162 | what the fragment loop still appends from a given fragment on, with the open section's number and text: an opening saves the open section; a text fragment extends it; a `null` xhtml ends the page; the end of the page saves a non-blank open section |
| `OpenDataToMongo.Page` | backend/rag/utils/open_data_to_mongo.py:129-160 | the sections of one page: the loop started with no open section and empty text |
| `OpenDataToMongo.GroupPage` | backend/rag/utils/open_data_to_mongo.py:129-162 | the loop appends exactly `Page(fragments)` to the statute's sections and changes nothing else in the statute |
| `OpenDataToMongo.PageFromNumbered` | backend/rag/utils/open_data_to_mongo.py:136-160 | from any point of the loop, every section saved has the number of some opening fragment and stripped text |
| `OpenDataToMongo.PageNumbered` | backend/rag/utils/open_data_to_mongo.py:136-160 | every section of a page has the number of one of its opening fragments; that number is a digit run; its text is stripped |
| `OpenDataToMongo.PageFromSize` | backend/rag/utils/open_data_to_mongo.py:137-160 | no more sections than opening fragments, plus one for a section already open |
| `OpenDataToMongo.NoNumberIgnoresText` | backend/rag/utils/open_data_to_mongo.py:137-156 | while no section is open, the collected text has no effect |
| `OpenDataToMongo.LeadingTextDiscarded` | backend/rag/utils/open_data_to_mongo.py:150-156 | text fragments before the first opening fragment are discarded |
| `OpenDataToMongo.TextRun` | backend/rag/utils/open_data_to_mongo.py:150-153 | a run of text fragments only adds their text, tags removed and each followed by a newline, to the open section |
| `OpenDataToMongo.SectionOpens` | backend/rag/utils/open_data_to_mongo.py:136-149 | an opening fragment with a number saves the open section and starts an empty one under that number |
| `OpenDataToMongo.OpenSectionSaved` | backend/rag/utils/open_data_to_mongo.py:137-160 | the next opening saves the open section even when it is blank; at the end of the page it is saved only when it is not blank |
| `OpenDataToMongo.AfterNullIgnored` | backend/rag/utils/open_data_to_mongo.py:134-162 | a `null` xhtml ends the page: the fragments after it are never read |
| `OpenDataToMongo.DigitlessOpeningRepeats` | backend/rag/utils/open_data_to_mongo.py:145-160 | an opening fragment without a digit saves the open section and leaves it open, so it is saved twice |
| `SeedQdrant.Payload` | backend/rag/utils/seed_qdrant.py:60-69 | the payload carries the statute's metadata and the section's number and text, field by field |
| `SeedQdrant.Seed` | backend/rag/utils/seed_qdrant.py:12-115 | the batches uploaded are `Seeding`: nothing when there are no statutes or the sample embedding is empty, otherwise every kept section in batches |
| `SeedQdrant.SeedLaw` | backend/rag/utils/seed_qdrant.py:49-96 | one statute adds its kept sections to the pending lists, keeps them consistent (text, id and payload at each index) and flushes every full batch |
| `SeedQdrant.SeedSection` | backend/rag/utils/seed_qdrant.py:50-96 | one section is appended unless it is blank, and a full batch is flushed and the lists reset |
| `SeedQdrant.Blank` | backend/rag/utils/seed_qdrant.py:51-53 | a section is skipped when its text is empty after `strip()` |
| `SeedQdrant.KeptIn` | backend/rag/utils/seed_qdrant.py:50-70 | the payloads of one statute's non-blank sections, in order; `KeptInSound` and `KeptInComplete` characterise it |
| `SeedQdrant.Kept` | backend/rag/utils/seed_qdrant.py:49-70 | the payloads of every non-blank section, statute by statute; `KeptSound` and `KeptComplete` characterise it |
| `SeedQdrant.Flush` | backend/rag/utils/seed_qdrant.py:75-115 | one flush: the pending sections embedded and zipped with their ids and payloads into one batch, or nothing when the vector count differs |
| `SeedQdrant.Batches` | backend/rag/utils/seed_qdrant.py:74-115 | the uploads for a list of kept sections: full batches of 100 cut off in order, then the rest, ids continuing across flushes |
| `SeedQdrant.Seeding` | backend/rag/utils/seed_qdrant.py:17-115 | what `main` uploads: nothing without statutes or with an empty sample embedding, otherwise the batches of every kept section from id 0; `Seed` is proved to upload exactly this |
| `SeedQdrant.KeptStep` | backend/rag/utils/seed_qdrant.py:49-50 | one more statute adds the kept sections of that statute |
| `SeedQdrant.KeptAppend` | backend/rag/utils/seed_qdrant.py:49-53 | the kept sections of two lists of statutes are those of the first, then those of the second |
| `SeedQdrant.KeptInSound` | backend/rag/utils/seed_qdrant.py:50-53 | every kept payload comes from a non-blank section of the statute |
| `SeedQdrant.KeptInComplete` | backend/rag/utils/seed_qdrant.py:50-53 | every non-blank section of the statute is kept |
| `SeedQdrant.KeptSound` | backend/rag/utils/seed_qdrant.py:49-70 | every kept text is not all whitespace, and every kept payload is that of some section of some statute |
| `SeedQdrant.KeptComplete` | backend/rag/utils/seed_qdrant.py:49-70 | every section whose text is not all whitespace is kept |
| `SeedQdrant.BatchesRest` | backend/rag/utils/seed_qdrant.py:74-115 | after whole batches, the last pending sections are flushed as one batch |
| `SeedQdrant.BatchesAppend` | backend/rag/utils/seed_qdrant.py:74-96 | batching whole batches then more is batching each part, with the ids continuing |
| `SeedQdrant.PointTexts` | backend/rag/utils/seed_qdrant.py:56-85 | the texts of a batch are the section texts of its payloads, in order |
| `SeedQdrant.FlushNumbered` | backend/rag/utils/seed_qdrant.py:75-86 | a flush uploads one batch of all pending sections or nothing; ids count up from the base and each payload is the matching section |
| `SeedQdrant.FlushEmbedded` | backend/rag/utils/seed_qdrant.py:75-86 | the vector of each point is the one the embedding service gave for its text |
| `SeedQdrant.BatchesNumbered` | backend/rag/utils/seed_qdrant.py:74-115 | every uploaded point carries a fresh id from the base and the payload with that id; ids go up within and across batches |
| `SeedQdrant.BatchesEmbedded` | backend/rag/utils/seed_qdrant.py:75-110 | every point's vector is the embedding of its own text |
| `SeedQdrant.BatchesSized` | backend/rag/utils/seed_qdrant.py:44-99 | every batch holds 1 to 100 points, and all but the last hold exactly 100 |
| `SeedQdrant.FlattenAppend` | backend/rag/utils/seed_qdrant.py:88-92 | the points of two runs of batches are those of the first, then those of the second |
| `SeedQdrant.BatchesComplete` | backend/rag/utils/seed_qdrant.py:57-86 | when the service always answers one vector per text, every section is uploaded once, in order, as point `base + k` |
| `SeedQdrant.SeedingShape` | backend/rag/utils/seed_qdrant.py:43-115 | what `main` uploads has fresh ascending ids from 0, matching payloads, the matching vectors and batches of at most 100 |
| `SeedQdrant.SeedingComplete` | backend/rag/utils/seed_qdrant.py:17-115 | given statutes and a working service, point `k` is the `k`-th kept section, with id `k` |

## Left out

- The speech-to-text call (`transcribe`), the model call (`invoke_llm`) and `json.loads` are foreign code. The first is not part of this model. The other two are parameters of `RunPipeline`, and the decoded reply is `Decoded`.
- `SystemInstructions` is a constant with no value. No behaviour depends on its wording.
- `ParseOutput`: a `recommendations` value that is JSON but not a list of strings (a string, a number, a list of objects) is not modelled. The model covers a missing key and a list of strings.
- `ParseOutput`: a `text` value that is JSON but not a string is not modelled either. With such a value and an empty `recommendations` list, `parse_output` returns that non-string (a `text` of `5` gives `5`); with recommendations, `+` raises a `TypeError`. `Decoded` gives `text` the type `Option<string>`, so the model covers only a string and a missing key.
- `Matches`, `Recognize`, `ClassifyMatched` and `Classify` read the pattern on lines without a `\n`. There, `.` and `$` behave as the model says. On a string that holds a `\n`, the name group would run across it, while Python's `.` does not match a newline and `$` also matches before a final newline. `parse_laws` never meets such a line, because its lines come from `split('\n')` (`Split`'s contract). `ListRowParses` requires a name without `\n` for this reason.
- RunPipeline: exceptions from `invoke_llm` are not modelled. The network call can raise, and a reply whose `message.content` is `None` makes `json.loads` raise a `TypeError` (`services.py:77-88`). Either one ends `run_pipeline` with that exception, and it has no `ParseError`. `invokeLlm` is a total function returning a string.
- Seed: exceptions from `get_embeddings` (which turns any service failure into a `RuntimeError`) and from `qdrant_client.upsert` are not modelled (`seed_qdrant.py:27`, `:75`, `:88`, `:100`, `:111`). `main` catches neither, so either one ends the run at once. The batches already uploaded stay, and nothing later is uploaded. The uploads are then a prefix of the batches that `Seeding` describes. `embed` is a total function, so `Seed` and `Seeding` always run to the last batch; the only failure they model is a wrong vector count.
- The HTTP requests, the page loop, the metadata fetch and the error printing of `get_law_details` are not modelled (`open_data_to_mongo.py:84-127`, `:164`). `GroupPage` models one page's fragment list, given as data.
- MongoDB (`get_mongo_client`, `save_law_to_mongodb`) and the law list inside `main` of `open_data_to_mongo.py` are not modelled. Only sample rows of that list appear, through `ListRowParses`, `UnlistedHeadingIgnored` and `ColumnHeaderRowSkipped`.
- The Qdrant client, the collection check and collection creation (`seed_qdrant.py:34-41`) are not modelled. The uploads are the returned log of batches. An upsert's replacement of an existing point with the same id is not modelled.
- The embedding values are opaque: `embed` is a function, so two calls with the same texts give the same vectors. Only the number of vectors is inspected, as in the code.
- Logging, `print` and `tqdm` are left out.
- `\d` is modelled as the ASCII digits `0`-`9`. Python's `re` also accepts other Unicode decimal digits.
- `\s` and `strip()` use the code points that Python's `str.isspace` accepts, written out as ranges.
- `GroupPage`: the code appends to `law.paragrafy` in place. The model returns the updated `Law`.
- A fragment with no `xhtml` key reads as `Some("")`, and a `null` as `None`. An `xhtml` that is some other JSON type is not modelled.
- `LawOf`: `open_data_to_mongo.py:61-63` strips the number, year and date. That is a no-op on digit runs and dates, so `LawOf` does not apply it. `StripNumber` and `StripDate` prove the no-op.
- `open_data_to_mongo.py:12-23` declares its own `Paragraf` and `Law`; they differ only in defaults. The model uses the records of `types.py` for both.
- `QueryResponse` is only a list of `RelevantDocument`, and nothing in the core reads it. It is not modelled.
