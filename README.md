# AI quiz generator for Moodle: a verified model of its core

The plugin `local_ai_quiz` builds multiple-choice quizzes from course
documents. A teacher uploads primary documents (the material questions must
come from), optionally supporting documents and website URLs, and page
ranges per file. The plugin then does the following:

- extracts the text of each document;
- assembles a labelled context and asks the Gemini model for questions;
- validates the reply;
- lets the teacher preview, edit and delete questions;
- imports the selected questions into a question-bank category.

This project models the deterministic core of that pipeline in Dafny and
proves what each step promises:

- `PhpStrings` holds the PHP string routines the core relies on:
  - `trim`, `empty()`, `explode`/`implode`;
  - integer casts, `round` half away from zero, `escapeshellarg`.
- `QuizData` holds the records passed around: documents with page ranges,
  generated questions, the quiz, difficulty mixes, prompts and errors.
  `Hosts` holds the outside world: shell commands, zip archives, files, the
  HTTP reply and the JSON decoder, all as oracle functions.
- `PdfExtractor` models `pdf_extractor`:
  - the page-range grammar;
  - the `pdftotext` command and its exit and empty-output checks;
  - the parenthesis fallback;
  - the 50-lines-per-page slice;
  - the cached availability probe, as a class.
- `DocumentSources` models the per-format readers of `quiz_generator`:
  - PDF, DOCX, and the PPTX slide loop;
  - the website whitespace normalisation;
  - the extension dispatch.
- `GeminiClient` models the pure parts of `generate_mcqs` and
  `call_gemini_api`:
  - context truncation and the default mixes;
  - the prompt clauses;
  - the HTTP status to error mapping and the two-stage decode.
- `McqValidation` models `validate_mcqs`.
- `QuizGeneration` models the generator object (API key and request
  counter), `generate_mcqs` and `create_quiz`.
- `GenerateRequest` models `generate.php`:
  - the page-range text parser;
  - the website URL filter;
  - the percentage-to-count conversion;
  - the draft-area document lists.
- `GenerateForm` models `generate_form::validation`.
- `QuestionBank` models `question_bank_helper`: `truncate_text`, the
  question object, and the import counting loop.
- `Preview` models the import, edit and delete actions of `preview.php`
  on the stored quiz of one session, as the class `PreviewSession`.

Each loop of the source is a method with its loop invariants, proved equal
to a specification function, and the properties are lemmas about those
functions.

## Model

| member | source | states |
|---|---|---|
| PdfExtractor.PhpIntCast | src/local/ai_quiz/classes/pdf_extractor.php:181-182 | `(int)` of a digit string is its value when that fits in 64 bits, PHP_INT_MAX when it is larger but still a finite double, and 0 when the double is infinite (from 2^1024 - 2^970 on) |
| PdfExtractor.RangeFrom | src/local/ai_quiz/classes/pdf_extractor.php:180 | a match of `(\d+)\s*-\s*(\d+)$` yields two non-empty digit strings |
| PdfExtractor.RangeFromSplits | src/local/ai_quiz/classes/pdf_extractor.php:180 | any string of digits, spaces, `-`, spaces, digits matches and yields exactly the two digit runs |
| PdfExtractor.RangeOfRendered | src/local/ai_quiz/classes/pdf_extractor.php:180 | a rendered `a sp - sp b` after any prefix matches with groups `a` and `b` |
| PdfExtractor.RangeOfPlain | src/local/ai_quiz/classes/pdf_extractor.php:180 | `a-b` matches with groups `a` and `b` |
| PdfExtractor.RangeFromChars | src/local/ai_quiz/classes/pdf_extractor.php:180 | a matched tail holds only digits, whitespace and `-` |
| PdfExtractor.ParsePageRange | src/local/ai_quiz/classes/pdf_extractor.php:167-190 | null, empty or whitespace-only input gives null; any result satisfies `from >= 1 && to >= from` |
| PdfExtractor.ParsePageRangeRoundTrip | src/local/ai_quiz/classes/pdf_extractor.php:180-186 | for every `1 <= from <= to`, parsing `"{from} - {to}"` with any spaces around `-` gives exactly `{from, to}` |
| PdfExtractor.RenderedRange | src/local/ai_quiz/classes/pdf_extractor.php:173-180 | a rendered range survives `trim` unchanged and matches the pattern |
| PdfExtractor.ParsePlain | src/local/ai_quiz/classes/pdf_extractor.php:180-189 | `a-b` parses to the two casts exactly when they form a valid range, else to null |
| PdfExtractor.PlainTrimmed | src/local/ai_quiz/classes/pdf_extractor.php:173 | `a-b` is unchanged by `trim` |
| PdfExtractor.ZeroStartRefused | src/local/ai_quiz/classes/pdf_extractor.php:184-189 | a range starting at page 0 (any number of zeros) gives null, not an exception |
| PdfExtractor.ZerosValue | src/local/ai_quiz/classes/pdf_extractor.php:181 | a run of zeros is a digit string of value 0 |
| PdfExtractor.HugeEndRefused | src/local/ai_quiz/classes/pdf_extractor.php:181-189 | `1-b` with `b` too large for a double gives null: the end casts to 0, below the start |
| PdfExtractor.ReversedRefused | src/local/ai_quiz/classes/pdf_extractor.php:184-189 | a reversed range `from-to` with `to < from` gives null |
| PdfExtractor.BuildPdftotextCommand | src/local/ai_quiz/classes/pdf_extractor.php:108-117 | builds the command step by step; it starts with `pdftotext -f ` exactly when both bounds are given |
| PdfExtractor.PageFlagsIff | src/local/ai_quiz/classes/pdf_extractor.php:111-115 | the `-f`/`-t` flags appear exactly when both bounds are non-null |
| PdfExtractor.WithFlags | src/local/ai_quiz/classes/pdf_extractor.php:112-114 | with both bounds the command opens with `pdftotext -f ` |
| PdfExtractor.WithoutFlags | src/local/ai_quiz/classes/pdf_extractor.php:112-117 | with a bound missing the command does not open with `pdftotext -f ` |
| PdfExtractor.ExtractWithPdftotext | src/local/ai_quiz/classes/pdf_extractor.php:108-136 | a non-zero exit gives `pdftotext_failed`, otherwise whitespace-only output gives `pdf_empty`, otherwise the output lines joined by newlines |
| PdfExtractor.NextGroup | src/local/ai_quiz/classes/pdf_extractor.php:88 | a lazy `\((.*?)\)` match has no `)` inside and leaves a shorter rest |
| PdfExtractor.ParenGroupsOfGroups | src/local/ai_quiz/classes/pdf_extractor.php:88-89 | groups wrapped in parentheses between paren-free fillers are recovered exactly, in order |
| PdfExtractor.ParenGroupsStep | src/local/ai_quiz/classes/pdf_extractor.php:88 | the first parenthesised group is found first and the scan continues after it |
| PdfExtractor.ExtractAllPages | src/local/ai_quiz/classes/pdf_extractor.php:74-98 | with the tool, a whole-document extraction; without it, the groups joined by spaces, failing with `pdf_extraction_failed` when that is empty |
| PdfExtractor.PageSlice | src/local/ai_quiz/classes/pdf_extractor.php:57-64 | the slice holds the lines with indices in `[(from-1)*50, to*50)`, clipped to the text, so at most `(to-from+1)*50` lines |
| PdfExtractor.ExtractPages | src/local/ai_quiz/classes/pdf_extractor.php:30-66 | text comes only from an existing file, and with both bounds only when `1 <= from <= to`; an existing file with a range starting below 1 or reversed fails with `invalid_page_range` (ExtractPagesCases states each branch) |
| PdfExtractor.ExtractPagesCases | src/local/ai_quiz/classes/pdf_extractor.php:30-66 | a missing file gives `pdf_not_found`; a missing bound delegates to full extraction; `from < 1` or `to < from` gives `invalid_page_range`; a valid range with the tool runs it with the range |
| PdfExtractor.FallbackSlice | src/local/ai_quiz/classes/pdf_extractor.php:53-65 | without the tool, the lines of the result are exactly the full text's lines in the page window, at most `(to-from+1)*50` of them |
| PdfExtractor.PdftotextProbe.constructor | src/local/ai_quiz/classes/pdf_extractor.php:144 | the cache starts empty and no probe has run |
| PdfExtractor.PdftotextProbe.IsAvailable | src/local/ai_quiz/classes/pdf_extractor.php:143-159 | the first call runs `which pdftotext` once and caches whether it exited 0; later calls return the cached value without probing |
| PdfExtractor.ProbeTwice | src/local/ai_quiz/classes/pdf_extractor.php:143-159 | two calls return the same answer, the one from the first host, and probe once |
| DocumentSources.ProcessPdfCommandIsWholeDocument | src/local/ai_quiz/classes/quiz_generator.php:62 | `process_pdf` runs the same command as a whole-document `pdftotext` extraction |
| DocumentSources.ProcessPdf | src/local/ai_quiz/classes/quiz_generator.php:54-69 | succeeds exactly when the command exits 0, and otherwise fails with `pdf_processing_failed` |
| DocumentSources.ProcessPdfAgrees | src/local/ai_quiz/classes/quiz_generator.php:54-69 | wherever the page extractor succeeds on a whole document, `process_pdf` returns the same text |
| DocumentSources.ProcessDocx | src/local/ai_quiz/classes/quiz_generator.php:77-96 | succeeds exactly when the archive opens and holds `word/document.xml`, with that entry's text without tags; otherwise `docx_processing_failed` |
| DocumentSources.SlideTexts | src/local/ai_quiz/classes/quiz_generator.php:112-118 | the slides scanned below `i` give fewer than `i` texts |
| DocumentSources.ProcessPptx | src/local/ai_quiz/classes/quiz_generator.php:104-127 | the loop probes slides 1..49 in order and keeps the text of each one present, joined by newlines; none found or an archive that does not open gives `pptx_processing_failed` |
| DocumentSources.SlideTextsNonEmpty | src/local/ai_quiz/classes/quiz_generator.php:112-118 | some text is collected exactly when some slide below the bound exists |
| DocumentSources.PptxSucceedsIff | src/local/ai_quiz/classes/quiz_generator.php:104-127 | succeeds exactly when the archive opens and one of slides 1..49 exists; at most 49 slides are read |
| DocumentSources.SlideTextsFrame | src/local/ai_quiz/classes/quiz_generator.php:112-118 | the result depends only on slides 1..i-1, so missing or later slides do not matter |
| DocumentSources.RegexSpaceRun | src/local/ai_quiz/classes/quiz_generator.php:149 | measures a maximal whitespace run for `\s+` |
| DocumentSources.CollapseFrom | src/local/ai_quiz/classes/quiz_generator.php:149 | the collapsed text never holds two spaces in a row or any other whitespace |
| DocumentSources.CollapseWhitespace | src/local/ai_quiz/classes/quiz_generator.php:149 | `preg_replace('/\s+/', ' ')` yields normalised text |
| DocumentSources.CollapseNormalized | src/local/ai_quiz/classes/quiz_generator.php:149 | normalised text is left unchanged by the replacement |
| DocumentSources.CollapseIdempotent | src/local/ai_quiz/classes/quiz_generator.php:149 | collapsing twice is collapsing once |
| DocumentSources.TrimKeepsNormalized | src/local/ai_quiz/classes/quiz_generator.php:151 | trimming normalised text keeps it normalised |
| DocumentSources.ProcessWebsite | src/local/ai_quiz/classes/quiz_generator.php:136-152 | fails with `website_fetch_failed` exactly when the fetch fails, else the trimmed, collapsed text without tags |
| DocumentSources.WebsiteTextNormalized | src/local/ai_quiz/classes/quiz_generator.php:136-152 | website text has single spaces only and no leading or trailing space |
| DocumentSources.NameParts | src/local/ai_quiz/classes/quiz_generator.php:507-508 | a base name has no `/`, an extension no `/` or `.` |
| DocumentSources.ExtensionOfPath | src/local/ai_quiz/classes/quiz_generator.php:507-508 | for `dir/stem.ext`, `basename` is `stem.ext` and the extension is `ext` |
| DocumentSources.BaseNameOf | src/local/ai_quiz/classes/quiz_generator.php:508 | `basename(dir/name)` is `name` for a non-empty name without `/` |
| DocumentSources.LastAfter | src/local/ai_quiz/classes/quiz_generator.php:507-508 | the position after the last separator is found |
| DocumentSources.LastAfterFrom | src/local/ai_quiz/classes/quiz_generator.php:507-508 | the search for the last separator within a prefix |
| DocumentSources.FormatOf | src/local/ai_quiz/classes/quiz_generator.php:507-536 | PDF, DOCX or PPTX exactly when the lower-cased extension is `pdf`, `docx` or `pptx` |
| DocumentSources.ExtractDocument | src/local/ai_quiz/classes/quiz_generator.php:516-537 | no extraction happens exactly when the format is unsupported (the document is skipped) |
| GeminiClient.TruncateContext | src/local/ai_quiz/classes/quiz_generator.php:173-188 | a context within 7,600,000 chars is unchanged; a longer one is its first 5,320,000 chars, the marker, and its last 2,280,000 chars |
| GeminiClient.TruncationKeepsDisjointEnds | src/local/ai_quiz/classes/quiz_generator.php:173-188 | head 5,320,000 and tail 2,280,000 sum to the cap and do not overlap in a truncated context |
| GeminiClient.TruncatedLength | src/local/ai_quiz/classes/quiz_generator.php:173-188 | the result is never longer than the cap plus the marker |
| GeminiClient.QuarterMixTotal | src/local/ai_quiz/classes/quiz_generator.php:164-170 | the `generate_mcqs` default mix sums to n exactly when 4 divides n, and is never more than 2 short |
| GeminiClient.RoundedMix | src/local/ai_quiz/classes/quiz_generator.php:620-629 | the `create_quiz` default mix always sums to n |
| GeminiClient.RoundedMixNonNegative | src/local/ai_quiz/classes/quiz_generator.php:620-629 | for n >= 0 no count of the default mix is negative |
| GeminiClient.SharesFit | src/local/ai_quiz/classes/quiz_generator.php:621-623 | the two rounded shares of n together never exceed n |
| GeminiClient.BuildPrompt | src/local/ai_quiz/classes/quiz_generator.php:211-262 | the scope clause is present exactly when primary-only; the variety clause exactly when a config with count > 0 is given, with single + multiple = n; otherwise all single |
| GeminiClient.Member | src/local/ai_quiz/classes/quiz_generator.php:414 | `isset` on a member never yields null |
| GeminiClient.First | src/local/ai_quiz/classes/quiz_generator.php:414 | `isset` on element 0 never yields null |
| GeminiClient.ResponseTextOfEnvelope | src/local/ai_quiz/classes/quiz_generator.php:414-415 | the text at `candidates[0].content.parts[0].text` is found whatever other parts and candidates follow |
| GeminiClient.ErrorDetail | src/local/ai_quiz/classes/quiz_generator.php:377-383 | no detail when the body does not decode or has no `error`; `error.message` when it is set and truthy, nothing when it is set but falsy; otherwise the re-encoded `error` when that is non-empty; a detail is never empty in PHP's sense |
| GeminiClient.StatusError | src/local/ai_quiz/classes/quiz_generator.php:389-403 | 429 gives the quota error, 401 and 403 the authentication error, 400 the bad-request error, 404 the not-found error, every other status the request-failed error, each exactly for those statuses |
| GeminiClient.StatusErrorKinds | src/local/ai_quiz/classes/quiz_generator.php:389-403 | 429 maps to quota, 401/403 to auth, 400 to bad request, 404 to not found, anything else to request failed; the message ends with the detail when there is one |
| GeminiClient.CallGeminiApi | src/local/ai_quiz/classes/quiz_generator.php:346-424 | every failure is one of the API errors; on status 200 a body that does not decode gives `json_decode_failed`, and any other failure gives `invalid_api_response` (a missing text or an inner decode that fails) |
| GeminiClient.CallSucceedsIff | src/local/ai_quiz/classes/quiz_generator.php:375-423 | succeeds exactly when the status is 200, the envelope decodes, the nested text exists and decodes; the result is that inner decode |
| GeminiClient.NonOkReported | src/local/ai_quiz/classes/quiz_generator.php:375-404 | a non-200 status always fails with the error of its status and the body's detail |
| McqValidation.ValidateMcqs | src/local/ai_quiz/classes/quiz_generator.php:432-485 | the loop returns `["Missing 'questions' key"]` without questions, else the issues of every question in order |
| McqValidation.CheckQuestion | src/local/ai_quiz/classes/quiz_generator.php:439-482 | the loop body yields exactly the field, option and answer issues of one question |
| McqValidation.CheckFields | src/local/ai_quiz/classes/quiz_generator.php:443-449 | one issue per missing required field, in order |
| McqValidation.CheckAnswerKeys | src/local/ai_quiz/classes/quiz_generator.php:468-475 | one issue per array answer element missing from the options, in order |
| McqValidation.NoIssuesIffWellFormed | src/local/ai_quiz/classes/quiz_generator.php:439-482 | a question has no issue exactly when all four fields are set, the option keys are A–D and every answer key is an option |
| McqValidation.FieldsIff | src/local/ai_quiz/classes/quiz_generator.php:443-449 | no field issue exactly when question, options, correct_answer and difficulty are all set |
| McqValidation.OptionsIff | src/local/ai_quiz/classes/quiz_generator.php:451-461 | no option issue exactly when options are absent or keyed A–D in any order |
| McqValidation.AnswerIff | src/local/ai_quiz/classes/quiz_generator.php:464-481 | no answer issue exactly when answer or options are absent, or every answer key is an option |
| McqValidation.AbcdCount | src/local/ai_quiz/classes/quiz_generator.php:452-458 | options keyed A–D number four, so the key check implies the count check |
| McqValidation.MissingFieldIssuesMembers | src/local/ai_quiz/classes/quiz_generator.php:443-449 | an issue is listed exactly for each missing required field |
| McqValidation.AnswerKeyIssuesMembers | src/local/ai_quiz/classes/quiz_generator.php:468-475 | an issue is listed exactly for each missing answer key, as many as are missing |
| McqValidation.ThreeOptionsTwoIssues | src/local/ai_quiz/classes/quiz_generator.php:451-461 | a question with options A, B, C gets both the count issue and the key issue |
| McqValidation.OptionIssuesByKeys | src/local/ai_quiz/classes/quiz_generator.php:456-458 | the option issues depend only on the key set, not on its order or the texts |
| McqValidation.AnswerCheckNeedsBoth | src/local/ai_quiz/classes/quiz_generator.php:464 | without an answer or without options no answer issue is raised |
| McqValidation.IssuesTagged | src/local/ai_quiz/classes/quiz_generator.php:439-482 | every issue carries a question number from 1 to the count, in non-decreasing order |
| McqValidation.AppendTagged | src/local/ai_quiz/classes/quiz_generator.php:439-482 | appending the issues of question k keeps the tags ordered |
| McqValidation.QuestionIssuesTagged | src/local/ai_quiz/classes/quiz_generator.php:440-481 | all issues of one question carry its number |
| QuizGeneration.ReadDocument | src/local/ai_quiz/classes/quiz_generator.php:516-537 | reads a document by its format, through the slide loop for PPTX |
| QuizGeneration.DocumentStep | src/local/ai_quiz/classes/quiz_generator.php:510-543 | yields the labelled block `=== ROLE DOCUMENT: name (pages a-b) ===` exactly when extraction succeeds; failures are swallowed |
| QuizGeneration.CollectDocumentParts | src/local/ai_quiz/classes/quiz_generator.php:503-545 | the loop collects the blocks of all documents that yield one, in input order |
| QuizGeneration.CollectWebsiteParts | src/local/ai_quiz/classes/quiz_generator.php:591-600 | the loop collects the blocks of all fetched websites, in input order |
| QuizGeneration.DocumentPartsMembers | src/local/ai_quiz/classes/quiz_generator.php:503-545 | a block is collected exactly when some document yields it |
| QuizGeneration.DocumentPartsEmpty | src/local/ai_quiz/classes/quiz_generator.php:503-545 | no block is collected exactly when no document yields one |
| QuizGeneration.WebsitePartsMembers | src/local/ai_quiz/classes/quiz_generator.php:591-600 | a website block is collected exactly when some URL is fetched |
| QuizGeneration.AssembleContext | src/local/ai_quiz/classes/quiz_generator.php:608-615 | the appends build the primary header and blocks, then only when supporting blocks exist the 80-`=` divider, the supporting header and blocks |
| QuizGeneration.ContextOf | src/local/ai_quiz/classes/quiz_generator.php:608-615 | the context opens with the primary header, and it is just the primary header and blocks exactly when there are no supporting blocks (ContextLayout gives the tail) |
| QuizGeneration.ContextLayout | src/local/ai_quiz/classes/quiz_generator.php:608-615 | the context opens with the primary material, is only that without supporting blocks, and otherwise ends with divider, header and supporting blocks |
| QuizGeneration.Stamp | src/local/ai_quiz/classes/quiz_generator.php:634-637 | sets `source_type`, `primary_count` and `supporting_count` and keeps the questions and all other metadata |
| QuizGeneration.QuizGenerator.constructor | src/local/ai_quiz/classes/quiz_generator.php:36-41 | stores the key and starts the request counter at 0 |
| QuizGeneration.ChosenKey | src/local/ai_quiz/classes/quiz_generator.php:37 | `$apikey ?? config`: a given key is used as it is, otherwise the configured one; there is no key exactly when neither is set |
| QuizGeneration.QuizGenerator.Create | src/local/ai_quiz/classes/quiz_generator.php:36-46 | the argument key, else the configured one; fails with `no_api_key` exactly when that key is missing or empty |
| QuizGeneration.QuizGenerator.GenerateMcqs | src/local/ai_quiz/classes/quiz_generator.php:163-198 | sends the prompt for the truncated context with the given or quarter mix; the counter rises by one exactly after a call that returns |
| QuizGeneration.QuizGenerator.CreateQuiz | src/local/ai_quiz/classes/quiz_generator.php:498-646 | fails with `no_primary_docs` exactly when no primary block was produced, even if supporting ones were; otherwise calls the model once, primary-only, on the assembled context with the given or rounded mix, and stamps the block counts |
| GenerateRequest.TailHasNoColon | src/local/ai_quiz/generate.php:246 | the tail the pattern accepts after the name holds no colon |
| GenerateRequest.MatchLine | src/local/ai_quiz/generate.php:246 | a match of `^(.+?):\s*(\d+)\s*-\s*(\d+)$` gives a non-empty name and two digit strings |
| GenerateRequest.LazyNameEndsAtColon | src/local/ai_quiz/generate.php:246 | the lazy name group ends at the first colon the rest of the pattern accepts |
| GenerateRequest.ColonAtIsLast | src/local/ai_quiz/generate.php:246 | a colon the rest of the pattern accepts is the last colon on the line |
| GenerateRequest.NoEarlierColon | src/local/ai_quiz/generate.php:246 | no earlier position is also accepted |
| GenerateRequest.Entry | src/local/ai_quiz/generate.php:240-253 | a line contributes an entry only when its range satisfies `from >= 1 && to >= from` |
| GenerateRequest.Entries | src/local/ai_quiz/generate.php:239-254 | one possible entry per line |
| GenerateRequest.FoldSnoc | src/local/ai_quiz/generate.php:252 | storing one more entry overwrites that name's range |
| GenerateRequest.BlankInput | src/local/ai_quiz/generate.php:233-235 | empty or whitespace-only input gives the empty map |
| GenerateRequest.ParsePageRangesInput | src/local/ai_quiz/generate.php:230-257 | the loop over trimmed lines stores, for each name, the range of its last line that matches with a valid range; other lines are skipped |
| GenerateRequest.FoldLastWins | src/local/ai_quiz/generate.php:239-254 | a name is stored exactly when some line stores it, and its range is that of the last such line |
| GenerateRequest.FoldValues | src/local/ai_quiz/generate.php:252 | every stored range comes from some line |
| GenerateRequest.StoredRangesValid | src/local/ai_quiz/generate.php:251-253 | every stored range is valid; invalid ones are dropped without error |
| GenerateRequest.PageRangesInputLastWins | src/local/ai_quiz/generate.php:233-254 | of the input's lines, a name is stored exactly when some line stores it, with the range of the last such line |
| GenerateRequest.LineRoundTrip | src/local/ai_quiz/generate.php:230-254 | a line `name: a - b` with a valid range parses to exactly `{name: {a, b}}` |
| GenerateRequest.RenderedLineEntry | src/local/ai_quiz/generate.php:240-253 | such a line survives `trim` and yields the entry `(name, {a, b})` |
| GenerateRequest.LineMatches | src/local/ai_quiz/generate.php:246 | the pattern splits such a line into its name and two numbers |
| GenerateRequest.SingleLine | src/local/ai_quiz/generate.php:233-254 | a single trimmed line with an entry gives a one-entry map |
| GenerateRequest.LineEnds | src/local/ai_quiz/generate.php:240-246 | such a line starts with the name and ends with a digit |
| GenerateRequest.LineHead | src/local/ai_quiz/generate.php:246 | the name is followed by the colon and the spaces |
| GenerateRequest.MatchLineOf | src/local/ai_quiz/generate.php:246 | a line whose first acceptable colon follows the name matches with that name |
| GenerateRequest.FilterWebsiteUrls | src/local/ai_quiz/generate.php:156-165 | the URL list, empty when the field is empty |
| GenerateRequest.UrlStep | src/local/ai_quiz/generate.php:160-163 | a line contributes its trimmed text exactly when that is non-empty and a URL |
| GenerateRequest.CollectUrls | src/local/ai_quiz/generate.php:159-164 | the loop keeps the kept lines, in order |
| GenerateRequest.WebsiteUrlsMembership | src/local/ai_quiz/generate.php:156-165 | a URL is listed exactly when it is non-empty, valid and some line trims to it |
| GenerateRequest.UrlsMembership | src/local/ai_quiz/generate.php:159-164 | membership over any list of lines |
| GenerateRequest.WebsiteUrlsInOrder | src/local/ai_quiz/generate.php:159-164 | the URLs of a prefix of the lines are a prefix of the list: input order is kept |
| GenerateRequest.RoundedShareBounded | src/local/ai_quiz/generate.php:170-171 | a rounded share of at most 100% lies in `[0, total]` |
| GenerateRequest.PercentCounts | src/local/ai_quiz/generate.php:169-178 | as written: easy and medium are rounded shares and the three always sum to the total |
| GenerateRequest.PercentCountsNegativeHard | src/local/ai_quiz/generate.php:170-172 | as written, 50/50/0 % of 1 question gives counts 1, 1, -1 |
| GenerateRequest.PercentCountsClamped | src/local/ai_quiz/generate.php:170-172 | corrected: sums to the total and no count is negative |
| GenerateRequest.ClampedAgrees | src/local/ai_quiz/generate.php:170-172 | the correction equals the written conversion wherever that has no negative count |
| GenerateRequest.DocumentsOf | src/local/ai_quiz/generate.php:117-130 | one document per file |
| GenerateRequest.CollectDocuments | src/local/ai_quiz/generate.php:111-153 | an empty draft id gives no documents; otherwise one document per file at `tempdir/filename`, with a temp path for each |
| GenerateRequest.DocumentsOfRanges | src/local/ai_quiz/generate.php:118-129 | each document has the range of its exact file name, or none |
| GenerateForm.GroupEntry | src/local/ai_quiz/classes/forms/generate_form.php:386-404 | a group has no error exactly when each percentage is in `[0, 100]` and they sum to 100; any percentage out of range gives the range message |
| GenerateForm.CountEntry | src/local/ai_quiz/classes/forms/generate_form.php:412-416 | no count error exactly when `1 <= count <= numquestions` |
| GenerateForm.CheckPercentages | src/local/ai_quiz/classes/forms/generate_form.php:391-404 | the four successive writes leave the group's key with the range message over the mismatch message, or no entry |
| GenerateForm.Validation | src/local/ai_quiz/classes/forms/generate_form.php:368-441 | each key's entry: primary documents, difficulty group, and, only when multiple answers are enabled, count and group; only those four keys; no error exactly when the submission is acceptable |
| QuestionBank.SubstrFromStart | src/local/ai_quiz/classes/question_bank_helper.php:213 | `substr($s, 0, $n)` is a prefix of `min(n, len)` characters |
| QuestionBank.TruncateText | src/local/ai_quiz/classes/question_bank_helper.php:209-214 | a text within the limit is returned as it is, and for a limit of at least 3 the result never exceeds it (TruncateTextSpec gives the exact shape) |
| QuestionBank.TruncateTextSpec | src/local/ai_quiz/classes/question_bank_helper.php:209-214 | a text within the limit is unchanged; a longer one becomes exactly `length` characters, a prefix of the text and `...` |
| QuestionBank.TagsOf | src/local/ai_quiz/classes/question_bank_helper.php:191-197 | one tag for each of topic and difficulty that is set and non-empty, and no other: the topic first and the difficulty last |
| QuestionBank.CreateQuestionObject | src/local/ai_quiz/classes/question_bank_helper.php:96-200 | the loop over A–D succeeds exactly when all four options exist, with the name truncated to 100, the full text, the answers in A–D order, their fractions and tags; otherwise `invalid_question_format` |
| QuestionBank.FractionsMarkTheCorrectKey | src/local/ai_quiz/classes/question_bank_helper.php:157-182 | a fraction is 1 exactly when its key is the scalar correct answer; all are 0 or 1, at most one is 1, and an array answer gives all 0 |
| QuestionBank.ImportOutcome | src/local/ai_quiz/classes/question_bank_helper.php:34-86 | no questions or an unknown category give 0/0 and one message; otherwise success + failed = number of questions and one error per failure |
| QuestionBank.ImportStep | src/local/ai_quiz/classes/question_bank_helper.php:59-82 | one pass yields the question's error: the format message, `Failed to save: ` with the truncated text, or the thrown message |
| QuestionBank.ImportQuestions | src/local/ai_quiz/classes/question_bank_helper.php:34-86 | the counting loop: early returns for no questions or no category, otherwise one counter step per question and one error per failure, in order |
| QuestionBank.ImportFailuresAreTheFailedQuestions | src/local/ai_quiz/classes/question_bank_helper.php:58-83 | nothing fails exactly when every question is saved; a message is listed exactly when some question produced it |
| QuestionBank.ImportFailure | src/local/ai_quiz/classes/question_bank_helper.php:59-82 | a question with no error has all four options; a save that returns nothing gives a message of at most `"Failed to save: "` plus 50 characters (ImportFailureCases states when there is no error) |
| QuestionBank.ImportFailureCases | src/local/ai_quiz/classes/question_bank_helper.php:59-82 | a question succeeds exactly when it has all four options and is saved |
| Preview.ApplyEdit | src/local/ai_quiz/preview.php:94-100 | a text field gets the value and nothing else changes; an option A–D gets the value, creating the options if needed, and every other option and field is kept; `correct_answer` becomes the single answer and nothing else changes; any other field changes nothing; the id is always kept |
| Preview.FirstMatch | src/local/ai_quiz/preview.php:92-93 | the first index whose id loosely equals the given one, or none when none does |
| Preview.AlphaExtKeepsName | src/local/ai_quiz/preview.php:88 | a name of letters, `_` and `-` passes `PARAM_ALPHAEXT` unchanged |
| Preview.CleanAlpha | src/local/ai_quiz/preview.php:88 | `PARAM_ALPHA` never lengthens the name, and a character is in the result exactly when it is an ASCII letter of the name |
| Preview.CleanAlphaExt | src/local/ai_quiz/preview.php:88 | the corrected `PARAM_ALPHAEXT` never lengthens the name, and a character is in the result exactly when it is an ASCII letter, `_` or `-` of the name |
| Preview.AlphaKeepsLetters | src/local/ai_quiz/preview.php:88 | a name of letters passes `PARAM_ALPHA` unchanged |
| Preview.AlphaSkipsUnderscore | src/local/ai_quiz/preview.php:88 | `PARAM_ALPHA` removes an underscore between two names and cleans each side |
| Preview.AlphaDropsUnderscore | src/local/ai_quiz/preview.php:88 | `PARAM_ALPHA` turns `correct_answer` into `correctanswer` |
| Preview.CorrectAnswerEditDropped | src/local/ai_quiz/preview.php:88-100 | as written, the correct-answer edit sent by the page leaves the question unchanged |
| Preview.CorrectAnswerEditApplied | src/local/ai_quiz/preview.php:88-100 | with `PARAM_ALPHAEXT` the correct-answer edit replaces the answer and every whitelisted name passes unchanged |
| Preview.WhitelistPassesAlphaExt | src/local/ai_quiz/preview.php:94-100 | the four text fields and the answer keys A–D are unchanged by `PARAM_ALPHAEXT`, so each reaches its branch |
| Preview.ShownErrors | src/local/ai_quiz/preview.php:77 | the first three errors when there are more than three, all of them otherwise |
| Preview.ImportNotice | src/local/ai_quiz/preview.php:71-80 | a warning exactly when something failed, never an error; with no failure just the success count message |
| Preview.PreviewSession.constructor | src/local/ai_quiz/preview.php:48-55 | the session holds the stored questions and metadata |
| Preview.PreviewSession.SelectForImport | src/local/ai_quiz/preview.php:48-55 | the selected questions in stored order, reindexed, with the metadata as is |
| Preview.PreviewSession.Import | src/local/ai_quiz/preview.php:40-83 | an empty selection gives the no-selection error before anything is imported; otherwise the notice of importing the selection |
| Preview.PreviewSession.Edit | src/local/ai_quiz/preview.php:86-103 | cleans the field name with `PARAM_ALPHAEXT`, the corrected line 88 (see Findings); only the first question whose id loosely equals the given one gets the field; metadata unchanged |
| Preview.PreviewSession.Delete | src/local/ai_quiz/preview.php:114-132 | the questions without the id, in order; `remaining` is the new count; metadata unchanged |
| Preview.SelectionMembers | src/local/ai_quiz/preview.php:48-53 | a question is imported exactly when it is stored and selected |
| Preview.DeleteMembers | src/local/ai_quiz/preview.php:118-121 | a question survives exactly when it was stored and has another id |
| Preview.DeleteUnmatchedUnchanged | src/local/ai_quiz/preview.php:118-121 | deleting an id no question has leaves the list unchanged |
| Preview.EditChangesOnlyFirstMatch | src/local/ai_quiz/preview.php:92-103 | length and ids are kept; the first match gets the edit and no other question changes; an unmatched id or non-whitelisted field changes nothing |
| Preview.NoticeNamesFirstErrors | src/local/ai_quiz/preview.php:74-80 | a warning reads `N questions ... \| F failed: ` followed by the first errors joined by `, ` |

## Left out

- Moodle's database, file storage, capabilities, sessions and redirects are left out. The category lookup, the draft area's file list, saving a question and the fetched reply are parameters. Deleting the temporary record after an import (`preview.php:66`) is not modelled.
- Shell commands, zip archives, `file_get_contents`, curl, `json_decode`/`json_encode`, `strip_tags` and `filter_var` are oracle functions of `Host`, or are passed as parameters. Their HTML, JSON and URL semantics are not modelled.
- Floating-point values are not modelled: the temperature, `total_cost_estimate`, the penalty, and the percentages of the preview page. `round(0.25 n)`, `round(n/2)` and `round(p/100 * n)` are exact integer half-away-from-zero rounding. The head length `(int)(7,600,000 * 0.7)` is the constant 5,320,000.
- `get_usage_stats`, the debugging output, the full heredoc text of the prompt, the time stamp and the unique id codes are left out. The prompt is the record of the clauses it selects and the numbers it embeds.
- The constant fields of the saved question are not part of `MoodleQuestion`: the formats, mark, penalty, stamps, times, creator and fixed feedback texts.
- The UI is left out: the form definition, the rendering half of `preview.php`, and `preview.js` apart from the field name it sends.
- `parent::validation` is taken to return no errors.
- A preview record without a questions list is a PHP type error in `array_filter`, so the model always has a list.
- Strings are sequences of characters with one character per byte, so `strlen` and `substr` count characters.
- A generated question is a typed record. A non-array `options` value or a non-string answer is represented as missing. A reply that does not decode to a quiz is an invalid response.
- `QuestionBank.TextOf` reads a missing question text as the empty string (PHP's null).
- The `difficultymix` computed in `generate.php` (lines 169-178) is never passed on: `create_quiz` is called with four arguments (lines 180-185), so it always uses its own rounded mix and no multiple-answer configuration. The conversion is modelled on its own.
- GeminiClient.TruncatedLength: a truncated context is as long as the cap plus the marker, not at most the cap. The bound is stated as the code computes it.
- McqValidation.ThreeOptionsTwoIssues: a question with three options gets two issues from the code, the count issue and the key issue.
- DocumentSources.BaseName: a path ending in `/` is not handled as PHP's `basename` handles it; paths in the plugin never end in `/`.
- PdfExtractor.ExtractWithPdftotext: the contract does not state the text of the `pdftotext_failed` detail (the exit code), only the error kind.
- Preview.PreviewSession.Edit: cleans the field name with `PARAM_ALPHAEXT`, the corrected line 88 of `preview.php`, not with `PARAM_ALPHA` as written. So an edit of `correct_answer`, which the source drops, replaces the answer here. `Preview.CorrectAnswerEditDropped` states what the code as written does.

## Findings

| source | as written | input that shows it | evidently intended | confidence | as-written member | corrected member |
|---|---|---|---|---|---|---|
| src/local/ai_quiz/preview.php:88 | the `field` parameter is cleaned with `PARAM_ALPHA`, which keeps only letters | the page sends `field=correct_answer` (`amd/src/preview.js:115`); it becomes `correctanswer`, matches no branch, and the edit is dropped | `PARAM_ALPHAEXT`, which keeps `_`, so the `correct_answer` branch at line 98 is reachable; `Edit` cleans with it | high (not executed) | Preview.CorrectAnswerEditDropped | Preview.CorrectAnswerEditApplied, used by Preview.PreviewSession.Edit |
| src/local/ai_quiz/generate.php:170-172 | easy and medium are rounded independently and hard takes the rest | 1 question at 50/50/0 % gives easy 1, medium 1, hard -1 | counts that sum to the total and are never negative | medium (not executed; the result is not passed on at lines 180-185) | GenerateRequest.PercentCountsNegativeHard | GenerateRequest.PercentCountsClamped |
