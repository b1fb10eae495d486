# Ação de cobrança drafting backend, modelled in Dafny

The system is a small serverless backend that drafts a Brazilian debt
collection petition (*ação de cobrança*). A client POSTs the case data.
The backend checks it against a table of required fields and alert rules
(`validateDraftInput`). It then builds a prompt from a versioned template
(`buildPrompt`) and asks a language model for the seven petition sections
(`callModel`). It reads the model's JSON out of the reply text
(`parseModel`). Finally it assembles the sections, alerts, missing fields
and an HTML preview into one reply (`assemble`).

Around that pipeline sit:

- the synchronous endpoint (`api/draft/cobranca.js`);
- an asynchronous variant that stores a job record and is polled for its
  status (`cobrancaStart.js`, `cobrancaStatus.js`, `jobStore.js`);
- the DOCX exports: a template-based one (`api/draft/cobranca/docx.js`) and
  a generated one (`api/export/cobrancaDocx.js`, with its older variant
  `cobrancaDocxOLD.js`);
- the shared helpers: the HTML report fragments (`htmlRender.js`), the
  fixed-window rate limiter (`rateLimit.js`), the shared-token guard
  (`auth.js`) and the logger's scrubbing step (`logger.js`).

The Dafny modules follow the source's structure: most source files have a
module of their own, and closely related files share one (the DOCX
exports, the job endpoints). Four modules hold shared vocabulary:

- `Wrappers`: `Option` and `Result`.
- `Text`: trimming, splitting, lower-casing and clipping of strings.
- `Json`: a JSON value `JVal` with ordered object entries. It provides
  property lookup, JavaScript truthiness, `||` defaults, object spread and
  `getByPath`. A `Coercion` parameter stands for JavaScript's
  `String(n)` / `Number(s)` on numbers.
- `Draft`: the seven sections, alerts, missing fields and the reply
  envelope.

Every endpoint is a pure function from the request and its collaborators
to a response. The collaborators are passed in as parameters:

- the model call, `JSON.parse` and the template reader;
- the DOCX packer and renderer, and the blob store;
- the clock and the job id;
- the rate limiter's bucket map.

The HTML fragments are specified by reading them back. `Markup` splits
markup into tags and text runs, and small readers in `HtmlRender`
(`ReadAlert`, `ReadGrouped`, `ReadMeta`) recognise the shape each
template writes. The readers are not part of the system: they only state
what the rendered markup holds, and the `...ReadsBack` lemmas prove that
each renderer's output reads back as its input.

The job store is a `map` from id to record. The export modules return the
document as a list of blocks (title, headings, paragraphs) rather than
bytes.

## Model

| member | source | states |
|---|---|---|
| Json.GetByPathSplit | src/draft-cobranca/validate.js:227-231 | reading a path in two parts, the second from where the first ends, is reading the whole path |
| Json.GetByPathFalsyPrefix | src/draft-cobranca/validate.js:227-231 | once a step reads undefined, null or another falsy value, the whole path reads undefined |
| Json.PathOfKeys | src/draft-cobranca/validate.js:227-231 | a dotted path string reads the same value as walking its keys one by one |
| Schema.RequiredCriticalShape | src/draft-cobranca/schema.js:12-75 | the critical-field table has ten entries with distinct paths, from the creditor's name to the oriented description, and the debt origin needs at least three characters |
| Validate.MissingRequiredConcat | src/draft-cobranca/validate.js:88-93 | the missing list of two tables joined is the two missing lists joined, so entries keep table order |
| Validate.MissingRequiredMembers | src/draft-cobranca/validate.js:88-93 | every reported entry comes from a descriptor whose path reads an empty value, and every such descriptor is reported |
| Validate.PresentNotMissing | src/draft-cobranca/validate.js:233-238 | a required field whose path reads a non-empty value is never reported missing |
| Validate.ValidateDraftInput | src/draft-cobranca/validate.js:77-221 | the verdict is ok exactly when nothing is missing, and the missing list is the empty required fields followed by the origin pair's entry |
| Validate.ValidateOk | src/draft-cobranca/validate.js:98-114 | drafting is blocked exactly when a required value is empty or only one of origin category and subtype is given; no alert rule can block it |
| Validate.ValidateWithoutSchema | src/draft-cobranca/validate.js:98-114 | with no required table, the only possible missing entries are the origin subtype or the origin category, one at a time |
| Validate.OrigemPairRule | src/draft-cobranca/validate.js:98-114 | a subtype without a category draws one ORIGEM_INCONSISTENTE; a consistent pair adds nothing to the missing list |
| Validate.CategoriaRule | src/draft-cobranca/validate.js:117-123 | a present category outside the origin table is flagged exactly once |
| Validate.SubtipoRule | src/draft-cobranca/validate.js:126-132 | a subtype is judged only under a valid category, and flagged exactly once when that category does not list it |
| Validate.ReuEnderecoRule | src/draft-cobranca/validate.js:137-144 | a defendant address shorter than twelve characters draws exactly one REU_ENDERECO_FRACO |
| Validate.ExtrajRule | src/draft-cobranca/validate.js:149-161 | a prior collection attempt whose description never mentions an extrajudicial step draws exactly one EXTRAJ_NAO_DESCRITA |
| Validate.DocumentosRule | src/draft-cobranca/validate.js:166-173 | anything other than a non-empty document array draws exactly one SEM_DOCUMENTOS |
| Validate.ValorRule | src/draft-cobranca/validate.js:178-185 | a non-numeric or non-positive debt is one error alert and never a missing entry |
| Validate.DataFormatoRule | src/draft-cobranca/validate.js:190-197 | a given due date not in YYYY-MM-DD form draws exactly one DATA_FORMATO |
| Validate.ValorCausaRule | src/draft-cobranca/validate.js:202-210 | a claim value below the debt draws exactly one VALOR_CAUSA_MENOR_QUE_DIVIDA |
| Draft.SectionsFromJson | src/draft-cobranca/parseModel.js:109-119 | every section read is trimmed, and anything but an object reads as the empty sections |
| Draft.SectionsIgnoreUnknownKeys | src/draft-cobranca/parseModel.js:109-119 | entries under keys other than the seven section keys do not change what is read |
| Draft.SectionsRoundTrip | src/draft-cobranca/parseModel.js:109-119 | serialising trimmed sections and reading them back gives the same sections |
| Draft.SectionsNormalizeIdempotent | src/draft-cobranca/parseModel.js:109-119 | normalising an already-normalised sections object changes nothing |
| Draft.HasAnyTextAgrees | api/draft/cobranca.js:37-40 | the check on the serialised object (some string value with non-blank content) agrees with the check on the sections |
| Draft.EmptySections | api/draft/cobranca.js:25-35 | every one of the seven sections is "" |
| ParseModel.GetText | src/draft-cobranca/parseModel.js:63-68 | the reply text is always trimmed; a missing or null reply reads "", and a string reply reads as itself trimmed |
| ParseModel.ExtractedInside | src/draft-cobranca/parseModel.js:78-94 | what is extracted is empty or starts with `{` and ends with `}`, and is always a piece of the input text |
| ParseModel.FencedRoundTrip | src/draft-cobranca/parseModel.js:82-86 | JSON wrapped in a ```json fence is extracted back unchanged |
| ParseModel.BraceSliceSpec | src/draft-cobranca/parseModel.js:89-93 | the fallback is empty exactly when no `}` follows the first `{`; otherwise it is brace-delimited and a piece of the input |
| ParseModel.SplitParagraphs | src/draft-cobranca/parseModel.js:167-173 | every paragraph is non-empty and trimmed |
| ParseModel.SplitParagraphsBlank | src/draft-cobranca/parseModel.js:167-173 | blank text has no paragraphs |
| ParseModel.ParagraphsRoundTrip | src/draft-cobranca/parseModel.js:167-173 | joining trimmed non-blank paragraphs with blank lines and splitting again gives them back |
| ParseModel.EmptySectionAlerts | src/draft-cobranca/parseModel.js:125-137 | there are none exactly when every section has text; each empty section has its warning; every one is an EMPTY_SECTION |
| ParseModel.EmptySectionAlertsExact | src/draft-cobranca/parseModel.js:125-137 | the warnings are exactly one per empty section, in section order and nothing else |
| ParseModel.SectionAlertsByKey | src/draft-cobranca/parseModel.js:125-137 | the empty sections picked are exactly those whose text is "", and each warning names its section's key |
| ParseModel.CountAlerts | src/draft-cobranca/parseModel.js:139-165 | too few paragraphs draw one short warning and too many one long warning, and nothing else |
| ParseModel.LimitsOnParagraphs | src/draft-cobranca/parseModel.js:139-165 | the limit warnings of a section's text depend only on how many paragraphs it has |
| ParseModel.NormAlert | src/draft-cobranca/parseModel.js:175-182 | the level is always error, warn or info, and an absent code or message takes its default |
| ParseModel.NormAlertFixpoint | src/draft-cobranca/parseModel.js:175-182 | an alert with a valid level, code and message comes back unchanged when serialised and normalised |
| ParseModel.ParseModel | src/draft-cobranca/parseModel.js:9-50 | empty text, unparsable text and a missing sections object each fail with their own message; otherwise the envelope is built from the parsed object |
| ParseModel.EnvelopeEndsWithEmpty | src/draft-cobranca/parseModel.js:46 | the envelope's alerts end with exactly the warnings for the empty sections, in section order |
| ParseModel.EmptySectionWarnings | src/draft-cobranca/parseModel.js:46 | the model's own alerts come first, and exactly one EMPTY_SECTION per empty section is added; none are added exactly when every section has text |
| Prompt.ClipField | src/draft-cobranca/buildPrompt.js:210-212 | a string longer than the field limit is cut to it and marked; shorter strings are unchanged |
| Prompt.Sanitize | src/draft-cobranca/buildPrompt.js:206-220 | objects keep every key except `__proto__`, which an assignment into a fresh object does not store; arrays become objects keyed by index; strings are clipped; other values pass through |
| Prompt.SanitizeBounded | src/draft-cobranca/buildPrompt.js:206-220 | after sanitising, no string anywhere exceeds the field limit plus its marker |
| Prompt.SanitizeIdempotent | src/draft-cobranca/buildPrompt.js:206-220 | sanitising a sanitised value changes nothing |
| Prompt.SanitizeSmallUnchanged | src/draft-cobranca/buildPrompt.js:206-220 | a value with short strings and no arrays comes back as given less its `__proto__` entries at every level, and exactly as given when it has none |
| Prompt.SanitizeData | src/draft-cobranca/buildPrompt.js:207-209 | absent data gives no entries; the entries keep the data's keys except `__proto__`; an object or array is sanitised as a whole value would be |
| Prompt.SectionGuidance | src/draft-cobranca/buildPrompt.js:222-246 | a null template gives no guidance; any other gives exactly the seven section keys |
| Prompt.GuidanceDefaults | src/draft-cobranca/buildPrompt.js:222-246 | a present setting is kept and an absent or falsy one takes its default; the paragraph bounds are always present |
| Prompt.SectionGuidanceFixpoint | src/draft-cobranca/buildPrompt.js:222-246 | guidance built from guidance already built is the same guidance |
| Prompt.BuildPrompt | src/draft-cobranca/buildPrompt.js:16-199 | a null payload or a template that fails to load fails; otherwise the user message carries the sanitised data, the template's guidance and the same meta as the result |
| Prompt.BuildPromptDefaults | src/draft-cobranca/buildPrompt.js:17-18 | absent versions fall back to the current template and prompt versions |
| Prompt.LegacyGuidanceKeys | src/draft-cobranca/buildPromptOld.js:75-88 | when no section setting is null, the guidance exists and has exactly the template's guidance keys except `__proto__`, which the assignment at line 79 does not store; when those keys are distinct, they come in the template's order |
| Prompt.LegacyBuildPrompt | src/draft-cobranca/buildPromptOld.js:6-88 | a failing load of the v1 template fails; a null template throws on reading `sectionGuidance`, and a null guidance entry on reading `minParagraphs`, exactly when one exists; otherwise the data goes through unsanitised with guidance from that template |
| Prompt.LegacyGuidanceNull | src/draft-cobranca/buildPromptOld.js:75-88 | the older guidance is missing exactly when one of the template's guidance entries is null |
| Prompt.LegacyIgnoresVersion | src/draft-cobranca/buildPromptOld.js:7-16 | the requested template version does not change which template is read |
| CallModel.Truncate | src/draft-cobranca/callModel.js:119-122 | text within the limit is unchanged; longer text is its prefix of exactly the limit plus an ellipsis |
| CallModel.ExtractOutputText | src/draft-cobranca/callModel.js:104-117 | a falsy reply or one without an output array gives ""; a found text is trimmed |
| CallModel.ScanMessagesIsSearch | src/draft-cobranca/callModel.js:104-117 | the nested scan is one left-to-right search over every content item of every message |
| CallModel.SearchFindsFirst | src/draft-cobranca/callModel.js:104-117 | the first output_text item wins, when nothing before it crashes |
| CallModel.TruncatedIffCut | src/draft-cobranca/callModel.js:70-79 | the intended flag is set exactly when the text was cut |
| CallModel.TruncatedAsWrittenMisses | src/draft-cobranca/callModel.js:79 | at 25001 characters the flag as written is false although the text was cut |
| CallModel.CallModel | src/draft-cobranca/callModel.js:17-82 | a missing key, an HTTP error, an unparsable body (with the parser's message after the fixed prefix), a crash while reading the output and an empty text each fail with their own error; success carries non-empty text of bounded length, the chosen model and the caller's meta |
| CallModel.CallModelText | src/draft-cobranca/callModel.js:70-79 | the reply's text is the truncated output, and its truncated flag is the one as written, which agrees with whether the text was cut at every length but 25001 |
| Html.EscapeText | src/draft-cobranca/assemble.js:31-36 | the escaped text has no `<` or `>` |
| Html.EscapeTextRoundTrip | src/draft-cobranca/assemble.js:31-36 | unescaping the escaped text gives the original text |
| Html.EscRoundTrip | api/shared/htmlRender.js:127-134 | the renderer's escape, which also escapes quotes, unescapes back to the original text |
| Html.Nl2brLines | src/draft-cobranca/assemble.js:38-40 | a line break becomes `<br>` between the two escaped lines |
| Assemble.NormalizeSectionsObject | src/draft-cobranca/assemble.js:6-24 | the sections are always trimmed, and anything but an object gives the empty sections |
| Assemble.NormalizeSectionsRoundTrip | src/draft-cobranca/assemble.js:6-24 | trimmed sections, serialised and normalised, come back unchanged |
| Assemble.NormalizeSectionsIdempotent | src/draft-cobranca/assemble.js:6-24 | normalising twice is normalising once |
| Assemble.SectionShownInHtml | src/draft-cobranca/assemble.js:42-69 | each non-blank section appears under its heading, and a blank one has no effect on the html |
| Assemble.NormalizeDocsList | src/draft-cobranca/assemble.js:102-122 | trimmed non-blank entries, case-insensitively distinct, first occurrence kept, in input order |
| Assemble.NormalizeDocsIdempotent | src/draft-cobranca/assemble.js:102-122 | normalising a normalised list changes nothing |
| Assemble.LabelOfCases | src/draft-cobranca/assemble.js:77-100 | spellings differing in case get one label, and unknown text is its own label |
| Assemble.ConstructorLabel | src/draft-cobranca/assemble.js:124-151 | the entry `constructor` reads the label inherited from Object.prototype |
| Assemble.DocsToHumanListMeaning | src/draft-cobranca/assemble.js:124-151 | every document is named once, in first-appearance order, with the last `outros:` detail attached |
| Assemble.ProvasNamesEveryLabel | src/draft-cobranca/assemble.js:153-165 | the evidence paragraph names every listed document label |
| Assemble.ProvasWithoutPayload | src/draft-cobranca/assemble.js:153-165 | without documents there is no evidence paragraph |
| Assemble.AppendParagraph | src/draft-cobranca/assemble.js:167-177 | the result is trimmed and starts with the trimmed text; a blank paragraph adds nothing, any other ends up contained |
| Assemble.AppendParagraphIdempotent | src/draft-cobranca/assemble.js:167-177 | appending the same paragraph twice is appending it once |
| Assemble.Assemble | src/draft-cobranca/assemble.js:179-213 | ok is the truthiness of the parsed ok; sections are trimmed; the model's html is kept, else built from the sections only when one has text; alerts and missing pass through; meta records hasSections |
| Assemble.AssembleIdempotent | src/draft-cobranca/assemble.js:179-213 | assembling an assembled reply again, with the same payload, gives the same reply |
| Handler.DraftHandler | api/draft/cobranca.js:42-114 | OPTIONS is the preflight, other verbs but POST get 405, a guard failure is caught, and POST validates then runs the pipeline |
| Handler.ValidationSkipsPipeline | api/draft/cobranca.js:56-65 | a rejected payload is answered with 400 whatever the pipeline would do |
| Handler.RejectionNamesOneField | api/draft/cobranca.js:56-65 | a rejection names exactly one missing field: the origin subtype or category |
| Handler.SuccessIsAssembled | api/draft/cobranca.js:67-98 | a 200 carries the assembled reply with trimmed sections and the elapsed time |
| Handler.ErrorsAreCaught | api/draft/cobranca.js:99-113 | a thrown error is answered with its own status, or 500 without one, and names its message |
| Jobs.ReadJob | api/shared/jobStore.js:24-35 | a job is found exactly when its id is stored |
| Jobs.WriteJob | api/shared/jobStore.js:12-22 | the written id holds the new record and no other record changes |
| Jobs.PatchJob | api/draft/cobrancaStart.js:205-208 | only the patched id changes, to the merge of its current record with the patch |
| Jobs.PatchIsSpread | api/draft/cobrancaStart.js:205-208 | the merge reads like JavaScript object spread, patch keys winning |
| Jobs.Start | api/draft/cobrancaStart.js:76-129 | one record is written: done with the 400 reply for invalid input, queued with the payload for valid input; then 202 with the status URL |
| Jobs.StartAsWritten | api/draft/cobrancaStart.js:62-73 | every POST fails with 500 before anything is stored |
| Jobs.StartAsWrittenNeverStarts | api/draft/cobrancaStart.js:62-73 | a valid payload the intended start would queue is refused with 500 and never stored |
| Jobs.RunJob | api/draft/cobrancaStart.js:132-203 | only the job's own record changes: marked running, then replaced by the done record or patched with the error |
| Jobs.RunSettles | api/draft/cobrancaStart.js:132-203 | a run of a stored payload leaves the done record when the pipeline succeeds, and the error status with its message and status when it fails |
| Jobs.Status | api/draft/cobrancaStatus.js:20-67 | a blank id gets 400, an unknown one 404, and a stored one 200 with the reply for its status |
| Jobs.JobReplyCases | api/draft/cobrancaStatus.js:34-62 | done, error, running and queued records get their own replies, and no status reads as queued |
| Jobs.InvalidStartReadsDone | api/draft/cobrancaStart.js:85-105 | polling right after an invalid start reads done with the validation reply |
| Jobs.ValidStartReadsQueued | api/draft/cobrancaStart.js:109-124 | polling right after a valid start reads queued |
| Jobs.StartRunSucceededReads | api/draft/cobrancaStart.js:146-182 | start, run and poll of a pipeline that succeeds reads done with the assembled reply |
| Jobs.StartRunFailedReads | api/draft/cobrancaStart.js:183-202 | start, run and poll of a pipeline that fails reads error with its message and status |
| HtmlRender.RenderAlert | api/shared/htmlRender.js:90-94 | an alert line has two tags, and two more for the code badge exactly when there is a code |
| HtmlRender.RenderAlertReadsBack | api/shared/htmlRender.js:90-94 | the alert line reads back as an alert box of its level holding the code badge when there is a code, and the escaped message |
| HtmlRender.RenderAlertsConcat | api/shared/htmlRender.js:73 | the alerts of a level render one after the other, in input order |
| HtmlRender.GroupedReadsBack | api/shared/htmlRender.js:64-88 | the block reads back as errors, then warnings, then information, each under its heading only when that group is non-empty, each group's alerts in input order |
| HtmlRender.RenderAlertsEmpty | api/shared/htmlRender.js:64-88 | a level renders nothing exactly when it has no alerts |
| HtmlRender.RenderGroupedAlerts | api/shared/htmlRender.js:64-88 | the block is empty exactly when there are no alerts of any level |
| HtmlRender.GroupedTags | api/shared/htmlRender.js:64-88 | the block's tag count is fixed by the number and kind of alerts, so escaped text adds no tags |
| HtmlRender.RenderSectionShape | api/shared/htmlRender.js:100-109 | a section is one card holding its heading and body |
| HtmlRender.RenderMeta | api/shared/htmlRender.js:115-121 | no meta entries render nothing; otherwise three wrapper tags and six per entry, whatever the values hold |
| HtmlRender.MetaRowReadsBack | api/shared/htmlRender.js:117 | one entry reads back as its key and the string form of its value, in two muted spans |
| HtmlRender.MetaReadsBack | api/shared/htmlRender.js:115-121 | the block reads back as a rule and one muted row per entry, in entry order, each with its key and the string form of its value; a missing meta reads as no entries |
| DocxDraft.FormatDateBR | api/draft/cobranca/docx.js:91-95 | an ISO date becomes day/month/year; anything else becomes "" |
| DocxDraft.FormatDateBRRoundTrip | api/draft/cobranca/docx.js:91-95 | the Brazilian form of an ISO date has the same year, month and day |
| DocxDraft.GetBearerToken | api/draft/cobranca/docx.js:37-41 | the token read is always trimmed, and is "" when the header does not match the Bearer pattern |
| DocxDraft.MissingHeaderIs401 | api/draft/cobranca/docx.js:37-55 | with a secret configured, a request without an authorization header gets 401 |
| DocxDraft.BasicHeaderIs401 | api/draft/cobranca/docx.js:37-55 | with a secret configured, a `Basic` authorization header gets 401 whatever its credentials |
| DocxDraft.BearerRoundTrip | api/draft/cobranca/docx.js:37-41 | a token sent as `Bearer <token>` in any case of the scheme reads back as that token |
| DocxDraft.AuthOr401 | api/draft/cobranca/docx.js:43-55 | passes exactly when the secret is set and equals the bearer token; otherwise 500 for no secret or 401 |
| DocxDraft.TabSeparatedBearer | api/draft/cobranca/docx.js:37-41 | a tab after `Bearer` is accepted here although the shared guard refuses it |
| DocxDraft.ValidateCritical | api/draft/cobranca/docx.js:145-173 | a field is reported exactly when its check fails: a blank party name, document or address, a blank debt origin or description, a debt amount that is not a positive number, a due date not in ISO form |
| DocxDraft.ValidateCriticalOrdered | api/draft/cobranca/docx.js:145-173 | the reported fields keep the order of the checks: creditor, debtor, debt, facts |
| DocxDraft.ValidateCriticalEmpty | api/draft/cobranca/docx.js:145-173 | nothing is reported exactly when no field's check fails |
| DocxDraft.ValidateCriticalDistinct | api/draft/cobranca/docx.js:145-173 | no field is reported twice |
| DocxDraft.GroupAlertsPartition | api/draft/cobranca/docx.js:175-184 | each group holds exactly the alerts of its level, in their original order |
| DocxDraft.GroupAlertsPermutes | api/draft/cobranca/docx.js:175-184 | the three groups together are a permutation of the alerts |
| DocxDraft.MissingAllErrors | api/draft/cobranca/docx.js:243-254 | the missing-field alerts all land in the error group |
| DocxDraft.TrimAll | api/draft/cobranca/docx.js:109-139 | trimming succeeds exactly when every field is a string or absent, and yields each trimmed |
| DocxDraft.LocalDataShape | api/draft/cobranca/docx.js:97-103 | the place-and-date line has a two-digit day and month, slashes between them, and the year's digits |
| DocxDraft.BuildPlaceholders | api/draft/cobranca/docx.js:109-139 | placeholders are built exactly when every text field can be trimmed, with the Brazilian due date |
| DocxDraft.BuildPlaceholdersAsWritten | api/draft/cobranca/docx.js:97-139 | as written, building placeholders always fails: on the padding call when the fields can be trimmed, else on the trim |
| DocxDraft.Err | api/draft/cobranca/docx.js:25-35 | an error body starts with ok false and the message, and carries details exactly when given |
| DocxDraft.DocxHandler | api/draft/cobranca/docx.js:216-274 | a 200 is sent only for a POST that passed auth, body, data and critical checks |
| DocxDraft.IncompleteIs422 | api/draft/cobranca/docx.js:243-254 | an authorised request missing critical fields gets 422 naming them |
| DocxDraft.CorrectedExports | api/draft/cobranca/docx.js:256-268 | an authorised, complete and renderable request gets 200 with the document |
| DocxDraft.AsWrittenNeverExports | api/draft/cobranca/docx.js:97-103 | as written, no request ever gets the document |
| Export.SGivenOrPending | api/export/cobrancaDocx.js:21-25 | a section's text is either the pending marker or exactly the string given |
| Export.SIdempotent | api/export/cobrancaDocx.js:21-25 | applying the fallback twice is applying it once |
| Export.ValidateSections | api/export/cobrancaDocx.js:31-55 | a non-object gets the object error; once the seven keys hold strings, the sections pass exactly when some value has text, and get the empty-sections error otherwise |
| Export.ValidSectionsIff | api/export/cobrancaDocx.js:31-55 | sections pass exactly when they form an object, every key holds a string and some value has text |
| Export.FirstBadKeyReported | api/export/cobrancaDocx.js:46-49 | the first absent or non-string key, in fixed order, is the one reported |
| Export.ArrayRejected | api/export/cobrancaDocx.js:27-29 | an array is not accepted as the sections object |
| Export.LinesRoundTrip | api/export/cobrancaDocx.js:57-70 | splitting joined lines gives the lines back |
| Export.TextParagraphs | api/export/cobrancaDocx.js:57-70 | a non-blank text has one paragraph per line of it, in order |
| Export.Document | api/export/cobrancaDocx.js:122-160 | the document opens with the title, holds exactly the six chapter headings in their fixed order, and ends with the four closing lines |
| Export.GatewayTimeoutRedundant | api/export/cobrancaDocx.js:83-86 | a timeout is a standalone `504`, `timeout` or `Tempo limite` in any case; the `gateway timeout` check adds nothing |
| Export.Caught | api/export/cobrancaDocx.js:186-209 | timeouts get 504; other errors keep their status, with the 429 message for rate limits |
| Export.RateLimitedIs429 | api/export/cobrancaDocx.js:105 | a rate-limit refusal reaches the client as 429 |
| Export.MissingTokenIs401 | api/export/cobrancaDocx.js:106 | a missing token reaches the client as 401 |
| Export.WrongTokenIs403 | api/export/cobrancaDocx.js:106 | a wrong token reaches the client as 403 |
| Export.ExportHandler | api/export/cobrancaDocx.js:88-210 | a success answer only comes from a POST that passed the guards, with a body whose sections validate |
| Export.ValidSectionsExported | api/export/cobrancaDocx.js:162-184 | valid sections whose upload succeeds get 200 with the stored file's URL |
| Export.InvalidSections400 | api/export/cobrancaDocx.js:111-114 | invalid sections get 400 and nothing is produced |
| Export.ParseBody | api/export/cobrancaDocxOLD.js:31-47 | an object body is used as is; a string is parsed; anything else is empty |
| Export.CatchesAgree | api/export/cobrancaDocxOLD.js:223-260 | the two catch blocks differ only on a blob-token error that is not a timeout |
| Export.BlobTokenFirst | api/export/cobrancaDocxOLD.js:132-143 | once the guards pass, a missing blob token gets 500 whatever the body |
| Export.ExportHandlerOld | api/export/cobrancaDocxOLD.js:111-261 | a success answer only comes from a POST that passed the guards, with the blob token set and a body whose sections validate |
| Export.VariantsAgree | api/export/cobrancaDocxOLD.js:111-261 | for an object body with the blob token set and no blob-token error, the two variants answer alike |
| RateLimit.ClientIp | api/shared/rateLimit.js:25-28 | the client address is never empty, so every request has a bucket |
| RateLimit.BucketKey | api/shared/rateLimit.js:30-31 | without a key option, the bucket is the client address and the URL |
| RateLimit.Step | api/shared/rateLimit.js:33-75 | only the request's bucket changes; a new window starts at one; a refusal comes exactly when the count passes the limit; the reset header is the window length for a new window and the time left in it otherwise, never below zero, and a refusal's body carries that wait |
| RateLimit.RateLimit | api/shared/rateLimit.js:18-64 | with defaults filled in, a request is refused exactly when its open window's count passes the limit |
| RateLimit.RejectionCarriesWait | api/shared/rateLimit.js:46-61 | a 429 tells how long the rest of the window lasts |
| RateLimit.KeysDoNotInteract | api/shared/rateLimit.js:30-44 | requests in one bucket do not change what another bucket decides |
| RateLimit.BurstInsideWindow | api/shared/rateLimit.js:35-61 | inside one open window, the i-th further request is refused exactly when the count so far plus i+1 passes the limit |
| RateLimit.FreshWindowAdmitsLimit | api/shared/rateLimit.js:35-61 | for a new bucket, the first limit requests of one window pass and every later one in it is refused |
| RateLimit.SetHeaders | api/shared/rateLimit.js:68-75 | the remaining count is passed on, and the reset time is never negative |
| Auth.HeaderOr | api/shared/auth.js:17-26 | the first present header of the two spellings, else "" |
| Auth.AuthGuard | api/shared/auth.js:8-53 | passes exactly when the secret is set and the presented token equals it; 500, 401 and 403 otherwise, in that order |
| Auth.AuthGuardOutcomes | api/shared/auth.js:8-53 | the guard has only these four outcomes, and 500 exactly when no secret is set |
| Auth.BearerAccepted | api/shared/auth.js:31-33 | `Bearer <secret>` in any case of the scheme passes, whatever the fallback header holds |
| Auth.TokenHeaderFallback | api/shared/auth.js:35-37 | without an Authorization header the fallback header's trimmed value is the credential |
| Auth.OtherSchemeFallsBack | api/shared/auth.js:31-37 | a non-bearer Authorization header does not hide the fallback header |
| Logger.Sanitize | api/shared/logger.js:12-45 | strings are clipped, arrays cut to twenty, depth capped at three, and object keys kept except `__proto__`, which the assignments at lines 34-37 do not store |
| Logger.RedactsTopLevel | api/shared/logger.js:32-40 | a personal-data key of the top-level object reads back as the redaction marker |
| Logger.ProtoNotPii | api/shared/logger.js:10 | the `__proto__` key matches none of the personal-data words, so it is never redacted |
| Json.StoredLookup | api/shared/logger.js:32-40 | after entries are assigned into a fresh object, `__proto__` reads nothing and every other key reads what it read before |
| Logger.SanitizeSafe | api/shared/logger.js:12-45 | every scrubbed value respects the bounds, and every personal-data key holds the redaction marker |
| Logger.SanitizeIdempotent | api/shared/logger.js:12-45 | scrubbing twice is scrubbing once |
| Logger.PiiAnyCase | api/shared/logger.js:10 | a personal-data word is recognised in any case and anywhere in a key |

## Left out

- `Coercion`: JavaScript's `String(n)` and `Number(s)` on numbers are an
  uninterpreted parameter. No property depends on how a number prints.
- JSON parsing, template file reads, the HTTP call to the model, the DOCX
  packer and renderer, and the blob upload are parameters. Their own
  behaviour is not modelled.
- Clocks, `crypto.randomUUID` and elapsed-time measurement are parameters.
- CORS and other response headers, apart from the rate-limit headers, are
  not modelled. Logger calls made by the handlers are not modelled either.
- Thrown values that are not `Error` objects are not modelled. Every thrown
  value has a message and an optional status code.
- Text.LowerChar: lower-cases ASCII and Latin-1 (U+00C0 to U+00DE) only.
  `toLowerCase` folds every Unicode letter, so `"Ā"` and `"ā"` are one
  entry in the source and two in the model.
- Text.Lower: the same limit as `Text.LowerChar`. The regular expressions
  with the `i` flag (the logger's personal-data pattern, the bearer
  pattern) inherit it.
- Assemble.NormalizeDocsList: case-insensitive deduplication uses
  `Text.Lower`, so only ASCII and Latin-1 letters fold.
- Validate.ValidateDraftInput: the defendant-address length check (at
  validate.js:138) counts Unicode scalars. The source counts UTF-16 code
  units, so six emoji are 6 characters here and 12 there.
- Text.Clip: lengths and cuts are in Unicode scalars, not UTF-16 units. A
  cut in the source can split a surrogate pair; here it cannot.
- Prompt.ClipField: inherits `Text.Clip`'s counting in scalars.
- CallModel.Truncate: inherits the same difference, for the 25000-character
  output limit.
- NormAlert: a truthy non-string `code` or `message` is turned into a
  string. parseModel.js:179-180 keeps such a value unchanged, so
  `{"code": 42}` stays the number 42 in the source.
- ParseModel.ParseModel: its alerts inherit `NormAlert`'s stringification.
- Assemble.LabelOf: only `constructor` and `__proto__` are modelled among
  the inherited names. They are the only `Object.prototype` members whose
  names are all lower-case, so no other key can reach one.
- Export.OverLimitIs429: when the limiter refuses, it has already sent its
  own 429 body with the wait (rateLimit.js:46-61) before it throws. The
  endpoint's catch then tries to answer a second time, which the platform
  ignores. The model answers with the catch's envelope, so the client's
  real body is `RateLimit.RejectionBody`, not this one.
- Handler.Caught: the same holds for the draft endpoint's catch after a
  refusal by the limiter (cobranca.js:50).
- Jobs.Status: the same holds for the status endpoint. After a refusal,
  the limiter has already sent its 429 `RejectionBody` (rateLimit.js:46-61)
  when the catch answers 500 (cobrancaStatus.js:24, 63-66). The model
  gives the catch's 500, so the client's real reply is the 429.
- Logger.Sanitize: the `"[UNSERIALIZABLE]"` fallback for values that fail
  to serialise is left out, since JSON values always serialise.
- `renderHtmlRelatorio` (htmlRender.js:3-58), the full report page
  template, is left out. Only its fragment helpers are modelled.
- `formatBRL` (docx.js:82-89) is left out. Currency formatting goes through
  `Intl.NumberFormat`, which is locale data and floating point.
- `readJsonBody` (docx.js:57-72): the body stream is a parameter that is
  already read. Its size limit is not modelled.
- Paragraph spacing, alignment and fonts of the generated DOCX are left
  out. The model keeps only the order and kind of its blocks.
- `fetchWithTimeout` and the `AbortError` path of the model call are left
  out. `CallModel.CallModel` takes the HTTP reply as a parameter, and a
  reply cannot carry a rejected fetch. So the `"Timeout ao chamar OpenAI"`
  error and any other rejection of `fetch` do not appear in the model.
- Json.Lookup: returns the first entry of a key, where `JSON.parse` keeps
  the last of duplicated keys. The parser is a parameter of the model, and
  every object the modelled code builds holds each key once, so the two
  agree except on parser results with a duplicated key.

## Findings

| source | as written | input that shows it | evidently intended | confidence | as-written member | corrected member |
|---|---|---|---|---|---|---|
| src/draft-cobranca/callModel.js:79 | `truncated` compares the output's length with the truncated text's length | a model output of 25001 `a`s: the cut text plus the ellipsis is also 25001 long, so `truncated` is false | `truncated` is true exactly when the text was cut | not executed | CallModel.TruncatedAsWrittenMisses | CallModel.TruncatedIffCut |
| api/draft/cobrancaStart.js:62-73 | `rateLimit(req, opts)` passes the options where the response belongs, so it returns nothing and reading `.ok` throws | any POST, for example a valid payload | the limiter is called with `(req, res, opts)` and the job is started | not executed | Jobs.StartAsWrittenNeverStarts | Jobs.Start |
| api/draft/cobranca/docx.js:100 | `padPadStart` is not a function, so building the place-and-date line throws | any authorised, complete request | the day and month are zero-padded with `padStart` | not executed | DocxDraft.AsWrittenNeverExports | DocxDraft.CorrectedExports |
