# Batch translation pipeline for a glossary — Dafny model

The system prepares a glossary of system-development terms for a language-model
batch job and then checks what the job returned. This project models the pure
logic of both halves as its test suite pins it down:

- **Request preparation.** `convertTermData` flattens a term. Its definitions
  array becomes one string. `convertTermsToJSONL` writes one `JSON.stringify`d
  term per line. `splitTermsIntoChunks` cuts the term list into groups of 100.
  `createPromptTemplate` embeds a JSONL payload in fixed prompt text.
  `generateApiRequests` makes one request per chunk: `custom_id` `req-1`,
  `req-2`, …, method `POST`, url `/v1/responses`, model `o3-mini`, and a
  system message followed by a user message that carries the prompt.
  The prepared requests become the JSONL batch file, one request per line.
- **Batch-output check** (`check-batch-output`). It reconciles the input terms
  with the batch results (`number`, `name_ja`, `categories`). It lists, in
  input order, every term with a problem, together with its causes:
  - `No batch result found`: no result carries the term's number. No other
    cause is then checked.
  - `Missing Japanese name translation`: `name_ja` is empty.
  - `No categories assigned`: `categories` is empty.

  The first result with a given number wins. The translation cause comes
  before the category cause. Terms with no problem are left out.

Modules: `Text` (infix, join/split, decimal numbers), `Json` (string escaping
as `JSON.stringify` does it, plus a decoder), `Terms`, `Chunking`, `Requests`,
`BatchCheck`, and `Scenarios` (the concrete test scenarios). `Wrappers` holds
`Option`.

Each operation has a partner it is proved against:
- The JSON string encoder and the term and JSONL serialisers have decoders,
  with round-trip lemmas.
- Request ids are parsed back to their positions, which shows the ids are
  distinct.
- The prompt gives its payload back, and the payload decodes to the chunk's
  terms.
- The chunker's groups concatenate back to the input.
- The batch check has an independent characterisation: which entries, their
  causes, and their input positions in order. It also has an indexed
  implementation, `CheckBatchOutputIndexed`, which builds a first-occurrence
  map of the results once. That implementation is proved to produce the same
  report.

The default chunk size is 100, because 150 terms split into 100 + 50
(tests/main.test.ts:47-53).

## Model

| member | source | states |
|---|---|---|
| Terms.ConvertTermDataSpec | tests/main.test.ts:26-34 | conversion keeps number and name; a single definition becomes exactly its text; every definition's text survives in the flattened string |
| Terms.JsonlOfOneTerm | tests/main.test.ts:36-45 | the JSONL of a one-term list is that term's serialisation, with no separator |
| Terms.JsonlRoundTrip | tests/main.test.ts:36-45 | the JSONL payload splits into exactly one line per term and decodes back to the converted terms in input order |
| Terms.DecodeSerializeTerm | tests/main.test.ts:38-43 | `JSON.stringify` of a converted term is lossless: decoding it gives the term back |
| Terms.JsonlContainsNames | tests/main.test.ts:66-75 | every term name that needs no escaping appears verbatim in the JSONL payload |
| Json.EscapeChar | tests/main.test.ts:38-43 | a character is copied unchanged exactly when it needs no escape; no escape contains a raw line feed |
| Json.ParseQuoted | tests/main.test.ts:38-43 | decoding an escaped string gives it back and stops right after the closing quote |
| Json.QuoteInjective | tests/main.test.ts:38-43 | distinct strings have distinct JSON string literals |
| Json.EscapeHasNoLineFeed | tests/main.test.ts:36-45 | an encoded string never contains a raw line feed, so each serialised record fits on one JSONL line |
| Chunking.SplitIntoChunks | tests/main.test.ts:47-53 | chunks concatenate back to the input; none is empty or larger than the size; all but the last are full; the count is the number of started blocks |
| Requests.PromptEmbedsPayload | tests/main.test.ts:80-88 | the prompt contains its JSONL payload verbatim, and the payload can be cut back out of it exactly |
| Requests.PromptKeepsHeadings | tests/main.test.ts:84-87 | whatever the payload, the prompt keeps the four required headings of its fixed text |
| Requests.ParseCustomIdRoundTrip | tests/main.test.ts:61 | a `req-N` custom id parses back to N |
| Requests.ParseCustomIdCanonical | tests/main.test.ts:61 | only the canonical text `req-N` (no leading zeros) parses to N, so the parsed position pins the id text |
| Requests.GenerateApiRequestsSpec | tests/main.test.ts:55-78 | one request per chunk, in order; request i has id exactly `req-` followed by the decimal digits of i+1, which parses back to i+1, method POST, url /v1/responses, model o3-mini, a system message followed by a user message, and a user payload that decodes to exactly its chunk's converted terms |
| Requests.FirstRequestId | tests/main.test.ts:59-61 | the first request's custom id is `req-1` |
| Requests.RequestIdsDistinct | tests/main.test.ts:55-65 | no two requests share a custom id |
| Requests.UserContentMentionsNames | tests/main.test.ts:66-75 | a request's user message mentions the name of every term of its chunk that needs no escaping |
| Requests.BatchFileLines | tests/main.test.ts:168-175 | the batch file holds exactly one line per request: one per started block of 100 terms |
| Requests.BatchFileMentionsFirstRequest | tests/main.test.ts:172-175 | for a non-empty term list the batch file mentions `req-1` |
| BatchCheck.FindResult | tests/main.test.ts:112-124 | finds nothing exactly when no result carries the number; otherwise returns the first result that does |
| BatchCheck.CausesOf | tests/main.test.ts:112-124 | no result gives exactly the missing-result cause; otherwise the translation and category causes appear exactly when `name_ja` or `categories` is empty, in that order |
| BatchCheck.CauseMessageInjective | tests/main.test.ts:145-153 | the three causes are written as three different messages |
| BatchCheck.CheckBatchOutputEntries | tests/main.test.ts:141-155 | every report entry is an input term with its own non-empty causes, and every input term with a problem is reported |
| BatchCheck.ProblemPositions | tests/main.test.ts:142-155 | the positions of the problem terms, strictly increasing, containing a position exactly when that term has a problem |
| BatchCheck.CheckBatchOutputOrder | tests/main.test.ts:142-155 | the report's entries are the terms at the problem positions, in input order |
| BatchCheck.CheckBatchOutputAppend | tests/main.test.ts:142-155 | checking a concatenation of term lists gives the concatenation of their reports: each term's entry depends only on that term and the results |
| BatchCheck.CheckWithoutResults | tests/main.test.ts:151-154 | with no results at all, every term is reported once, in order, as missing its result |
| BatchCheck.CheckAllClean | tests/main.test.ts:141-155 | the report is empty exactly when every term's first matching result exists and has both a translation and categories; results for other numbers and later duplicates are irrelevant |
| BatchCheck.CheckBothMissing | tests/main.test.ts:112-122 | a result with neither translation nor categories gives both causes, translation first |
| BatchCheck.IndexResults | tests/main.test.ts:112-124 | the one-pass number index agrees with the first-match lookup for every number |
| BatchCheck.CheckBatchOutputIndexed | tests/main.test.ts:141-155 | the check with indexed results produces exactly the same report as the scanning definition |
| Scenarios.ConvertMockTerm | tests/main.test.ts:26-34 | the mock term converts to number 1.1, name "acceptance criteria" and its definition text |
| Scenarios.MockTermsJsonl | tests/main.test.ts:36-45 | the JSONL of the mock list equals the serialisation of the expected object |
| Scenarios.HundredFiftyTermsMakeTwoChunks | tests/main.test.ts:47-53 | 150 terms make two chunks, of 100 and 50 terms |
| Scenarios.MockRequest | tests/main.test.ts:55-77 | the one-chunk input gives one request `req-1` with POST, /v1/responses, o3-mini, and a system then a user message |
| Scenarios.MockRequestMentionsName | tests/main.test.ts:73 | that request's user message contains "acceptance criteria" |
| Scenarios.PromptTemplateScenario | tests/main.test.ts:80-89 | the prompt for `{"test": "data"}` contains the four headings and the payload |
| Scenarios.ScenarioCauses | tests/main.test.ts:112-124 | 1.1 gets only the translation cause, 1.2 only the category cause, 1.3 only the missing-result cause, with the expected messages |
| Scenarios.CheckThreeProblemTerms | tests/main.test.ts:142-155 | three terms that all have problems are reported in input order with their causes |
| Scenarios.CheckBatchOutputScenario | tests/main.test.ts:93-155 | the three-term scenario gives exactly three entries, for 1.1, 1.2 and 1.3 in that order, with the expected causes |
| Scenarios.MainWritesFirstRequest | tests/main.test.ts:168-175 | preparing requests for the mock input writes a batch file that mentions `req-1` |

## Left out

- File reading and writing, and the fixed paths `data/input.json`, `data/output.jsonl` and `data/errors.json`. They are I/O. The model works on the data already read and the text to be written.
- Propagation of a read failure out of `main()`. It is exception plumbing around I/O.
- The text of the system message and the prose of the prompt template. That text is not part of this model. The system text is a parameter. The prompt's fixed text is a `PromptFrame` of text before and after the payload. The four headings the prompt must carry are a condition on that frame (`HasRequiredHeadings`).
- The pretty-printed layout of `data/errors.json`. The report is modelled as its entries and the cause messages they carry.
- Parsing whole JSON documents. JSON is modelled only for the string-valued records this pipeline writes.
- `Json.DecodeEscape`: does not combine `\u` surrogate pairs. The encoder never writes them.
- The language-model batch API, and the parsing of its response lines. These are external.
- Optional term fields (`confer`, `note`). The tests never use them.
- `Terms.ConvertTermData` with several definitions, or with a definition that has a `reference`. Only a single definition without a reference is pinned down. Dropping the `reference` is a modelling choice. So is joining the texts of several definitions with a line feed.
- `Chunking.SplitIntoChunks`: requires a positive chunk size. A zero size is never used (the default is 100).
- `Requests.SerializeRequest`: writes the keys in the order `custom_id`, `method`, `url`, `body`. The request serialisation itself is not pinned down beyond containing `req-1`.
- Calling the check twice on the same inputs gives equal reports. This holds because every member is a pure function, so no lemma states it.
