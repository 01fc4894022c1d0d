# mockcat generation route, modelled in Dafny

mockcat generates mock table records with a generative model. Its only
server-side logic is the `POST` handler of `app/api/generate/route.ts` and
the input sanitizer `sanitizeInput` of `app/api/generate/utils.ts`. This
project models both and proves what they promise.

- `sanitize.dfy` (module `Sanitize`) models `sanitizeInput` as its three
  global rewrites in order. Each rewrite is a left-to-right scan with the
  regular expression's own matching rules:
  - a `<script` block, followed by a word boundary and ending at the first
    `</script>`, in any letter case. Without the `u` flag, `i` never folds a
    non-ASCII character into an ASCII one, so folding ASCII letters matches
    these ASCII patterns exactly;
  - a `<` up to the first `>` after it;
  - whitespace runs, then `trim()`, both with JavaScript's whitespace set.
- `extraction.dfy` (module `Extraction`) models the greedy `/\[[\s\S]*\]/`
  match. It runs from the first `[` to the last `]` after it.
- `route.dfy` (module `Route`) models the handler:
  - request defaults (`recordCount || 5` clamped to 200, `language || "en"`);
  - the parse fallback of `generateDataBatch`;
  - the retry loop of one batch as the function `Retry` and the method
    `RetryBatch`;
  - the batch loop as a state machine: `Pass` is one pass of the outer
    `while`, `RunLoop` runs it to the end, and `Serve` answers from its
    final state;
  - the whole handler as the function `Handle` and the method `Post`.
  `Post` is written as the source's code: the two checks and the request
  defaults, then the outer `while` as the method `BatchLoop`, whose inner
  loop is `RetryBatch`. Each method's postcondition says that it computes
  exactly what its function specifies, prompts and waits included.
- `route_properties.dfy` (module `RouteProperties`) proves the driver's
  promises about `Retry`, `Pass`, `RunLoop` and `Handle`.
- `strings.dfy` and `wrappers.dfy` hold `indexOf`/`lastIndexOf` and `Option`.

How the outside world enters the model:

- Each `generateDataBatch` call is an oracle, `generate(i, prompt)`: the
  outcome of the request's i-th call for that prompt. `GenerateDataBatch`
  shows what such an outcome is made of. It takes the model's reply from a
  second oracle (`Oracle.model`), and then the parse fallback `ParseReply`
  with `JSON.parse` as a parameter. `Calls` turns such a pair into the
  batch oracle.
- The lemmas about the retry and batch loops hold for every such oracle,
  including those `Calls` builds (`GenerateDataBatchOutcomes` says what those
  can throw).
- The backoff delays are returned as a list of milliseconds; no time passes.
- The API key is a parameter, and the request body is a value whose missing
  fields are `None`.

Behaviour of the code worth knowing:

- A negative `recordCount` passes the clamp at route.ts:76 unchanged, since
  `Math.min(-3, 200)` is `-3`. The loop is then skipped, and the answer is a
  success with no records whose `requestedCount` is negative.
- The route sanitizes the structure itself (route.ts:77). Every prompt carries
  the sanitized text, and `HandlePrompts` and `PromptsAreSanitized` prove this.
- The loop at route.ts:84-121 always ends. A pass either appends a non-empty
  batch, which lowers `remainingCount` by at least one, or stops the loop. So a
  request makes at most three calls per record wanted, 600 in all
  (`LoopCalls`, `HandlePrompts`).
- The comment at route.ts:105 speaks of checking "the correct size", but only
  non-emptiness is checked. A batch larger than asked for is kept whole, so a
  response can hold more than the clamped count, even more than 200
  (`OversizedBatchKept`).

## Model

| member | source | states |
|---|---|---|
| Sanitize.FindClose | app/api/generate/utils.ts:3 | the `</script>` a block ends with is the first one, in any case, at or after the position; none lies before it |
| Sanitize.ScriptBlockEnd | app/api/generate/utils.ts:3 | the match of the whole script regex at one position; stated by `ScriptBlockRemoved`, `TextBeforeScriptKept` and `PlainTextHasNoBlock` |
| Sanitize.StripScripts | app/api/generate/utils.ts:3 | deleting script blocks never lengthens the text |
| Sanitize.StripScriptsKeepsTagless | app/api/generate/utils.ts:3 | text with no tag has no script block, and the script rewrite leaves it unchanged |
| Sanitize.ScriptBlockRemoved | app/api/generate/utils.ts:3 | a `<script` block, with a word boundary after the opening and ending at its first `</script>` in any letter case, is deleted together with its contents, and the text before it is kept when no block starts there (ordinary tags may) |
| Sanitize.TextBeforeScriptKept | app/api/generate/utils.ts:3 | text in which no closed script block starts, ordinary tags included, is kept unchanged by the script rewrite, whatever follows it |
| Sanitize.PlainTextHasNoBlock | app/api/generate/utils.ts:3 | no script block starts inside text without a `<` |
| Sanitize.StripTags | app/api/generate/utils.ts:6 | deleting tags never lengthens the text |
| Sanitize.StripTagsKeepsCharacters | app/api/generate/utils.ts:6 | tag removal only deletes: no character absent from the input appears in the output |
| Sanitize.StripTagsLeavesNoTag | app/api/generate/utils.ts:6 | after tag removal no `<` is followed anywhere later by a `>` |
| Sanitize.StripTagsKeepsTagless | app/api/generate/utils.ts:6 | text with no tag is unchanged by tag removal |
| Sanitize.TagRemoved | app/api/generate/utils.ts:6 | a tag from `<` to the first `>` after it is deleted and the text before it is kept |
| Sanitize.TextBeforeTagKept | app/api/generate/utils.ts:6 | text with no `<` is kept unchanged by the tag rewrite, whatever follows it |
| Sanitize.DropSpaces | app/api/generate/utils.ts:9 | the result is a suffix of the input; every character dropped is whitespace and the first one kept is not; the non-whitespace text is unchanged |
| Sanitize.DropTrailingSpaces | app/api/generate/utils.ts:9 | the result is a prefix of the input; every character dropped is whitespace and the last one kept is not; the non-whitespace text is unchanged |
| Sanitize.Trim | app/api/generate/utils.ts:9 | `trim()`; its properties are stated by `TrimTrims` |
| Sanitize.DropTrailingSpacesKeepsHead | app/api/generate/utils.ts:9 | trailing whitespace is cut only after the last non-whitespace character: text before it is kept |
| Sanitize.TrimTrims | app/api/generate/utils.ts:9 | `trim()` gives a slice of its input with only whitespace before and after it and none at its own ends; it keeps the non-whitespace text in order, and leaves input without edge whitespace unchanged |
| Sanitize.SquashRuns | app/api/generate/utils.ts:9 | only empty input gives empty output; the non-whitespace text is kept, in order; a leading non-whitespace character stays first; with `SquashRunsKeepsHead` and `SquashRunsRun` these fix the result for every input |
| Sanitize.SquashRunsKeepsCharacters | app/api/generate/utils.ts:9 | `replace(/\s+/g, " ")` introduces no character but the space: any other character absent from the input is absent from the output |
| Sanitize.SquashRunsSquashes | app/api/generate/utils.ts:9 | after `replace(/\s+/g, " ")` every whitespace character is a plain space and no two are adjacent |
| Sanitize.SquashRunsKeepsNoTag | app/api/generate/utils.ts:9 | collapsing whitespace cannot create a tag |
| Sanitize.SquashRunsRun | app/api/generate/utils.ts:9 | a whole whitespace run of any length at the start of the text, followed by a non-whitespace character or the end, becomes exactly one space; `SquashRunsAfterText` extends this to a run after other text |
| Sanitize.SquashRunsKeepsHead | app/api/generate/utils.ts:9 | a non-whitespace character is copied and the rewrite carries on after it |
| Sanitize.SquashRunsAfterText | app/api/generate/utils.ts:9 | a whole whitespace run after whitespace-free text becomes exactly one space, the text before it kept as it is |
| Sanitize.SquashRunsFixesSquashed | app/api/generate/utils.ts:9 | text whose whitespace is already single plain spaces is unchanged |
| Sanitize.CollapseWhitespace | app/api/generate/utils.ts:9 | the third rewrite; its properties are stated by the four lemmas below |
| Sanitize.CollapseWhitespaceNormalizes | app/api/generate/utils.ts:9 | the result is collapsed and trimmed, and it has no tag if the input had none |
| Sanitize.CollapseWhitespaceKeepsNormal | app/api/generate/utils.ts:9 | text already collapsed and trimmed is unchanged |
| Sanitize.CollapseWhitespaceKeepsText | app/api/generate/utils.ts:9 | the third rewrite changes only whitespace: the other characters are kept, in order |
| Sanitize.CollapseWhitespaceAfterWord | app/api/generate/utils.ts:9 | an interior whitespace run after a word becomes exactly one space, and the rest of the text is collapsed on its own |
| Sanitize.SanitizeInput | app/api/generate/utils.ts:1-12 | the three rewrites in source order; its properties are stated by the six lemmas below |
| Sanitize.SanitizeOutput | app/api/generate/utils.ts:1-12 | every sanitized string has no tag, no whitespace other than single spaces, and no whitespace at either end |
| Sanitize.SanitizeFixedPoint | app/api/generate/utils.ts:1-12 | the sanitizer returns its input unchanged exactly when the input has no tag and is already collapsed and trimmed |
| Sanitize.SanitizeIdempotent | app/api/generate/utils.ts:1-12 | sanitizing twice gives the same as sanitizing once |
| Sanitize.SanitizeKeepsText | app/api/generate/utils.ts:1-12 | text without a tag loses only whitespace: its other characters are all kept, in order |
| Sanitize.SanitizeAfterWord | app/api/generate/utils.ts:1-12 | in text without a tag, a whitespace run after a word becomes exactly one space, and the rest is sanitized on its own |
| Sanitize.TwoSpacesBecomeOne | app/api/generate/utils.ts:1-12 | two non-whitespace characters other than `<` separated by two spaces, such as "a  b", come out separated by one space; `SanitizeAfterWord` covers whole words |
| Extraction.BracketSpan | app/api/generate/route.ts:46-47 | the greedy match exists exactly when some `[` has a `]` after it; it runs from the first `[` to the last `]` |
| Extraction.WrappedSpanRecovered | app/api/generate/route.ts:46-48 | a bracketed text wrapped in prose with no `[` before it and no `]` after it is extracted exactly |
| Route.Message | app/api/generate/route.ts:128-131 | the `error` text of a 500: the thrown error's message, or "Failed to generate mock data" for a thrown non-`Error`; used by `HandleResponses` |
| Route.ParseReply | app/api/generate/route.ts:41-51 | the parse fallback; its outcomes are stated by `ParseReplyOutcomes` |
| Route.GenerateDataBatch | app/api/generate/route.ts:37-51 | one model call and the parse of its reply; stated by `GenerateDataBatchOutcomes` |
| Route.Retry | app/api/generate/route.ts:89-103 | the retry loop of one batch; stated by `RetryPolicy` and `RetryWaits`, computed by `RetryBatch` |
| Route.BatchError | app/api/generate/route.ts:109-118 | the error the catch block sees: the thrown error, or "Generated batch data is not a valid array"; stated by `PassFacts` and `PassFirstCallReturns` |
| Route.Pass | app/api/generate/route.ts:85-119 | one pass of the outer loop; stated by `PassFacts`, `PassFirstCallReturns`, `PassSecondCallReturns` and `PassProgresses` |
| Route.RunLoop | app/api/generate/route.ts:84-121 | the outer loop run to its end; stated by `LoopExtends`, `LoopOutcome` and `LoopCalls`, computed by `BatchLoop` |
| Route.Respond | app/api/generate/route.ts:123-131 | the success body or the 500 body built from the loop's end state; stated by `ServeResponses` and `HandleResponses` |
| Route.Serve | app/api/generate/route.ts:80-127 | the handler after both checks: the loop from the clamped count, then the response; stated by `ServeResponses`, `ServePrompts` and `ServeExact` |
| Route.Handle | app/api/generate/route.ts:54-133 | the handler; stated by `HandleResponses`, `HandlePrompts` and `ExactHandle`, computed by `Post` |
| Route.EffectiveCount | app/api/generate/route.ts:76 | the count never exceeds 200; a missing or zero count becomes 5; counts from 1 to 200 are kept; larger ones become 200; negative ones pass through |
| Route.EffectiveLanguage | app/api/generate/route.ts:78 | the language is never empty; a missing or empty language becomes "en", and any other is kept |
| Route.RetryBatch | app/api/generate/route.ts:89-103 | the inner `while` computes exactly the outcome, the number of calls and the waits that `Retry` specifies |
| Route.PassProgresses | app/api/generate/route.ts:84-121 | every pass of the outer loop either lowers the records still wanted or stops the loop |
| Route.BatchLoop | app/api/generate/route.ts:81-121 | the outer `while` returns the records, the error thrown before any record, the prompts sent and the waits that `RunLoop` specifies from the start state |
| Route.Post | app/api/generate/route.ts:54-133 | the handler's loops return the response, the prompts sent and the waits that `Handle` specifies |
| RouteProperties.RetryPolicy | app/api/generate/route.ts:89-103 | from any attempt on, the loop makes between one call and the attempts left; its outcome is its last call's; every earlier call threw; it throws only when the attempts are used up; the n-th failure is followed by an n-second wait |
| RouteProperties.RetryWaits | app/api/generate/route.ts:89-103 | a batch is sent one to three times; the waits are `[]`, `[1000]` or `[1000, 2000]`; it fails exactly when all three calls throw |
| RouteProperties.ParseReplyOutcomes | app/api/generate/route.ts:41-51 | a reply that parses is taken whole; otherwise its first-`[`-to-last-`]` span is parsed, and a parse error there is returned; "No valid JSON found" comes exactly when the reply does not parse and has no such span |
| RouteProperties.ProseWrappedReply | app/api/generate/route.ts:41-51 | a JSON array wrapped in prose or code fences is parsed as the array |
| RouteProperties.GenerateDataBatchOutcomes | app/api/generate/route.ts:37-51 | a batch call throws only what the model call or the parse threw (never a missing key or an invalid batch); a thrown model call is not parsed; a reply is parsed as `ParseReply` says |
| RouteProperties.PassFacts | app/api/generate/route.ts:84-119 | one pass sends `min(remaining, 20)` one to three times, waits one or two seconds between calls, records exactly the prompts and waits of its retrying, and appends the batch the retrying returned, whole after the records so far and counted off by its length, exactly when it is a non-empty array, whichever call returned it; otherwise it keeps the records and stops, throwing the batch's error only when there are none yet |
| RouteProperties.PassFirstCallReturns | app/api/generate/route.ts:93-111 | a call that returns is not retried: a non-empty array is appended whole and counted off by its actual length; anything else stops the loop, keeping earlier records or failing as an invalid batch |
| RouteProperties.PassSecondCallReturns | app/api/generate/route.ts:93-108 | a batch that arrives on the second call, after the first threw, is appended whole and counted off after one wait of one second |
| RouteProperties.LoopExtends | app/api/generate/route.ts:84-121 | the loop only appends records, prompts and waits, in order |
| RouteProperties.LoopOutcome | app/api/generate/route.ts:84-121 | the loop throws only in a rejected first pass, which is then the whole run; otherwise nothing is left to ask for; records plus remaining stay equal to the start value unless a failure after some records cut the loop short, which leaves fewer |
| RouteProperties.LoopCalls | app/api/generate/route.ts:84-103 | every prompt carries the given structure and language and asks for 1 to 20 records, never more than the loop started with (each pass asks for `min(remaining, 20)` by `PassFacts`); at most one batch per record wanted, and at most three calls and two waits per record, each wait one or two seconds |
| RouteProperties.AcceptingLoop | app/api/generate/route.ts:84-121 | when every batch is a non-empty array the loop gets at least what it set out to get, never waits, and makes at most one call per record |
| RouteProperties.ExactLoop | app/api/generate/route.ts:84-121 | when every batch is exactly what was asked, the loop makes ceil(n/20) calls of 20 records but the last and gets exactly n records |
| RouteProperties.ServeResponses | app/api/generate/route.ts:84-127 | after both checks the answer is a 500 with the first batch's error after at most three calls, or the records with their count and the requested count, with records exactly when some were asked for |
| RouteProperties.HandleResponses | app/api/generate/route.ts:54-133 | the answer is a 500 for a missing key or a 400 for a missing structure, before any call; or a 500 with the first batch's error after at most three calls; or the records with `generatedCount` equal to their number and `requestedCount` equal to the clamped count, with records exactly when some were asked for |
| RouteProperties.ServePrompts | app/api/generate/route.ts:84-103 | after both checks every prompt carries the given structure and language and asks for 1 to 20 records; at most one batch, three calls and two waits of one or two seconds per record wanted |
| RouteProperties.HandlePrompts | app/api/generate/route.ts:54-103 | no call is made unless both checks pass; every prompt carries the sanitized structure and the effective language and asks for 1 to 20 records; a request makes at most 600 calls and 400 waits |
| RouteProperties.PromptsAreSanitized | app/api/generate/route.ts:77-95 | the structure in every prompt has no tag, no whitespace but single spaces, and none at either end |
| RouteProperties.ServeExact | app/api/generate/route.ts:84-127 | with a backend that delivers exactly what is asked, the loop answers with exactly `count` records after ceil(count/20) calls and no waits |
| RouteProperties.ExactHandle | app/api/generate/route.ts:76-127 | with a backend that delivers exactly what is asked, the response has `generatedCount == requestedCount ==` the clamped count, after ceil(count/20) calls and no waits |
| RouteProperties.TwentyFiveRecords | app/api/generate/route.ts:84-108 | 25 records are requested as a batch of 20 and then a batch of 5 |
| RouteProperties.TenThousandRecords | app/api/generate/route.ts:76-108 | 10000 records are clamped to 200 and requested as ten batches of 20 |
| RouteProperties.OversizedBatchKept | app/api/generate/route.ts:105-108 | a batch larger than asked is not truncated, and all its records are returned |
| RouteProperties.PartialSuccess | app/api/generate/route.ts:112-119 | when a later batch fails three times after earlier data, the loop returns exactly the earlier records and no error |
| RouteProperties.FirstBatchFails | app/api/generate/route.ts:89-119 | a first batch whose three calls throw fails the request with that error, after waits of one and two seconds |

## Left out

- The Gemini SDK (route.ts:37-39, 61-68) is a network call. Its replies are the oracle `Oracle.model`.
- The grammar of `JSON.parse` is a library's. It is the parameter `Oracle.parse`, and parsed values are kept coarse (`Json`).
- The prompt template (route.ts:14-35) is natural-language text. A prompt is modelled as the three values it embeds: structure, batch size and language.
- Real time in the `setTimeout` backoff (route.ts:101) is not modelled. The delays are recorded instead.
- `req.json()` failing on a malformed body is not modelled. The request is already a value.
- `inputFormat` is read but never used by the source, so it is absent from `Request`.
- `process.env`, `NextResponse` and `console.error` are I/O. Only the status and the error text of a response are kept.
- Route.EffectiveCount: `recordCount` is an integer or absent. A string, fractional or `NaN` count from the JSON body, and JavaScript's `Math.min` on it, are not modelled.
- Route.Post: an error thrown by a model call counts as a string message or none. A thrown non-`Error` value is the `None` case, which gives "Failed to generate mock data". Its other contents are not modelled.
- Sanitize.SanitizeInput: strings are sequences of Unicode scalar values. An unpaired UTF-16 surrogate, which a JavaScript string may hold, cannot be represented. An astral character is one character here and two code units in JavaScript; none of the three rewrites treats the two differently.
- Route.Handle: `tableStructure` and `language` are strings or absent. A truthy non-string `tableStructure` (such as `123`) makes `input.replace` throw at utils.ts:3, which route.ts:128-131 answers with a 500 carrying that error's message; a non-string `language` goes into the prompt as it is. Neither case is modelled.
- The UI (`app/page.tsx`), the language context, the translation tables and the layout are not part of this model.
