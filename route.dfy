/**
 * The POST handler that generates mock records in batches.
 *
 * The batch loop sees each call of `generateDataBatch` as an oracle,
 * `generate(i, prompt)`: the outcome of the request's i-th call (counting
 * from 0) for that prompt. `GenerateDataBatch` says what such an outcome is
 * made of: a model reply (another oracle, `Oracle.model`) and the parse of
 * that reply, with `JSON.parse` as the parameter `Oracle.parse`. Waiting
 * between retries is recorded as the list of delays, in milliseconds, that
 * the handler waits for; no time passes in the model.
 *
 * The handler is the method `Post`, written as the source's nested loops. It
 * is proved equal to the function `Handle`, which the lemmas in
 * RouteProperties reason about.
 */
module Route {
  import opened Wrappers
  import opened Extraction
  import opened Sanitize

  const MAX_BATCH_SIZE := 20
  const MAX_RECORDS := 200
  const DEFAULT_RECORDS := 5
  const MAX_ATTEMPTS := 3
  const BACKOFF_STEP_MS := 1000
  const DEFAULT_LANGUAGE := "en"
  const STRUCTURE_REQUIRED := "Table structure is required"

  /** Everything the handler can throw. */
  datatype Error =
    | MissingApiKey
      /** The model call threw; `None` when what it threw is not an Error object. */
    | ModelCallFailed(thrown: Option<string>)
      /** `JSON.parse` threw on the bracketed span of the reply. */
    | SyntaxError(message: string)
    | NoJsonFound
    | InvalidBatch

  /** The `error` text of the 500 response for a thrown error. */
  function Message(e: Error): string {
    match e
    case MissingApiKey => "GEMINI_API_KEY is not set in the environment variables"
    case ModelCallFailed(m) => if m.Some? then m.value else "Failed to generate mock data"
    case SyntaxError(m) => m
    case NoJsonFound => "No valid JSON found in AI response"
    case InvalidBatch => "Generated batch data is not a valid array"
  }

  datatype Result<T> = Ok(value: T) | Err(error: Error)

  /** The request body; a field the client left out is `None`. */
  datatype Request = Request(tableStructure: Option<string>, recordCount: Option<int>, language: Option<string>)

  /** What a prompt is built from: the sanitized structure, the number of
      records asked for and the language. */
  datatype Prompt = Prompt(structure: string, batchSize: int, language: string)

  /** What one model call gives back. */
  datatype Reply = Text(text: string) | Threw(message: Option<string>)

  datatype Oracle = Oracle(model: (nat, Prompt) -> Reply, parse: string -> ParseOutcome)

  datatype Response =
    | Success(mockData: seq<Json>, generatedCount: int, requestedCount: int)
    | Failure(status: int, error: string)

  // ---------------------------------------------------------------------------
  // Request defaults

  /** A string field is "truthy" when it is present and not empty. */
  predicate Truthy(s: Option<string>) {
    s.Some? && s.value != ""
  }

  function Min(a: int, b: int): int {
    if a < b then a else b
  }

  /** `Math.min(recordCount || 5, 200)`. */
  function EffectiveCount(recordCount: Option<int>): (count: int)
    ensures count <= MAX_RECORDS
    ensures recordCount.None? || recordCount.value == 0 ==> count == DEFAULT_RECORDS
    ensures recordCount.Some? && 0 < recordCount.value <= MAX_RECORDS ==> count == recordCount.value
    ensures recordCount.Some? && recordCount.value > MAX_RECORDS ==> count == MAX_RECORDS
    ensures recordCount.Some? && recordCount.value < 0 ==> count == recordCount.value
  {
    var requested := if recordCount.None? || recordCount.value == 0 then DEFAULT_RECORDS else recordCount.value;
    Min(requested, MAX_RECORDS)
  }

  /** `language || "en"`. */
  function EffectiveLanguage(language: Option<string>): (l: string)
    ensures l != ""
    ensures Truthy(language) ==> l == language.value
    ensures !Truthy(language) ==> l == DEFAULT_LANGUAGE
  {
    if Truthy(language) then language.value else DEFAULT_LANGUAGE
  }

  // ---------------------------------------------------------------------------
  // One batch: model call and parse (generateDataBatch)

  /** Strict parse of the whole reply, then of its bracketed span. */
  function ParseReply(text: string, parse: string -> ParseOutcome): Result<Json>
  {
    match parse(text)
    case Parsed(v) => Ok(v)
    case Unparsable(_) =>
      match BracketSpan(text)
      case None => Err(NoJsonFound)
      case Some(span) =>
        match parse(span)
        case Parsed(v) => Ok(v)
        case Unparsable(m) => Err(SyntaxError(m))
  }

  /** The `call`-th model call of the request, for `prompt`, and its parse. */
  function GenerateDataBatch(o: Oracle, call: nat, prompt: Prompt): Result<Json>
  {
    match o.model(call, prompt)
    case Threw(m) => Err(ModelCallFailed(m))
    case Text(t) => ParseReply(t, o.parse)
  }

  /** What the batch loop sees of `generateDataBatch`: the outcome of the
      request's `call`-th call for a prompt. */
  type BatchCall = (nat, Prompt) -> Result<Json>

  /** The calls of a request whose model replies and parser are `o`. */
  function Calls(o: Oracle): BatchCall {
    (call: nat, prompt: Prompt) => GenerateDataBatch(o, call, prompt)
  }

  // ---------------------------------------------------------------------------
  // The retry loop for one batch

  /** What the retry loop did: its outcome, how many calls it made and the
      delays it waited for. */
  datatype Attempts = Attempts(outcome: Result<Json>, calls: nat, waits: seq<int>)

  /** The retry loop from its `attempts`-th attempt on, whose first call is call
      number `next` of the request. A call that returns (whatever it returns)
      ends the loop; after the n-th failure it waits n seconds, and the
      failure that uses up the attempts is thrown. */
  function Retry(generate: BatchCall, prompt: Prompt, next: nat, attempts: nat): Attempts
    requires attempts < MAX_ATTEMPTS
    decreases MAX_ATTEMPTS - attempts
  {
    match generate(next, prompt)
    case Ok(v) => Attempts(Ok(v), 1, [])
    case Err(e) =>
      if attempts + 1 >= MAX_ATTEMPTS then Attempts(Err(e), 1, [])
      else
        var rest := Retry(generate, prompt, next + 1, attempts + 1);
        Attempts(rest.outcome, rest.calls + 1, [BACKOFF_STEP_MS * (attempts + 1)] + rest.waits)
  }

  // ---------------------------------------------------------------------------
  // The batch loop

  /** A batch the loop accepts: an array with at least one element. */
  predicate IsNonEmptyArray(v: Json) {
    v.JArray? && |v.items| > 0
  }

  /** The error the loop's catch block sees when a batch is not accepted. */
  function BatchError(outcome: Result<Json>): Error {
    if outcome.Err? then outcome.error else InvalidBatch
  }

  /** `n` copies of the prompt `p`: what `n` calls with the same prompt sent. */
  function Repeat(p: Prompt, n: nat): (r: seq<Prompt>)
    ensures |r| == n && forall i | 0 <= i < n :: r[i] == p
  {
    seq(n, _ => p)
  }

  /** The state of the batch loop: the records still wanted, the records so
      far, every prompt sent (one per model call), every delay waited for, and
      the error the loop threw, if it threw one. */
  datatype Loop = Loop(
    remaining: int,
    data: seq<Json>,
    calls: seq<Prompt>,
    waits: seq<int>,
    failure: Option<Error>)

  /** The loop keeps going while records are wanted and nothing was thrown. */
  predicate Running(st: Loop) {
    st.remaining > 0 && st.failure.None?
  }

  /** One pass of the batch loop: a batch of at most `MAX_BATCH_SIZE` records,
      retried as `Retry` says. A non-empty array is appended; any other
      outcome stops the loop, keeping the records so far if there are any
      and throwing otherwise. */
  function Pass(generate: BatchCall, structure: string, language: string, st: Loop): Loop
    requires Running(st)
  {
    var prompt := Prompt(structure, Min(st.remaining, MAX_BATCH_SIZE), language);
    var t := Retry(generate, prompt, |st.calls|, 0);
    var calls := st.calls + Repeat(prompt, t.calls);
    var waits := st.waits + t.waits;
    if t.outcome.Ok? && IsNonEmptyArray(t.outcome.value) then
      var items := t.outcome.value.items;
      Loop(st.remaining - |items|, st.data + items, calls, waits, None)
    else if |st.data| > 0 then
      Loop(0, st.data, calls, waits, None)
    else
      Loop(st.remaining, st.data, calls, waits, Some(BatchError(t.outcome)))
  }

  /** The measure that every pass decreases. */
  function Progress(st: Loop): nat {
    2 * (if st.remaining < 0 then 0 else st.remaining) + (if st.failure.None? then 1 else 0)
  }

  /** Every pass makes progress. */
  lemma PassProgresses(generate: BatchCall, structure: string, language: string, st: Loop)
    requires Running(st)
    ensures Progress(Pass(generate, structure, language, st)) < Progress(st)
  {
  }

  /** The batch loop run to its end from `st`. */
  function RunLoop(generate: BatchCall, structure: string, language: string, st: Loop): Loop
    decreases Progress(st)
  {
    if Running(st) then
      PassProgresses(generate, structure, language, st);
      RunLoop(generate, structure, language, Pass(generate, structure, language, st))
    else
      st
  }

  /** The state the loop starts from for `count` records. */
  function Start(count: int): Loop {
    Loop(count, [], [], [], None)
  }

  // ---------------------------------------------------------------------------
  // The handler

  /** The response together with every prompt sent and every delay waited for. */
  datatype Exchange = Exchange(response: Response, calls: seq<Prompt>, waits: seq<int>)

  /** The response for a finished batch loop: what was thrown, or the records. */
  function Respond(st: Loop, count: int): Response {
    match st.failure
    case Some(e) => Failure(500, Message(e))
    case None => Success(st.data, |st.data|, count)
  }

  /** The handler as a function of its inputs. */
  function Handle(req: Request, apiKey: Option<string>, generate: BatchCall): Exchange {
    if !Truthy(apiKey) then
      Exchange(Failure(500, Message(MissingApiKey)), [], [])
    else if !Truthy(req.tableStructure) then
      Exchange(Failure(400, STRUCTURE_REQUIRED), [], [])
    else
      Serve(generate, SanitizeInput(req.tableStructure.value), EffectiveLanguage(req.language), EffectiveCount(req.recordCount))
  }

  /** What the handler answers for a request that passed both checks: the
      batch loop for `count` records, then its response. */
  function Serve(generate: BatchCall, structure: string, language: string, count: int): Exchange {
    var end := RunLoop(generate, structure, language, Start(count));
    Exchange(Respond(end, count), end.calls, end.waits)
  }

  /** The retry loop of one batch as the source writes it: up to three calls,
      the first that returns ends it, and the third failure is thrown (here:
      returned as `thrown`). `sent` is the number of calls made and `delays`
      the waits between them. */
  method RetryBatch(generate: BatchCall, prompt: Prompt, next: nat) returns (batchData: Json, thrown: Option<Error>, sent: nat, delays: seq<int>)
    ensures Retry(generate, prompt, next, 0) == Attempts(if thrown.Some? then Err(thrown.value) else Ok(batchData), sent, delays)
  {
    ghost var t := Retry(generate, prompt, next, 0);
    var attempts := 0;
    batchData, thrown, delays := JArray([]), None, [];
    while attempts < MAX_ATTEMPTS
      invariant 0 <= attempts < MAX_ATTEMPTS
      invariant t.outcome == Retry(generate, prompt, next + attempts, attempts).outcome
      invariant t.calls == attempts + Retry(generate, prompt, next + attempts, attempts).calls
      invariant t.waits == delays + Retry(generate, prompt, next + attempts, attempts).waits
    {
      var result := generate(next + attempts, prompt);
      if result.Ok? {
        batchData := result.value;
        sent := attempts + 1;
        break;
      }
      attempts := attempts + 1;
      if attempts >= MAX_ATTEMPTS {
        thrown := Some(result.error);
        sent := attempts;
        break;
      }
      delays := delays + [BACKOFF_STEP_MS * attempts];
    }
  }

  /** The outer `while` of the handler as the source writes it: batches of at
      most 20 records, each retried by `RetryBatch`, until enough records
      are collected, a failure after some records stops it, or a failure
      before any record is thrown (here: returned as `failure`). */
  method BatchLoop(generate: BatchCall, structure: string, language: string, count: int)
    returns (allData: seq<Json>, failure: Option<Error>, calls: seq<Prompt>, waits: seq<int>)
    ensures var end := RunLoop(generate, structure, language, Start(count));
      allData == end.data && failure == end.failure && calls == end.calls && waits == end.waits
  {
    allData, failure, calls, waits := [], None, [], [];
    var remainingCount := count;
    ghost var end := RunLoop(generate, structure, language, Start(count));
    while remainingCount > 0
      invariant RunLoop(generate, structure, language, Loop(remainingCount, allData, calls, waits, None)) == end
      decreases remainingCount
    {
      ghost var st := Loop(remainingCount, allData, calls, waits, None);
      var batchSize := Min(remainingCount, MAX_BATCH_SIZE);
      var prompt := Prompt(structure, batchSize, language);
      var batchData, thrown, sent, delays := RetryBatch(generate, prompt, |calls|);
      calls, waits := calls + Repeat(prompt, sent), waits + delays;
      if thrown.None? && batchData.JArray? && |batchData.items| > 0 {
        allData := allData + batchData.items;
        remainingCount := remainingCount - |batchData.items|;
      } else if |allData| > 0 {
        remainingCount := 0;
      } else {
        failure := Some(if thrown.Some? then thrown.value else InvalidBatch);
        assert Pass(generate, structure, language, st) == Loop(remainingCount, allData, calls, waits, failure);
        return;
      }
      assert Pass(generate, structure, language, st) == Loop(remainingCount, allData, calls, waits, None);
    }
  }

  /** The handler as the source writes it: the two checks, the request
      defaults and sanitization, then the batch loop. */
  method Post(req: Request, apiKey: Option<string>, generate: BatchCall) returns (response: Response, calls: seq<Prompt>, waits: seq<int>)
    ensures Exchange(response, calls, waits) == Handle(req, apiKey, generate)
  {
    calls, waits := [], [];
    if !Truthy(apiKey) {
      response := Failure(500, Message(MissingApiKey));
      return;
    }
    if !Truthy(req.tableStructure) {
      response := Failure(400, STRUCTURE_REQUIRED);
      return;
    }
    var count := EffectiveCount(req.recordCount);
    var structure := SanitizeInput(req.tableStructure.value);
    var language := EffectiveLanguage(req.language);
    var allData, failure;
    allData, failure, calls, waits := BatchLoop(generate, structure, language, count);
    if failure.Some? {
      response := Failure(500, Message(failure.value));
    } else {
      response := Success(allData, |allData|, count);
    }
  }
}
