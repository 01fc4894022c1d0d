/**
 * What the batch/retry/partial-success driver promises, proved about the
 * functional specification in Route (`Retry`, `Pass`, `RunLoop`, `Handle`).
 */
module RouteProperties {
  import opened Wrappers
  import opened Extraction
  import opened Sanitize
  import opened Route

  // ---------------------------------------------------------------------------
  // The retry loop

  /** From its `attempts`-th attempt on, the retry loop calls until a call
      returns, and at most until the attempts are used up; its outcome is that
      of its last call, every earlier call threw, it throws only when the
      attempts are used up, and after the n-th failure it waits n seconds. */
  lemma {:induction false} RetryPolicy(generate: BatchCall, prompt: Prompt, next: nat, attempts: nat)
    requires attempts < MAX_ATTEMPTS
    ensures var t := Retry(generate, prompt, next, attempts);
      && 1 <= t.calls <= MAX_ATTEMPTS - attempts
      && t.outcome == generate(next + t.calls - 1, prompt)
      && (forall i | next <= i < next + t.calls - 1 :: generate(i, prompt).Err?)
      && (t.outcome.Err? ==> t.calls == MAX_ATTEMPTS - attempts)
      && |t.waits| == t.calls - 1
      && (forall k | 0 <= k < |t.waits| :: t.waits[k] == BACKOFF_STEP_MS * (attempts + k + 1))
    decreases MAX_ATTEMPTS - attempts
  {
    var t := Retry(generate, prompt, next, attempts);
    if generate(next, prompt).Err? && attempts + 1 < MAX_ATTEMPTS {
      RetryPolicy(generate, prompt, next + 1, attempts + 1);
      var rest := Retry(generate, prompt, next + 1, attempts + 1);
      assert t.waits == [BACKOFF_STEP_MS * (attempts + 1)] + rest.waits;
    }
  }

  /** A batch is sent at most three times, the waits before the second and
      third attempts are one and two seconds, and a batch fails only after its
      third failed call. */
  lemma RetryWaits(generate: BatchCall, prompt: Prompt, next: nat)
    ensures var t := Retry(generate, prompt, next, 0);
      && 1 <= t.calls <= 3
      && t.waits == [1000, 2000][..t.calls - 1]
      && (t.outcome.Err? <==> (forall i | next <= i < next + 3 :: generate(i, prompt).Err?))
  {
    var t := Retry(generate, prompt, next, 0);
    RetryPolicy(generate, prompt, next, 0);
    if t.calls == 3 {
      assert t.waits == [1000, 2000];
    } else if t.calls == 2 {
      assert t.waits == [1000];
    }
    if t.outcome.Ok? {
      assert !generate(next + t.calls - 1, prompt).Err?;
    }
  }

  // ---------------------------------------------------------------------------
  // Parsing a reply

  /** A reply that parses is taken as it is; one that does not is reduced to
      its span from the first `[` to the last `]` after it, which is parsed
      in turn; "No valid JSON found" is the answer exactly when the reply
      does not parse and has no such span. */
  lemma ParseReplyOutcomes(text: string, parse: string -> ParseOutcome)
    ensures parse(text).Parsed? ==> ParseReply(text, parse) == Ok(parse(text).value)
    ensures parse(text).Unparsable? && HasBracketPair(text) ==>
      exists i, j | 0 <= i < j < |text| ::
        && text[i] == '[' && text[j] == ']' && '[' !in text[..i] && ']' !in text[j + 1..]
        && ParseReply(text, parse) == match parse(text[i..j + 1])
                                     case Parsed(v) => Ok(v)
                                     case Unparsable(m) => Err(SyntaxError(m))
    ensures ParseReply(text, parse) == Err(NoJsonFound) <==> parse(text).Unparsable? && !HasBracketPair(text)
  {
    var span := BracketSpan(text);
    if parse(text).Unparsable? && span.Some? {
      var i, j :| && 0 <= i < j < |text| && text[i] == '[' && text[j] == ']'
                  && span.value == text[i..j + 1] && '[' !in text[..i] && ']' !in text[j + 1..];
      assert ParseReply(text, parse) == match parse(text[i..j + 1])
                                        case Parsed(v) => Ok(v)
                                        case Unparsable(m) => Err(SyntaxError(m));
    }
  }

  /** A reply that wraps a bracketed text in prose or code fences, with no `[`
      before it and no `]` after it, is parsed as that text. */
  lemma ProseWrappedReply(pre: string, body: string, post: string, parse: string -> ParseOutcome)
    requires |body| >= 2 && body[0] == '[' && body[|body| - 1] == ']'
    requires '[' !in pre && ']' !in post
    requires parse(pre + body + post).Unparsable?
    ensures ParseReply(pre + body + post, parse) == match parse(body)
                                                 case Parsed(v) => Ok(v)
                                                 case Unparsable(m) => Err(SyntaxError(m))
  {
    WrappedSpanRecovered(pre, body, post);
  }

  /** A batch call made of a model reply and its parse throws only what the
      model call or the parse threw, never a missing key or an invalid
      batch: a model call that throws is not parsed, and a reply is parsed as
      `ParseReply` says. The loop lemmas below hold for every batch call,
      these included. */
  lemma GenerateDataBatchOutcomes(o: Oracle, call: nat, prompt: Prompt)
    ensures var r := Calls(o)(call, prompt);
      && (r.Err? ==> r.error.ModelCallFailed? || r.error.SyntaxError? || r.error.NoJsonFound?)
      && (o.model(call, prompt).Threw? <==> r.Err? && r.error.ModelCallFailed?)
      && (o.model(call, prompt).Threw? ==> r == Err(ModelCallFailed(o.model(call, prompt).message)))
      && (o.model(call, prompt).Text? ==> r == ParseReply(o.model(call, prompt).text, o.parse))
  {
  }

  // ---------------------------------------------------------------------------
  // One pass of the batch loop

  /** A pass asks for `min(remaining, 20)` records, makes one to three calls
      with that prompt, waits one or two seconds between them, and either
      appends the batch the retrying returned, whole and after the records so
      far, exactly when it is a non-empty array, whichever call returned it
      (and counts it off), or stops the loop: with the records so far if
      there are any, by throwing the batch's error otherwise. */
  lemma PassFacts(generate: BatchCall, structure: string, language: string, st: Loop)
    requires Running(st)
    ensures var next := Pass(generate, structure, language, st);
      var n := |next.calls| - |st.calls|;
      && st.calls <= next.calls && st.waits <= next.waits && st.data <= next.data
      && 1 <= n <= MAX_ATTEMPTS && |next.waits| - |st.waits| == n - 1
      && (forall i | |st.calls| <= i < |next.calls| ::
            next.calls[i] == Prompt(structure, Min(st.remaining, MAX_BATCH_SIZE), language))
      && (forall i | |st.waits| <= i < |next.waits| :: next.waits[i] == 1000 || next.waits[i] == 2000)
      && (|next.data| > |st.data| ==> next.failure.None? && next.remaining == st.remaining - (|next.data| - |st.data|))
      && (|next.data| > |st.data| ==>
            var t := Retry(generate, Prompt(structure, Min(st.remaining, MAX_BATCH_SIZE), language), |st.calls|, 0);
            t.outcome.Ok? && IsNonEmptyArray(t.outcome.value) && next.data == st.data + t.outcome.value.items)
      && (|next.data| == |st.data| ==> next.remaining <= 0 || next.failure.Some?)
      && (next.failure.Some? ==> st.data == [] && next.remaining == st.remaining)
  ensures var prompt := Prompt(structure, Min(st.remaining, MAX_BATCH_SIZE), language);
      var t := Retry(generate, prompt, |st.calls|, 0);
      var next := Pass(generate, structure, language, st);
      && next.calls == st.calls + Repeat(prompt, t.calls) && next.waits == st.waits + t.waits
      && (t.outcome.Ok? && IsNonEmptyArray(t.outcome.value) ==>
            && next.data == st.data + t.outcome.value.items
            && next.remaining == st.remaining - |t.outcome.value.items|
            && next.failure.None?)
      && (!(t.outcome.Ok? && IsNonEmptyArray(t.outcome.value)) ==>
            && next.data == st.data
            && (st.data != [] ==> next.remaining == 0 && next.failure.None?)
            && (st.data == [] ==> next.failure == Some(BatchError(t.outcome))))
  {
    var prompt := Prompt(structure, Min(st.remaining, MAX_BATCH_SIZE), language);
    RetryWaits(generate, prompt, |st.calls|);
  }

  // ---------------------------------------------------------------------------
  // The whole batch loop

  /** The loop only ever adds records, prompts and waits. */
  lemma {:induction false} LoopExtends(generate: BatchCall, structure: string, language: string, st: Loop)
    ensures var end := RunLoop(generate, structure, language, st);
      st.data <= end.data && st.calls <= end.calls && st.waits <= end.waits
    decreases Progress(st)
  {
    if Running(st) {
      var next := Pass(generate, structure, language, st);
      PassFacts(generate, structure, language, st);
      PassProgresses(generate, structure, language, st);
      LoopExtends(generate, structure, language, next);
    }
  }

  /** How the loop ends: it throws only in a first pass that is rejected, and
      then that pass is the whole run; otherwise it has no more records to
      ask for, and it has all the records it set out to get (perhaps more),
      or it was cut short after some records and has fewer. */
  lemma {:induction false} LoopOutcome(generate: BatchCall, structure: string, language: string, st: Loop)
    requires st.failure.None?
    ensures var end := RunLoop(generate, structure, language, st);
      && (end.failure.Some? ==> st.data == [] && end.data == [] && Running(st) && end == Pass(generate, structure, language, st))
      && (end.failure.None? ==> end.remaining <= 0)
      && (|end.data| + end.remaining == |st.data| + st.remaining
          || (end.failure.None? && end.remaining == 0 && 0 < |end.data| < |st.data| + st.remaining))
    decreases Progress(st)
  {
    if Running(st) {
      var next := Pass(generate, structure, language, st);
      PassFacts(generate, structure, language, st);
      PassProgresses(generate, structure, language, st);
      if next.failure.None? {
        LoopOutcome(generate, structure, language, next);
        LoopExtends(generate, structure, language, next);
      }
    }
  }

  /** Every prompt the loop sends carries the structure and the language it
      was given and asks for one to twenty records, never more than it was
      started with; there is at most one batch (the calls not followed by a
      wait), and at most three calls and two waits, each of one or two
      seconds, per record wanted. */
  lemma {:induction false} LoopCalls(generate: BatchCall, structure: string, language: string, st: Loop)
    requires st.failure.None?
    ensures var end := RunLoop(generate, structure, language, st);
      var wanted := if st.remaining < 0 then 0 else st.remaining;
      && st.calls <= end.calls && st.waits <= end.waits
      && (forall i | |st.calls| <= i < |end.calls| ::
            && end.calls[i].structure == structure && end.calls[i].language == language
            && 1 <= end.calls[i].batchSize <= MAX_BATCH_SIZE && end.calls[i].batchSize <= st.remaining)
      && (|end.calls| - |st.calls|) - (|end.waits| - |st.waits|) <= wanted
      && |end.calls| - |st.calls| <= MAX_ATTEMPTS * wanted
      && |end.waits| - |st.waits| <= (MAX_ATTEMPTS - 1) * wanted
      && (forall i | |st.waits| <= i < |end.waits| :: end.waits[i] == 1000 || end.waits[i] == 2000)
    decreases Progress(st)
  {
    if Running(st) {
      var next := Pass(generate, structure, language, st);
      PassFacts(generate, structure, language, st);
      PassProgresses(generate, structure, language, st);
      if next.failure.None? {
        LoopCalls(generate, structure, language, next);
      }
    }
  }

  /** A call that returns ends the retrying even when what it returns is not a
      non-empty array: a non-empty array is appended whole and counted off by
      its actual length; anything else is not retried but stops the loop at
      once, keeping the records so far or failing as an invalid batch. */
  lemma PassFirstCallReturns(generate: BatchCall, structure: string, language: string, st: Loop)
    requires Running(st)
    requires generate(|st.calls|, Prompt(structure, Min(st.remaining, MAX_BATCH_SIZE), language)).Ok?
    ensures var v := generate(|st.calls|, Prompt(structure, Min(st.remaining, MAX_BATCH_SIZE), language)).value;
      var next := Pass(generate, structure, language, st);
      && |next.calls| == |st.calls| + 1 && next.waits == st.waits
      && (IsNonEmptyArray(v) ==>
            next.data == st.data + v.items && next.remaining == st.remaining - |v.items| && next.failure.None?)
      && (!IsNonEmptyArray(v) && |st.data| > 0 ==> next.data == st.data && next.remaining == 0 && next.failure.None?)
      && (!IsNonEmptyArray(v) && |st.data| == 0 ==> next.failure == Some(InvalidBatch))
  {
    var prompt := Prompt(structure, Min(st.remaining, MAX_BATCH_SIZE), language);
    RetryPolicy(generate, prompt, |st.calls|, 0);
  }

  /** A batch that arrives on the second call, after the first one threw, is
      kept like one that arrives at once: appended whole after a wait of one
      second. */
  lemma PassSecondCallReturns(generate: BatchCall, structure: string, language: string, st: Loop)
    requires Running(st)
    requires generate(|st.calls|, Prompt(structure, Min(st.remaining, MAX_BATCH_SIZE), language)).Err?
    requires var v := generate(|st.calls| + 1, Prompt(structure, Min(st.remaining, MAX_BATCH_SIZE), language));
      v.Ok? && IsNonEmptyArray(v.value)
    ensures var v := generate(|st.calls| + 1, Prompt(structure, Min(st.remaining, MAX_BATCH_SIZE), language)).value;
      var next := Pass(generate, structure, language, st);
      && |next.calls| == |st.calls| + 2 && next.waits == st.waits + [1000]
      && next.data == st.data + v.items && next.remaining == st.remaining - |v.items| && next.failure.None?
  {
    var prompt := Prompt(structure, Min(st.remaining, MAX_BATCH_SIZE), language);
    RetryPolicy(generate, prompt, |st.calls|, 0);
    RetryPolicy(generate, prompt, |st.calls| + 1, 1);
  }

  // ---------------------------------------------------------------------------
  // Backends that always deliver

  /** The `i`-th call, for at least one record, returns a non-empty array. */
  ghost predicate Accepts(generate: BatchCall, i: nat, p: Prompt) {
    p.batchSize >= 1 ==> generate(i, p).Ok? && IsNonEmptyArray(generate(i, p).value)
  }

  /** Every call for at least one record returns a non-empty array. */
  ghost predicate Accepting(generate: BatchCall) {
    forall i: nat, p: Prompt :: Accepts(generate, i, p)
  }

  /** The `i`-th call, for at least one record, returns an array of exactly
      the records asked for. */
  ghost predicate DeliversExactly(generate: BatchCall, i: nat, p: Prompt) {
    p.batchSize >= 1 ==>
      generate(i, p).Ok? && generate(i, p).value.JArray? && |generate(i, p).value.items| == p.batchSize
  }

  /** Every call returns an array of exactly the records asked for. */
  ghost predicate Exact(generate: BatchCall) {
    forall i: nat, p: Prompt :: DeliversExactly(generate, i, p)
  }

  /** When every batch is accepted the loop is never cut short: it gets at
      least the records it set out to get, never retries and never waits, and
      makes at most one call per record wanted. */
  lemma {:induction false} AcceptingLoop(generate: BatchCall, structure: string, language: string, st: Loop)
    requires Accepting(generate) && st.failure.None?
    ensures var end := RunLoop(generate, structure, language, st);
      && end.failure.None?
      && |end.data| >= |st.data| + st.remaining
      && end.waits == st.waits
      && |end.calls| - |st.calls| <= (if st.remaining < 0 then 0 else st.remaining)
    decreases Progress(st)
  {
    if Running(st) {
      var prompt := Prompt(structure, Min(st.remaining, MAX_BATCH_SIZE), language);
      assert Accepts(generate, |st.calls|, prompt);
      PassFirstCallReturns(generate, structure, language, st);
      PassProgresses(generate, structure, language, st);
      AcceptingLoop(generate, structure, language, Pass(generate, structure, language, st));
    }
  }

  /** When every batch has exactly the records asked for, the loop makes
      ceil(remaining / 20) calls, of 20 records each but the last, and gets
      exactly the records it set out to get. */
  lemma {:induction false} ExactLoop(generate: BatchCall, structure: string, language: string, st: Loop)
    requires Exact(generate) && st.failure.None? && st.remaining >= 0
    ensures var end := RunLoop(generate, structure, language, st);
      && end.failure.None? && end.remaining == 0
      && |end.data| == |st.data| + st.remaining
      && end.waits == st.waits
      && |end.calls| == |st.calls| + (st.remaining + MAX_BATCH_SIZE - 1) / MAX_BATCH_SIZE
      && st.calls <= end.calls
      && (forall i | |st.calls| <= i < |end.calls| ::
            end.calls[i] == Prompt(structure, Min(st.remaining - MAX_BATCH_SIZE * (i - |st.calls|), MAX_BATCH_SIZE), language))
    decreases Progress(st)
  {
    if Running(st) {
      var prompt := Prompt(structure, Min(st.remaining, MAX_BATCH_SIZE), language);
      var next := Pass(generate, structure, language, st);
      assert DeliversExactly(generate, |st.calls|, prompt);
      PassFirstCallReturns(generate, structure, language, st);
      PassFacts(generate, structure, language, st);
      PassProgresses(generate, structure, language, st);
      ExactLoop(generate, structure, language, next);
      assert next.remaining == st.remaining - Min(st.remaining, MAX_BATCH_SIZE);
    }
  }

  // ---------------------------------------------------------------------------
  // The handler's responses

  /** After both checks the handler answers either with the records, their
      number and the count asked for, with records exactly when some were
      asked for; or with a 500 carrying the message of the first batch's
      error, after at most three calls. */
  lemma ServeResponses(generate: BatchCall, structure: string, language: string, count: int)
    ensures var x := Serve(generate, structure, language, count);
      match x.response
      case Success(data, generated, requested) =>
        && generated == |data| && requested == count
        && (generated > 0 <==> count > 0)
        && (count <= 0 ==> x.calls == [] && x.waits == [])
      case Failure(status, error) =>
        && status == 500 && count > 0
        && 1 <= |x.calls| <= MAX_ATTEMPTS
        && error == Message(BatchError(Retry(generate, x.calls[0], 0, 0).outcome))
  {
    var st := Start(count);
    LoopOutcome(generate, structure, language, st);
    var end := RunLoop(generate, structure, language, st);
    if end.failure.Some? {
      PassFacts(generate, structure, language, st);
    }
  }

  /** After both checks the handler is the loop run on the sanitized
      structure, the effective language and the clamped count. */
  lemma HandleServes(req: Request, apiKey: Option<string>, generate: BatchCall)
    requires Truthy(apiKey) && Truthy(req.tableStructure)
    ensures Handle(req, apiKey, generate)
         == Serve(generate, SanitizeInput(req.tableStructure.value), EffectiveLanguage(req.language), EffectiveCount(req.recordCount))
  {
  }

  /** The three ways the handler answers: a 500 for a missing key and a 400 for
      a missing structure, both before any call; a 500 carrying the message of
      the first batch's error, after at most three calls; or the records with
      their number and the clamped count, where some records are returned
      exactly when some were asked for. */
  lemma HandleResponses(req: Request, apiKey: Option<string>, generate: BatchCall)
    ensures var x := Handle(req, apiKey, generate);
      match x.response
      case Success(data, generated, requested) =>
        && Truthy(apiKey) && Truthy(req.tableStructure)
        && generated == |data| && requested == EffectiveCount(req.recordCount) && requested <= MAX_RECORDS
        && (generated > 0 <==> requested > 0)
        && (requested <= 0 ==> x.calls == [] && x.waits == [])
      case Failure(status, error) =>
        || (status == 500 && error == Message(MissingApiKey) && !Truthy(apiKey) && x.calls == [])
        || (status == 400 && error == STRUCTURE_REQUIRED && Truthy(apiKey) && !Truthy(req.tableStructure) && x.calls == [])
        || (&& status == 500 && Truthy(apiKey) && Truthy(req.tableStructure)
            && 1 <= |x.calls| <= MAX_ATTEMPTS
            && error == Message(BatchError(Retry(generate, x.calls[0], 0, 0).outcome)))
  {
    if Truthy(apiKey) && Truthy(req.tableStructure) {
      ServeResponses(generate, SanitizeInput(req.tableStructure.value), EffectiveLanguage(req.language), EffectiveCount(req.recordCount));
      HandleServes(req, apiKey, generate);
    }
  }

  /** After both checks every prompt carries the structure and the language
      and asks for one to twenty records; there is at most one batch, and at
      most three calls and two waits, each of one or two seconds, per record
      asked for. */
  lemma ServePrompts(generate: BatchCall, structure: string, language: string, count: int)
    ensures var x := Serve(generate, structure, language, count);
      var wanted := if count < 0 then 0 else count;
      && |x.calls| - |x.waits| <= wanted
      && |x.calls| <= MAX_ATTEMPTS * wanted
      && |x.waits| <= (MAX_ATTEMPTS - 1) * wanted
      && (forall i | 0 <= i < |x.waits| :: x.waits[i] == 1000 || x.waits[i] == 2000)
      && forall i | 0 <= i < |x.calls| ::
           x.calls[i].structure == structure && x.calls[i].language == language && 1 <= x.calls[i].batchSize <= MAX_BATCH_SIZE
  {
    LoopCalls(generate, structure, language, Start(count));
  }

  /** No call is made unless both checks pass. Every prompt the handler
      sends then carries the sanitized structure and the effective language,
      and asks for one to twenty records; a request makes at most 600 calls
      and waits at most 400 times, each time one or two seconds. */
  lemma HandlePrompts(req: Request, apiKey: Option<string>, generate: BatchCall)
    ensures var x := Handle(req, apiKey, generate);
      && (x.calls != [] ==> Truthy(apiKey) && Truthy(req.tableStructure))
      && |x.calls| <= MAX_ATTEMPTS * MAX_RECORDS
      && |x.waits| <= (MAX_ATTEMPTS - 1) * MAX_RECORDS
      && (forall i | 0 <= i < |x.waits| :: x.waits[i] == 1000 || x.waits[i] == 2000)
      && forall i | 0 <= i < |x.calls| ::
           && x.calls[i].structure == SanitizeInput(req.tableStructure.value)
           && x.calls[i].language == EffectiveLanguage(req.language)
           && 1 <= x.calls[i].batchSize <= MAX_BATCH_SIZE
  {
    if Truthy(apiKey) && Truthy(req.tableStructure) {
      ServePrompts(generate, SanitizeInput(req.tableStructure.value), EffectiveLanguage(req.language), EffectiveCount(req.recordCount));
      HandleServes(req, apiKey, generate);
    }
  }

  /** What reaches the model is clean: every prompt's structure has no tag,
      no whitespace other than single spaces, and none at either end. */
  lemma PromptsAreSanitized(req: Request, apiKey: Option<string>, generate: BatchCall)
    ensures var x := Handle(req, apiKey, generate);
      forall i | 0 <= i < |x.calls| :: NoTag(x.calls[i].structure) && Normal(x.calls[i].structure)
  {
    HandlePrompts(req, apiKey, generate);
    if Truthy(req.tableStructure) {
      SanitizeOutput(req.tableStructure.value);
    }
  }

  /** The exchange of a request for `count` records served in full: a success
      with `generatedCount == requestedCount == count`, after ceil(count / 20)
      calls and no waits. */
  ghost predicate ServedInFull(x: Exchange, count: int) {
    && x.response.Success?
    && x.response.generatedCount == x.response.requestedCount == count
    && |x.calls| == (count + MAX_BATCH_SIZE - 1) / MAX_BATCH_SIZE
    && x.waits == []
  }

  /** With a backend that delivers exactly what is asked, the loop's response
      has exactly the records asked for, after ceil(count / 20) calls and no
      waits. */
  lemma ServeExact(generate: BatchCall, structure: string, language: string, count: int)
    requires Exact(generate) && count >= 0
    ensures ServedInFull(Serve(generate, structure, language, count), count)
  {
    ExactLoop(generate, structure, language, Start(count));
  }

  /** With a backend that delivers exactly what is asked, the handler returns
      exactly the clamped count of records, in ceil(count / 20) calls and with
      no waits. */
  lemma ExactHandle(req: Request, apiKey: Option<string>, generate: BatchCall)
    requires Exact(generate) && Truthy(apiKey) && Truthy(req.tableStructure)
    requires EffectiveCount(req.recordCount) >= 0
    ensures ServedInFull(Handle(req, apiKey, generate), EffectiveCount(req.recordCount))
  {
    ServeExact(generate, SanitizeInput(req.tableStructure.value), EffectiveLanguage(req.language), EffectiveCount(req.recordCount));
    HandleServes(req, apiKey, generate);
  }

  /** 25 records are asked for as a batch of 20 and a batch of 5. */
  lemma TwentyFiveRecords(generate: BatchCall, structure: string, language: string)
    requires Exact(generate)
    ensures var end := RunLoop(generate, structure, language, Start(25));
      && end.failure.None? && |end.data| == 25
      && end.calls == [Prompt(structure, 20, language), Prompt(structure, 5, language)]
  {
    ExactLoop(generate, structure, language, Start(25));
    var end := RunLoop(generate, structure, language, Start(25));
    assert end.calls[0] == Prompt(structure, 20, language);
    assert end.calls[1] == Prompt(structure, 5, language);
  }

  /** A request for 10000 records is clamped to 200, asked for as ten batches
      of 20. */
  lemma TenThousandRecords(generate: BatchCall, structure: string, language: string)
    requires Exact(generate)
    ensures EffectiveCount(Some(10000)) == 200
    ensures var end := RunLoop(generate, structure, language, Start(EffectiveCount(Some(10000))));
      && end.failure.None? && |end.data| == 200
      && end.calls == Repeat(Prompt(structure, 20, language), 10)
  {
    ExactLoop(generate, structure, language, Start(200));
    var end := RunLoop(generate, structure, language, Start(200));
    assert forall i | 0 <= i < 10 :: end.calls[i] == Prompt(structure, Min(200 - 20 * i, 20), language);
  }

  /** A batch that comes back larger than asked is kept whole: a backend that
      always answers with `records` gets all of them returned, more than the
      count asked for when `records` is longer. */
  lemma OversizedBatchKept(generate: BatchCall, structure: string, language: string, count: int, records: seq<Json>)
    requires 0 < count <= |records|
    requires forall i: nat, p: Prompt :: generate(i, p) == Ok(JArray(records))
    ensures var end := RunLoop(generate, structure, language, Start(count));
      && end.failure.None? && end.data == records
      && |end.calls| == 1
  {
    var st := Start(count);
    PassFirstCallReturns(generate, structure, language, st);
    var next := Pass(generate, structure, language, st);
    assert next.data == records && !Running(next);
    assert RunLoop(generate, structure, language, st) == next;
  }

  /** A failure after some records ends the request with those records: when
      the first batch delivers `first` and every later call throws, the
      second batch is sent three times, with waits of one and two seconds,
      and the loop ends with `first` and no error. */
  lemma PartialSuccess(generate: BatchCall, structure: string, language: string, count: int, first: seq<Json>)
    requires 0 < |first| < count
    requires forall p: Prompt :: generate(0, p) == Ok(JArray(first))
    requires forall i: nat, p: Prompt | i >= 1 :: generate(i, p).Err?
    ensures var end := RunLoop(generate, structure, language, Start(count));
      && end.failure.None? && end.data == first
      && |end.calls| == 4
      && end.waits == [1000, 2000]
  {
    var st := Start(count);
    PassFirstCallReturns(generate, structure, language, st);
    var next := Pass(generate, structure, language, st);
    var prompt := Prompt(structure, Min(next.remaining, MAX_BATCH_SIZE), language);
    RetryWaits(generate, prompt, 1);
    assert generate(1, prompt).Err? && generate(2, prompt).Err? && generate(3, prompt).Err?;
    var last := Pass(generate, structure, language, next);
    assert last.data == first && last.remaining == 0 && !Running(last);
    assert RunLoop(generate, structure, language, next) == last;
  }

  /** With no records yet, a batch whose three calls all throw fails the
      request with that error, after waits of one and two seconds. */
  lemma FirstBatchFails(generate: BatchCall, structure: string, language: string, count: int, e: Error)
    requires count > 0
    requires forall i: nat, p: Prompt :: generate(i, p) == Err(e)
    ensures var end := RunLoop(generate, structure, language, Start(count));
      && end.failure == Some(e)
      && |end.calls| == 3
      && end.waits == [1000, 2000]
  {
    var st := Start(count);
    var prompt := Prompt(structure, Min(count, MAX_BATCH_SIZE), language);
    RetryWaits(generate, prompt, 0);
    assert generate(0, prompt).Err? && generate(1, prompt).Err? && generate(2, prompt).Err?;
    var next := Pass(generate, structure, language, st);
    assert !Running(next);
  }
}
