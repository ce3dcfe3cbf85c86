/**
 * `analyzeWithGemini` and the `/analyze` route: the cache check, the
 * attempts at the model with retry and exponential backoff, the cleaning,
 * parsing and normalisation of the reply, the choice between a normalised,
 * a fallback and an error report, and the input guards in front of it.
 *
 * The model and `JSON.parse` are parameters: `respond(n)` is the reply to
 * attempt `n` (counting from 0), and `parse` maps a cleaned text to a
 * syntax error or a parsed reply. The clock is the request's start time
 * `now`; the backoff waits are added to it, the time spent in the calls is
 * not.
 */
module Pipeline {
  import opened Common
  import opened Report
  import opened Language
  import opened Cleaning
  import opened Normalize
  import opened Cache

  /** One reply of the model's HTTP endpoint, or the error raised while getting or reading it. */
  datatype Reply =
    | Response(status: int, body: string, text: Option<string>)
    | Rejected(message: string)

  /** What `JSON.parse` did with the cleaned text. */
  datatype ParseOutcome = SyntaxError(message: string) | Parsed(reply: ParsedReply)

  /** `res.ok`. */
  predicate IsOk(status: int)
  {
    200 <= status <= 299
  }

  /** The retry decision: a rate limit or a server error, with fewer than two retries so far. */
  predicate ShouldRetry(status: int, retry: nat)
  {
    (status == 429 || status >= 500) && retry < 2
  }

  function Pow2(n: nat): (p: nat)
    ensures p >= 1
  {
    if n == 0 then 1 else 2 * Pow2(n - 1)
  }

  /** `Math.pow(2, retryCount) * 1000`: the wait before the next attempt, in milliseconds. */
  function BackoffDelay(retry: nat): nat
  {
    Pow2(retry) * 1000
  }

  /** The message of the error raised for a non-ok status. */
  function ApiErrorMessage(status: int, body: string): string
  {
    "Gemini API error: " + IntToString(status) + " - " + body
  }

  const EmptyResponseMessage: string := "Empty response from Gemini API"

  /** Where a request's report came from. Only `Normalised` reports are stored in the cache. */
  datatype Origin = Cached | Normalised | ParseFallback | Failed

  /**
   * What a request produced: a report with its origin, the number of calls
   * it made and how long it waited between them; or the exception that
   * escaped `analyzeWithGemini` before any call.
   */
  datatype Outcome =
    | Answered(result: AnalysisResult, origin: Origin, calls: nat, waited: nat)
    | Crashed(message: string)

  /** The report for the last attempt's reply, which is not retried. */
  function Finish(p: Program, reply: Reply, code: string, filename: string, language: string,
                  parse: string -> ParseOutcome): (r: (AnalysisResult, Origin))
    ensures r.1 != Cached
    ensures r.1 == Failed <==> !(reply.Response? && IsOk(reply.status) && reply.text.Some? && reply.text.value != "")
    ensures r.1 == Failed ==> exists m :: r.0 == ErrorResult(m, filename, language)
  {
    match reply
    case Rejected(m) => (ErrorResult(m, filename, language), Failed)
    case Response(status, body, text) =>
      if !IsOk(status) then (ErrorResult(ApiErrorMessage(status, body), filename, language), Failed)
      else if text.None? || text.value == "" then (ErrorResult(EmptyResponseMessage, filename, language), Failed)
      else Interpret(p, text.value, code, parse)
  }

  /** Clean, parse and normalise the reply text; a failure of either step gives the fallback report. */
  function Interpret(p: Program, text: string, code: string, parse: string -> ParseOutcome): (r: (AnalysisResult, Origin))
    ensures r.1 == Normalised || r.1 == ParseFallback
    ensures r.1 == ParseFallback ==> exists m :: r.0 == FallbackResult(CleanResponse(text), m)
    ensures r.1 == Normalised <==> parse(CleanResponse(text)).Parsed? && EnhanceIn(p, parse(CleanResponse(text)).reply, code).Success?
  {
    var cleaned := CleanResponse(text);
    match parse(cleaned)
    case SyntaxError(m) => (FallbackResult(cleaned, m), ParseFallback)
    case Parsed(reply) =>
      match EnhanceIn(p, reply, code)
      case Failure(m) => (FallbackResult(cleaned, m), ParseFallback)
      case Success(r) => (r, Normalised)
  }

  /** The reply to attempt `retry` is retried. */
  predicate Retried(reply: Reply, retry: nat)
  {
    reply.Response? && !IsOk(reply.status) && ShouldRetry(reply.status, retry)
  }

  /**
   * The attempt whose reply ends the retries, looking from attempt `retry`
   * on: the first reply that is not retried. The third attempt is never
   * retried.
   */
  function LastAttempt(retry: nat, respond: nat -> Reply): (n: nat)
    requires retry <= 2
    ensures retry <= n <= 2
    decreases 2 - retry
  {
    if Retried(respond(retry), retry) then LastAttempt(retry + 1, respond) else retry
  }

  /** The backoff waited before attempt `n`: the delays after attempts 0 to `n - 1`. */
  function WaitedBefore(n: nat): nat
  {
    if n == 0 then 0 else WaitedBefore(n - 1) + BackoffDelay(n - 1)
  }

  /** The attempts of one request: the last reply is finished into the report. */
  function Attempts(p: Program, code: string, filename: string, language: string,
                    respond: nat -> Reply, parse: string -> ParseOutcome): (o: Outcome)
  {
    var n := LastAttempt(0, respond);
    var (r, origin) := Finish(p, respond(n), code, filename, language, parse);
    Answered(r, origin, n + 1, WaitedBefore(n))
  }

  /**
   * `analyzeWithGemini(code, filename)` given what the cache holds for the
   * request's key: a hit is served; otherwise the prompt is built, which
   * throws (before the `try`) when the detected language is an inherited
   * member and not a string; otherwise the attempts run.
   */
  function AnalyzeSpec(p: Program, code: string, filename: string, cached: Option<AnalysisResult>,
                       respond: nat -> Reply, parse: string -> ParseOutcome): (o: Outcome)
    ensures cached.Some? ==> o == Answered(cached.value, Cached, 0, 0)
    ensures o.Crashed? <==> cached.None? && DetectIn(p, filename).Inherited?
    ensures o.Crashed? ==> p.AsWritten? && Basename(filename) in ObjectPrototypeKeys
    ensures o.Answered? && o.origin == Cached ==> cached.Some?
  {
    if cached.Some? then Answered(cached.value, Cached, 0, 0)
    else
      match DetectIn(p, filename)
      case Inherited(_) => Crashed(TypeErrorMessage)
      case Text(language) => Attempts(p, code, filename, language, respond, parse)
  }

  /** The waits double: before attempt `n` the request has waited (2^n - 1) seconds. */
  lemma {:induction false} WaitedBeforeClosed(n: nat)
    ensures WaitedBefore(n) == (Pow2(n) - 1) * 1000
  {
    if n > 0 {
      WaitedBeforeClosed(n - 1);
    }
  }

  /** Every attempt before the last got a retryable status, and the last did not. */
  lemma {:induction false} OnlyRetryableRetried(retry: nat, respond: nat -> Reply)
    requires retry <= 2
    ensures forall i :: retry <= i < LastAttempt(retry, respond) ==> Retried(respond(i), i)
    ensures !Retried(respond(LastAttempt(retry, respond)), LastAttempt(retry, respond))
    decreases 2 - retry
  {
    if Retried(respond(retry), retry) {
      OnlyRetryableRetried(retry + 1, respond);
    }
  }

  /**
   * In either program, a request served from the cache makes no call; one
   * that reaches the model makes one to three calls and waits 0, 1000 or
   * 3000 ms in all; one whose language is an inherited member makes none
   * and crashes.
   */
  lemma AnalyzeCalls(p: Program, code: string, filename: string, cached: Option<AnalysisResult>,
                     respond: nat -> Reply, parse: string -> ParseOutcome)
    ensures var o := AnalyzeSpec(p, code, filename, cached, respond, parse);
            (cached.Some? ==> o.Answered? && o.calls == 0 && o.waited == 0 && o.result == cached.value)
            && (cached.None? && DetectIn(p, filename).Text? ==>
                  o.Answered? && 1 <= o.calls <= 3 && o.waited == (Pow2(o.calls - 1) - 1) * 1000)
            && (cached.None? && DetectIn(p, filename).Inherited? ==> o.Crashed?)
  {
    WaitedBeforeClosed(LastAttempt(0, respond));
  }

  /**
   * A last reply yields a normalised report only when it is ok; the
   * report's totals agree with its findings, all inside the source, and
   * corrected its level table does too.
   */
  lemma FinishNormalised(p: Program, reply: Reply, code: string, filename: string, language: string,
                         parse: string -> ParseOutcome)
    ensures var (r, origin) := Finish(p, reply, code, filename, language, parse);
            origin == Normalised ==>
              TotalsConsistent(r) && (forall g :: g in r.errors ==> InRange(g, |Lines(code)|))
              && (p.Corrected? ==> SummaryConsistent(r))
              && reply.Response? && IsOk(reply.status)
  {
    if reply.Response? && IsOk(reply.status) && reply.text.Some? && reply.text.value != "" {
      assert Finish(p, reply, code, filename, language, parse) == Interpret(p, reply.text.value, code, parse);
      InterpretNormalised(p, reply.text.value, code, parse);
    }
  }

  /**
   * A normalised report is the normalisation of the parsed cleaned text:
   * its totals agree with its findings, all inside the source, and
   * corrected its level table does too.
   */
  lemma InterpretNormalised(p: Program, text: string, code: string, parse: string -> ParseOutcome)
    ensures Interpret(p, text, code, parse).1 == Normalised ==>
              var r := Interpret(p, text, code, parse).0;
              TotalsConsistent(r) && (forall g :: g in r.errors ==> InRange(g, |Lines(code)|))
              && (p.Corrected? ==> SummaryConsistent(r))
  {
    var cleaned := CleanResponse(text);
    if Interpret(p, text, code, parse).1 == Normalised {
      var reply := parse(cleaned).reply;
      assert Interpret(p, text, code, parse).0 == EnhanceIn(p, reply, code).value;
    }
  }

  /**
   * A normalised report, the only kind that is stored, came from an ok
   * reply; its totals agree with its findings, all inside the source, and
   * corrected its level table does too.
   */
  lemma NormalisedIsConsistent(p: Program, code: string, filename: string, language: string,
                               respond: nat -> Reply, parse: string -> ParseOutcome)
    ensures var o := Attempts(p, code, filename, language, respond, parse);
            o.Answered? && o.origin == Normalised ==>
              TotalsConsistent(o.result) && (forall g :: g in o.result.errors ==> InRange(g, |Lines(code)|))
              && (p.Corrected? ==> SummaryConsistent(o.result))
              && respond(o.calls - 1).Response? && IsOk(respond(o.calls - 1).status)
  {
    FinishNormalised(p, respond(LastAttempt(0, respond)), code, filename, language, parse);
  }

  /**
   * A rate limit that outlasts the retries: three calls, 3 seconds of
   * backoff, and the error report for the third 429, classified as a
   * rate limit.
   */
  lemma ExhaustedRateLimit(p: Program, code: string, filename: string, language: string,
                           body: string, text: Option<string>, respond: nat -> Reply, parse: string -> ParseOutcome)
    requires forall n :: n <= 2 ==> respond(n) == Response(429, body, text)
    ensures Attempts(p, code, filename, language, respond, parse)
            == Answered(ErrorResult(ApiErrorMessage(429, body), filename, language), Failed, 3, 3000)
    ensures Classify(ApiErrorMessage(429, body)) == RateLimit
  {
    assert LastAttempt(2, respond) == 2;
    assert LastAttempt(1, respond) == 2;
    assert LastAttempt(0, respond) == 2;
    WaitedBeforeClosed(2);
    var m := ApiErrorMessage(429, body);
    assert NatToString(429) == "429";
    assert m == "Gemini API error: " + ("429" + (" - " + body));
    ContainsMiddle("Gemini API error: ", "429", " - " + body);
  }

  /**
   * The cache after a request: a normalised report is stored under the
   * key with the detected language, anything else is not. (A normalised
   * report implies the language was a string.)
   */
  function StoreAfter(entries: map<string, CacheEntry>, key: string, o: Outcome, now: int,
                      detected: LookupValue, filename: string): map<string, CacheEntry>
  {
    if o.Answered? && o.origin == Normalised && detected.Text?
    then entries[key := CacheEntry(o.result, now + o.waited, detected.s, filename)]
    else entries
  }

  /**
   * A normalised report is stored under the request's key, stamped with
   * the time after the waits; every other key keeps its entry, and any
   * other outcome leaves the cache as it was.
   */
  lemma StoreAfterStores(entries: map<string, CacheEntry>, key: string, o: Outcome, now: int,
                         language: string, filename: string)
    ensures var m := StoreAfter(entries, key, o, now, Text(language), filename);
            (o.Answered? && o.origin == Normalised ==>
               key in m && m[key] == CacheEntry(o.result, now + o.waited, language, filename))
            && (forall k :: k != key ==> (k in m <==> k in entries))
            && (forall k :: k != key && k in m ==> m[k] == entries[k])
            && (!(o.Answered? && o.origin == Normalised) ==> m == entries)
  {
  }

  /**
   * `analyzeWithGemini`: the cache is checked once at `now` (the cache
   * does not change while the request waits, so a miss stays a miss, see
   * `Cache.MissStaysMiss`), then the attempts run in a loop, and a
   * normalised report is stored.
   */
  method Analyze(p: Program, cache: AnalysisCache, code: string, filename: string, now: int,
                 respond: nat -> Reply, parse: string -> ParseOutcome)
    returns (o: Outcome)
    modifies cache
    ensures o == AnalyzeSpec(p, code, filename, old(cache.Lookup(KeyIn(p, filename, code), now)), respond, parse)
    ensures cache.entries == StoreAfter(old(cache.entries), KeyIn(p, filename, code), o, now,
                                        DetectIn(p, filename), filename)
  {
    var key := KeyIn(p, filename, code);
    o := Decide(p, cache, code, filename, now, respond, parse);
    Store(cache, key, o, now, DetectIn(p, filename), filename);
  }

  /** The cache check, then the prompt and the attempts on a miss. */
  method Decide(p: Program, cache: AnalysisCache, code: string, filename: string, now: int,
                respond: nat -> Reply, parse: string -> ParseOutcome)
    returns (o: Outcome)
    ensures o == AnalyzeSpec(p, code, filename, cache.Lookup(KeyIn(p, filename, code), now), respond, parse)
  {
    var detected := DetectIn(p, filename);
    var cached := cache.Lookup(KeyIn(p, filename, code), now);
    if cached.Some? {
      o := Answered(cached.value, Cached, 0, 0);
    } else if detected.Inherited? {
      // `language.toLowerCase()` while building the prompt
      o := Crashed(TypeErrorMessage);
    } else {
      o := RunAttempts(p, code, filename, detected.s, respond, parse);
    }
  }

  /** Only a normalised report is stored, stamped with the time after the waits. */
  method Store(cache: AnalysisCache, key: string, o: Outcome, now: int, detected: LookupValue, filename: string)
    modifies cache
    ensures cache.entries == StoreAfter(old(cache.entries), key, o, now, detected, filename)
  {
    if o.Answered? && o.origin == Normalised && detected.Text? {
      cache.Set(key, CacheEntry(o.result, now + o.waited, detected.s, filename));
    }
  }

  /** The retry loop: call, and while the reply is retryable, wait the backoff delay and call again. */
  method RunAttempts(p: Program, code: string, filename: string, language: string,
                     respond: nat -> Reply, parse: string -> ParseOutcome)
    returns (o: Outcome)
    ensures o == Attempts(p, code, filename, language, respond, parse)
  {
    var retry: nat, waited: nat := 0, 0;
    var reply := respond(0);
    while Retried(reply, retry)
      invariant retry <= 2 && reply == respond(retry)
      invariant LastAttempt(retry, respond) == LastAttempt(0, respond)
      invariant waited == WaitedBefore(retry)
      decreases 2 - retry
    {
      waited := waited + BackoffDelay(retry);
      retry := retry + 1;
      reply := respond(retry);
    }
    var (r, origin) := Finish(p, reply, code, filename, language, parse);
    o := Answered(r, origin, retry + 1, waited);
  }

  // ---------------------------------------------------------------------
  // The defects of the source, end to end
  // ---------------------------------------------------------------------

  /** A first reply that is ok and carries `text`. */
  predicate AnswersWith(respond: nat -> Reply, text: string)
  {
    respond(0).Response? && IsOk(respond(0).status) && respond(0).text == Some(text) && text != ""
  }

  /**
   * A reply whose summary already counts its finding is served with the
   * count doubled as written, and stored.
   */
  lemma SelfCountedReplyStored(entries: map<string, CacheEntry>, key: string, now: int, filename: string,
                               text: string, respond: nat -> Reply, parse: string -> ParseOutcome)
    requires Basename(filename) !in ObjectPrototypeKeys
    requires AnswersWith(respond, text) && parse(CleanResponse(text)) == Parsed(SelfCountedReply)
    ensures var o := AnalyzeSpec(AsWritten, "x", filename, None, respond, parse);
            o.Answered? && o.origin == Normalised && o.calls == 1
            && o.result.summary.errorsByLevel == Some(ZeroLevels["logical" := Count(2)])
            && !SummaryConsistent(o.result)
            && key in StoreAfter(entries, key, o, now, DetectIn(AsWritten, filename), filename)
  {
    ModelCountsAreDoubled();
    assert LastAttempt(0, respond) == 0;
  }

  /** Corrected, the same reply is stored with a level table that agrees with its findings. */
  lemma SelfCountedReplyCorrected(entries: map<string, CacheEntry>, key: string, now: int, filename: string,
                                  text: string, respond: nat -> Reply, parse: string -> ParseOutcome)
    requires AnswersWith(respond, text) && parse(CleanResponse(text)) == Parsed(SelfCountedReply)
    ensures var o := AnalyzeSpec(Corrected, "x", filename, None, respond, parse);
            o.Answered? && o.origin == Normalised && o.calls == 1 && SummaryConsistent(o.result)
            && o.result.summary.errorsByLevel == Some(ZeroLevels["logical" := Count(1)])
            && key in StoreAfter(entries, key, o, now, DetectIn(Corrected, filename), filename)
  {
    ModelCountsAreDoubled();
    assert LastAttempt(0, respond) == 0;
    EnhanceConsistent(SelfCountedReply, "x");
  }

  /**
   * A reply whose summary lacks level counters gets the uncached fallback
   * report as written; corrected, it is normalised and stored.
   */
  lemma UncountedReplyFallsBack(entries: map<string, CacheEntry>, key: string, now: int, filename: string,
                                text: string, respond: nat -> Reply, parse: string -> ParseOutcome)
    requires Basename(filename) !in ObjectPrototypeKeys
    requires AnswersWith(respond, text) && parse(CleanResponse(text)) == Parsed(UncountedReply)
    ensures var o := AnalyzeSpec(AsWritten, "x", filename, None, respond, parse);
            o.Answered? && o.origin == ParseFallback
            && StoreAfter(entries, key, o, now, DetectIn(AsWritten, filename), filename) == entries
    ensures var o := AnalyzeSpec(Corrected, "x", filename, None, respond, parse);
            o.Answered? && o.origin == Normalised
            && key in StoreAfter(entries, key, o, now, DetectIn(Corrected, filename), filename)
  {
    MissingModelCountsFail();
    assert LastAttempt(0, respond) == 0;
  }

  /**
   * As written, the request ("a", "b:c") finds the fresh report stored for
   * ("a:b", "c") and is served it without a call; corrected, their keys
   * differ.
   */
  lemma CollidingRequestServedFromCache(e: CacheEntry, now: int, respond: nat -> Reply, parse: string -> ParseOutcome)
    requires Fresh(e, now)
    ensures var entries := map[KeyIn(AsWritten, "a:b", "c") := e];
            var key := KeyIn(AsWritten, "a", "b:c");
            key in entries && Fresh(entries[key], now)
            && AnalyzeSpec(AsWritten, "b:c", "a", Some(entries[key].result), respond, parse) == Answered(e.result, Cached, 0, 0)
    ensures KeyIn(Corrected, "a", "b:c") != KeyIn(Corrected, "a:b", "c")
  {
    KeyContentCollision();
    if KeyContent("a", "b:c") == KeyContent("a:b", "c") {
      KeyContentInjective("a", "b:c", "a:b", "c");
    }
  }

  /**
   * As written, a file named "constructor" that is not in the cache makes
   * no call and the route answers 500; corrected, it is analysed as an
   * unknown language.
   */
  lemma ConstructorFileCrashes(dir: string, code: string, respond: nat -> Reply, parse: string -> ParseOutcome)
    ensures var o := AnalyzeSpec(AsWritten, code, dir + "/constructor", None, respond, parse);
            o == Crashed(TypeErrorMessage) && Answer(o) == ServerError(AnalysisFailed, TypeErrorMessage)
    ensures var o := AnalyzeSpec(Corrected, code, dir + "/constructor", None, respond, parse);
            o.Answered? && 1 <= o.calls <= 3 && Answer(o) == Ok(o.result)
  {
    InheritedMemberMisclassified(dir);
    ConstructorSegments(dir);
  }

  // ---------------------------------------------------------------------
  // The `/analyze` route
  // ---------------------------------------------------------------------

  /**
   * One field of the request's JSON body: missing, a string, a falsy
   * value that is not a string (`null`, `false`, `0`), or any other value.
   */
  datatype BodyField = Missing | Str(value: string) | Falsy | Other

  /** The JSON body of a request: `code` and `filename`. */
  datatype RequestBody = RequestBody(code: BodyField, filename: BodyField)

  /** The route's answer: a report, a 400, or a 500 from the route's `catch`. */
  datatype HttpResponse =
    | Ok(report: AnalysisResult)
    | BadRequest(error: string, message: string)
    | ServerError(error: string, message: string)

  const AnalysisFailed: string := "Analysis failed"

  /** The largest accepted source, in characters. */
  const MaxCodeLength: nat := 100000

  /** The answer for a request's outcome: its report, or the 500 for an escaped exception. */
  function Answer(o: Outcome): (r: HttpResponse)
    ensures r.ServerError? <==> o.Crashed?
    ensures o.Answered? ==> r == Ok(o.result)
  {
    match o
    case Answered(result, _, _, _) => Ok(result)
    case Crashed(m) => ServerError(AnalysisFailed, m)
  }

  /**
   * The input guards: the code and the file name to analyse, or the
   * answer. A missing or falsy code is a 400; any other non-string code
   * makes `code.trim` throw, a 500. A string code that is blank or too
   * long is a 400. A file name that is present but not a string makes
   * `path.extname` throw, a 500; a missing one defaults to "unknown.js".
   */
  function ValidateRequest(body: RequestBody): (r: Result<(string, string), HttpResponse>)
    ensures r.Success? <==>
              body.code.Str? && !AllSpace(body.code.value) && |body.code.value| <= MaxCodeLength
              && (body.filename.Missing? || body.filename.Str?)
    ensures r.Failure? ==> !r.error.Ok?
    ensures r.Failure? && r.error.BadRequest? <==>
              body.code.Missing? || body.code.Falsy?
              || (body.code.Str? && (AllSpace(body.code.value) || |body.code.value| > MaxCodeLength))
    ensures r.Success? ==> r.value.0 == body.code.value
    ensures r.Success? ==> r.value.1 == (if body.filename.Str? then body.filename.value else "unknown.js")
  {
    TrimEmptyIff(if body.code.Str? then body.code.value else "");
    match body.code
    case Missing => Failure(BadRequest("Empty code", "Please provide non-empty code content for analysis"))
    case Falsy => Failure(BadRequest("Empty code", "Please provide non-empty code content for analysis"))
    case Other => Failure(ServerError(AnalysisFailed, TypeErrorMessage))
    case Str(code) =>
      if code == "" || |Trim(code)| == 0 then
        Failure(BadRequest("Empty code", "Please provide non-empty code content for analysis"))
      else if |code| > MaxCodeLength then
        Failure(BadRequest("Code too large", "Please provide code smaller than 100KB for analysis"))
      else
        match body.filename
        case Missing => Success((code, "unknown.js"))
        case Str(filename) => Success((code, filename))
        case _ => Failure(ServerError(AnalysisFailed, TypeErrorMessage))
  }

  /** An empty or blank source is refused before the size check, whatever the file name. */
  lemma BlankBeforeSize(body: RequestBody)
    requires body.code.Str? && AllSpace(body.code.value)
    ensures ValidateRequest(body) == Failure(BadRequest("Empty code", "Please provide non-empty code content for analysis"))
  {
    TrimEmptyIff(body.code.value);
  }

  /**
   * `POST /analyze`: a refused request makes no call and leaves the cache
   * alone; an accepted one is `analyzeWithGemini` on the code and the
   * defaulted file name, answered with its report or a 500.
   */
  method HandleAnalyze(p: Program, cache: AnalysisCache, body: RequestBody, now: int,
                       respond: nat -> Reply, parse: string -> ParseOutcome)
    returns (response: HttpResponse, calls: nat)
    modifies cache
    ensures ValidateRequest(body).Failure? ==>
              response == ValidateRequest(body).error && calls == 0 && cache.entries == old(cache.entries)
    ensures ValidateRequest(body).Success? ==>
              var (code, filename) := ValidateRequest(body).value;
              var o := AnalyzeSpec(p, code, filename, old(cache.Lookup(KeyIn(p, filename, code), now)), respond, parse);
              response == Answer(o) && calls == (if o.Answered? then o.calls else 0)
              && cache.entries == StoreAfter(old(cache.entries), KeyIn(p, filename, code), o, now,
                                             DetectIn(p, filename), filename)
  {
    var request := ValidateRequest(body);
    if request.Failure? {
      return request.error, 0;
    }
    var (code, filename) := request.value;
    var o := Analyze(p, cache, code, filename, now, respond, parse);
    response := Answer(o);
    calls := if o.Answered? then o.calls else 0;
  }
}
