/**
  The `POST` handler of the summarize route: a linear chain of fallible
  stages with early exit, each failure answered at once with an error body
  and a status of the client-error class (400, section 15.5 of RFC 9110) or
  of the server-error class (500, section 15.6 of RFC 9110).

  The outside world is an oracle: the page fetch (network request and HTML
  parse), the environment's API key and the text-generation service are given
  as the outcomes they would produce. The handler's reply records, besides
  the response, the interactions it had with that world, in order, so that
  "this stage is never reached" can be stated.
 */
module Route {
  import opened Options
  import opened Whitespace
  import opened Cleanup
  import opened Extraction

  /** The generation request: model name and the fixed instruction ("summarise
      the following article in one line") placed before the content. */
  const ModelName := "gemini-1.5-pro-latest"
  const PromptPrefix := "以下の記事を1行で要約してください:\n"

  /** The `url` member of the JSON request body, as JavaScript sees it. */
  datatype UrlField =
    | Undefined        // member absent
    | Null
    | Bool(b: bool)
    | Num(x: real)     // the number after parsing
    | Str(s: string)
    | Compound         // an array or an object

  /** JavaScript truthiness of the field, which `if (!url)` tests: the falsy
      values are `undefined`, `null`, `false`, zero and the empty string. */
  predicate Truthy(v: UrlField)
    ensures Truthy(v) <==> v !in {Undefined, Null, Bool(false), Num(0.0), Str("")}
  {
    match v
    case Undefined => false
    case Null => false
    case Bool(b) => b
    case Num(x) => x != 0.0
    case Str(s) => s != ""
    case Compound => true
  }

  /** Outcome of fetching the URL and parsing the response body; a failure
      carries the thrown error's `message`. */
  datatype FetchOutcome = FetchFailed(message: string) | Fetched(page: Page)

  /** Outcome of the generation request. */
  datatype GenerateOutcome = GenerateFailed(message: string) | Generated(text: string)

  /** What the outside world would answer: the fetch, the `GEMINI_API_KEY`
      environment variable (None when unset) and the generation service. */
  datatype World = World(fetch: FetchOutcome, apiKey: Option<string>, generate: GenerateOutcome)

  /** `!process.env.GEMINI_API_KEY` is false: the variable is set and non-empty. */
  predicate KeyConfigured(key: Option<string>)
    ensures KeyConfigured(key) <==> key !in {None, Some("")}
  {
    key.Some? && key.value != ""
  }

  /** The five failures the handler reports. */
  datatype ErrorKind = UrlMissing | FetchError | NoContent | KeyMissing | GenerateError

  /** A JSON response body: `{summary}` or `{error}`. An error is kept as its
      kind and the underlying message it embeds ("" for the fixed messages);
      `ErrorText` renders the exact string that is sent. */
  datatype Body = Summary(summary: string) | Error(kind: ErrorKind, detail: string)

  datatype Response = Response(status: int, body: Body)

  const FetchFailedPrefix := "Failed to fetch or parse URL content: "
  const GenerateFailedPrefix := "Failed to summarize content using Gemini API: "

  /** The `error` string of an error body. A failure that embeds an
      underlying message ends with it. */
  function ErrorText(kind: ErrorKind, detail: string): (text: string)
    ensures kind == FetchError || kind == GenerateError ==>
      |detail| < |text| && text[|text| - |detail|..] == detail
  {
    match kind
    case UrlMissing => "URL is required"
    case FetchError => FetchFailedPrefix + detail
    case NoContent => "Could not extract content from the URL."
    case KeyMissing => "Gemini API key not configured."
    case GenerateError => GenerateFailedPrefix + detail
  }

  /** The status each failure is answered with: the two caused by the
      request (no url, nothing to summarise) are client errors. */
  function ErrorStatus(kind: ErrorKind): (status: int)
    ensures 400 <= status < 600
    ensures 400 <= status < 500 <==> kind == UrlMissing || kind == NoContent
  {
    if kind == UrlMissing || kind == NoContent then 400 else 500
  }

  /** An interaction with the outside world. */
  datatype Effect =
    | HttpGet(url: UrlField)
    | ReadApiKey
    | GenerateContent(model: string, contents: string)

  datatype Reply = Reply(response: Response, effects: seq<Effect>)

  /** The interactions of a request that runs to the end, in order. */
  function FullTrace(url: UrlField, content: string): seq<Effect> {
    [HttpGet(url), ReadApiKey, GenerateContent(ModelName, PromptPrefix + content)]
  }

  /** How the `try` block around fetching and extraction ends: with the
      thrown error's message, or with the content it computed (possibly
      empty). */
  datatype Attempt = Threw(message: string) | Completed(content: string)

  /** The `try` block's work: fetch the page, then extract, clean and
      truncate its text. */
  function Fetch(f: FetchOutcome): (t: Attempt)
    ensures t.Threw? <==> f.FetchFailed?
    ensures t.Threw? ==> t.message == f.message
    ensures t.Completed? ==> |t.content| <= MaxContentLength
    ensures t.Completed? ==> (t.content == "" <==> AllWs(ChosenText(f.page)))
  {
    match f
    case FetchFailed(msg) => Threw(msg)
    case Fetched(page) => Completed(ExtractContent(page))
  }

  /** Everything the handler's decisions depend on once the try block has
      run: the request's url, the try block's outcome, the API key and what
      the generation service would answer. */
  datatype Inputs = Inputs(url: UrlField, attempt: Attempt, apiKey: Option<string>, generate: GenerateOutcome)

  function Fail(kind: ErrorKind, detail: string, effects: seq<Effect>): Reply {
    Reply(Response(ErrorStatus(kind), Error(kind, detail)), effects)
  }

  /** The handler's chain of decisions. Every reply's interactions are a
      prefix of the full run. */
  function Respond(i: Inputs): (r: Reply)
    ensures r.response.status in {200, 400, 500}
    ensures r.response.status == 200 <==> r.response.body.Summary?
    ensures r.response.body.Error? ==> r.response.status == ErrorStatus(r.response.body.kind)
    ensures i.attempt.Completed? ==> r.effects <= FullTrace(i.url, i.attempt.content)
    ensures i.attempt.Threw? ==> r.effects <= [HttpGet(i.url)]
  {
    if !Truthy(i.url) then
      Fail(UrlMissing, "", [])
    else
      match i.attempt
      case Threw(msg) =>
        Fail(FetchError, msg, [HttpGet(i.url)])
      case Completed(content) =>
        if |content| == 0 then
          Fail(NoContent, "", [HttpGet(i.url)])
        else if !KeyConfigured(i.apiKey) then
          Fail(KeyMissing, "", [HttpGet(i.url), ReadApiKey])
        else
          var trace := FullTrace(i.url, content);
          match i.generate
          case Generated(text) => Reply(Response(200, Summary(text)), trace)
          case GenerateFailed(msg) => Fail(GenerateError, msg, trace)
  }

  /** The handler: the request's url and the outside world in, a response
      and the interactions that produced it out. */
  function Post(url: UrlField, w: World): (r: Reply)
    ensures r.response.status in {200, 400, 500}
    ensures r.response.status == 200 <==> r.response.body.Summary?
    ensures r.response.body.Error? ==> r.response.status == ErrorStatus(r.response.body.kind)
    ensures !Truthy(url) ==> r.effects == []
    ensures w.fetch.FetchFailed? ==> r.effects <= [HttpGet(url)]
    ensures w.fetch.Fetched? ==> r.effects <= FullTrace(url, ExtractContent(w.fetch.page))
  {
    Respond(Inputs(url, Fetch(w.fetch), w.apiKey, w.generate))
  }

  // ---------------------------------------------------------------------
  // The chain of stages, as an independent reference for the handler.

  /** The handler's stages, in the order the handler runs them. */
  datatype Stage = CheckUrl | FetchPage | CheckContent | CheckKey | Summarize

  const Stages: seq<Stage> := [CheckUrl, FetchPage, CheckContent, CheckKey, Summarize]

  /** Whether a stage lets the request go on. */
  predicate Passes(s: Stage, i: Inputs) {
    match s
    case CheckUrl => Truthy(i.url)
    case FetchPage => i.attempt.Completed?
    case CheckContent => i.attempt.Completed? && |i.attempt.content| > 0
    case CheckKey => KeyConfigured(i.apiKey)
    case Summarize => i.generate.Generated?
  }

  /** The failure a stage reports when it does not pass. */
  function StageFailure(s: Stage): ErrorKind {
    match s
    case CheckUrl => UrlMissing
    case FetchPage => FetchError
    case CheckContent => NoContent
    case CheckKey => KeyMissing
    case Summarize => GenerateError
  }

  /** The interactions a stage has with the outside world when it runs. */
  function StageEffects(s: Stage, i: Inputs): seq<Effect> {
    match s
    case CheckUrl => []
    case FetchPage => [HttpGet(i.url)]
    case CheckContent => []
    case CheckKey => [ReadApiKey]
    case Summarize =>
      if i.attempt.Completed? then [GenerateContent(ModelName, PromptPrefix + i.attempt.content)] else []
  }

  /** The interactions of the stages `stages[..n]`, in order. */
  function EffectsUpTo(stages: seq<Stage>, n: nat, i: Inputs): seq<Effect>
    requires n <= |stages|
  {
    if n == 0 then [] else EffectsUpTo(stages, n - 1, i) + StageEffects(stages[n - 1], i)
  }

  /** Index of the first stage that does not pass, if any. */
  function FirstFailing(stages: seq<Stage>, i: Inputs): (r: Option<nat>)
    ensures r.None? <==> forall k :: 0 <= k < |stages| ==> Passes(stages[k], i)
    ensures r.Some? ==> r.value < |stages| && !Passes(stages[r.value], i)
    ensures r.Some? ==> forall k :: 0 <= k < r.value ==> Passes(stages[k], i)
  {
    if |stages| == 0 then None
    else if !Passes(stages[0], i) then Some(0)
    else match FirstFailing(stages[1..], i)
      case None => None
      case Some(k) => Some(k + 1)
  }

  /** The first failing stage among the five, by their pass conditions. */
  lemma FirstFailingOfStages(i: Inputs)
    ensures !Passes(CheckUrl, i) ==> FirstFailing(Stages, i) == Some(0)
    ensures Passes(CheckUrl, i) && !Passes(FetchPage, i) ==> FirstFailing(Stages, i) == Some(1)
    ensures Passes(CheckUrl, i) && Passes(FetchPage, i) && !Passes(CheckContent, i) ==>
      FirstFailing(Stages, i) == Some(2)
    ensures Passes(CheckUrl, i) && Passes(CheckContent, i) && !Passes(CheckKey, i) ==>
      FirstFailing(Stages, i) == Some(3)
    ensures Passes(CheckUrl, i) && Passes(CheckContent, i) && Passes(CheckKey, i) && !Passes(Summarize, i) ==>
      FirstFailing(Stages, i) == Some(4)
    ensures Passes(CheckUrl, i) && Passes(CheckContent, i) && Passes(CheckKey, i) && Passes(Summarize, i) ==>
      FirstFailing(Stages, i) == None
  {
    var r := FirstFailing(Stages, i);
    assert Stages[0] == CheckUrl && Stages[1] == FetchPage && Stages[2] == CheckContent;
    assert Stages[3] == CheckKey && Stages[4] == Summarize;
    if r.Some? {
      assert r.value < 5;
    }
  }

  /** The interactions of the first `n` stages, spelled out. */
  lemma EffectsOfStages(i: Inputs)
    ensures EffectsUpTo(Stages, 1, i) == []
    ensures EffectsUpTo(Stages, 2, i) == [HttpGet(i.url)]
    ensures EffectsUpTo(Stages, 3, i) == [HttpGet(i.url)]
    ensures EffectsUpTo(Stages, 4, i) == [HttpGet(i.url), ReadApiKey]
    ensures i.attempt.Completed? ==> EffectsUpTo(Stages, 5, i) == FullTrace(i.url, i.attempt.content)
  {
    assert EffectsUpTo(Stages, 1, i) == [];
    assert EffectsUpTo(Stages, 2, i) == [HttpGet(i.url)];
    assert EffectsUpTo(Stages, 3, i) == [HttpGet(i.url)];
    assert EffectsUpTo(Stages, 4, i) == [HttpGet(i.url), ReadApiKey];
  }

  /** The handler runs the stages in order and stops at the first that fails:
      it answers with that stage's failure, after exactly the interactions of
      the stages up to and including it; when none fails it answers with the
      generated summary after all of them. */
  lemma RespondFollowsChain(i: Inputs)
    ensures var r := Respond(i);
      match FirstFailing(Stages, i)
      case None =>
        i.generate.Generated? && r.response.body == Summary(i.generate.text)
        && r.effects == EffectsUpTo(Stages, |Stages|, i)
      case Some(k) =>
        k < |Stages| && r.response.body.Error? && r.response.body.kind == StageFailure(Stages[k])
        && r.effects == EffectsUpTo(Stages, k + 1, i)
  {
    match FirstFailing(Stages, i)
    case None => ChainAllPass(i);
    case Some(k) => ChainStopsAt(i, k);
  }

  /** When every stage passes: the summary, after every interaction. */
  lemma ChainAllPass(i: Inputs)
    requires FirstFailing(Stages, i).None?
    ensures i.generate.Generated? && Respond(i).response.body == Summary(i.generate.text)
    ensures Respond(i).effects == EffectsUpTo(Stages, |Stages|, i)
  {
    assert Passes(Stages[0], i) && Passes(Stages[2], i);
    assert Passes(Stages[3], i) && Passes(Stages[4], i);
    EffectsOfStages(i);
  }

  /** When stage `k` is the first to fail: its failure, after the
      interactions of stages 0 to `k`. */
  lemma ChainStopsAt(i: Inputs, k: nat)
    requires FirstFailing(Stages, i) == Some(k)
    ensures k < |Stages| && Respond(i).response.body.Error?
    ensures Respond(i).response.body.kind == StageFailure(Stages[k])
    ensures Respond(i).effects == EffectsUpTo(Stages, k + 1, i)
  {
    EffectsOfStages(i);
    if k >= 1 {
      assert Passes(Stages[0], i);
    }
    if k >= 2 {
      assert Passes(Stages[1], i);
    }
    if k >= 3 {
      assert Passes(Stages[2], i);
    }
    if k >= 4 {
      assert Passes(Stages[3], i);
    }
  }

  // ---------------------------------------------------------------------
  // Each outcome in terms of the inputs.

  /** A missing, empty or otherwise falsy url is rejected before anything
      else happens, and only then. */
  lemma UrlRequired(i: Inputs)
    ensures Respond(i).response.body == Error(UrlMissing, "") <==> !Truthy(i.url)
    ensures !Truthy(i.url) ==> Respond(i).response.status == 400 && Respond(i).effects == []
  {
  }

  /** A fetch or parse failure is reported with the thrown message, and the
      fetch is the only interaction. */
  lemma FetchFailureReported(i: Inputs)
    ensures Respond(i).response.body.Error? && Respond(i).response.body.kind == FetchError
      <==> Truthy(i.url) && i.attempt.Threw?
    ensures Truthy(i.url) && i.attempt.Threw? ==>
      Respond(i).response == Response(500, Error(FetchError, i.attempt.message))
      && Respond(i).effects == [HttpGet(i.url)]
  {
  }

  /** Empty content is answered with a client error; the API key is then
      never consulted. */
  lemma NoContentReported(i: Inputs)
    ensures Respond(i).response.body.Error? && Respond(i).response.body.kind == NoContent
      <==> Truthy(i.url) && i.attempt.Completed? && i.attempt.content == ""
    ensures Respond(i).response.body.Error? && Respond(i).response.body.kind == NoContent ==>
      Respond(i).response.status == 400 && Respond(i).effects == [HttpGet(i.url)]
  {
  }

  /** A missing or empty API key is reported only once content exists. */
  lemma KeyMissingReported(i: Inputs)
    ensures Respond(i).response.body.Error? && Respond(i).response.body.kind == KeyMissing
      <==> Truthy(i.url) && i.attempt.Completed? && i.attempt.content != "" && !KeyConfigured(i.apiKey)
    ensures Respond(i).response.body.Error? && Respond(i).response.body.kind == KeyMissing ==>
      Respond(i).response.status == 500 && Respond(i).effects == [HttpGet(i.url), ReadApiKey]
  {
  }

  /** A summary is answered exactly when every stage passes, and it is the
      generated text itself. */
  lemma SummaryIffAllPass(i: Inputs)
    ensures Respond(i).response.body.Summary?
      <==> Truthy(i.url) && i.attempt.Completed? && i.attempt.content != ""
           && KeyConfigured(i.apiKey) && i.generate.Generated?
    ensures Respond(i).response.body.Summary? ==>
      Respond(i).response == Response(200, Summary(i.generate.text))
  {
  }

  /** A generation failure is reported with the thrown message. */
  lemma GenerateFailureReported(i: Inputs)
    ensures Respond(i).response.body.Error? && Respond(i).response.body.kind == GenerateError
      <==> Truthy(i.url) && i.attempt.Completed? && i.attempt.content != ""
           && KeyConfigured(i.apiKey) && i.generate.GenerateFailed?
    ensures Respond(i).response.body.Error? && Respond(i).response.body.kind == GenerateError ==>
      Respond(i).response == Response(500, Error(GenerateError, i.generate.message))
  {
  }

  /** Nothing is sent to the generation service unless a non-empty key is
      configured and there is content to send; when something is sent, it is
      the fixed instruction followed by that content, to the fixed model. */
  lemma GenerationOnlyWithKeyAndContent(i: Inputs)
    ensures (exists k :: 0 <= k < |Respond(i).effects| && Respond(i).effects[k].GenerateContent?)
      <==> Truthy(i.url) && i.attempt.Completed? && i.attempt.content != "" && KeyConfigured(i.apiKey)
    ensures forall e :: e in Respond(i).effects && e.GenerateContent? ==>
      i.attempt.Completed? && e == GenerateContent(ModelName, PromptPrefix + i.attempt.content)
  {
    var r := Respond(i);
    if Truthy(i.url) && i.attempt.Completed? && i.attempt.content != "" && KeyConfigured(i.apiKey) {
      assert r.effects[2].GenerateContent?;
    }
  }

  // ---------------------------------------------------------------------
  // The whole handler, in terms of the page.

  /** The "no content" answer is given exactly when the chosen raw text is
      whitespace only. */
  lemma NoContentIffBlank(url: UrlField, w: World)
    ensures Post(url, w).response.body.Error? && Post(url, w).response.body.kind == NoContent
      <==> Truthy(url) && w.fetch.Fetched? && AllWs(ChosenText(w.fetch.page))
  {
    NoContentReported(Inputs(url, Fetch(w.fetch), w.apiKey, w.generate));
  }

  /** When generation is attempted, the request sends the fixed instruction
      followed by the page's non-empty content, cleaned and cut to the limit. */
  lemma GenerationRequestShape(url: UrlField, w: World)
    ensures forall e :: e in Post(url, w).effects && e.GenerateContent? ==>
      w.fetch.Fetched? && e == GenerateContent(ModelName, PromptPrefix + ExtractContent(w.fetch.page))
      && |PromptPrefix| < |e.contents| <= |PromptPrefix| + MaxContentLength
  {
    var i := Inputs(url, Fetch(w.fetch), w.apiKey, w.generate);
    GenerationOnlyWithKeyAndContent(i);
  }

  // ---------------------------------------------------------------------
  // The rendered error strings.

  /** The rendered error tells the failures apart, and for the two that embed
      an underlying message that message can be read back. */
  lemma ErrorTextDistinct(k1: ErrorKind, d1: string, k2: ErrorKind, d2: string)
    requires ErrorText(k1, d1) == ErrorText(k2, d2)
    ensures k1 == k2
    ensures k1 == FetchError || k1 == GenerateError ==> d1 == d2
  {
    ErrorTextHead(k1, d1);
    ErrorTextHead(k2, d2);
    if k1 == FetchError && k2 == FetchError {
      PrefixCancel(FetchFailedPrefix, d1, d2);
    } else if k1 == GenerateError && k2 == GenerateError {
      PrefixCancel(GenerateFailedPrefix, d1, d2);
    }
  }

  /** The eleventh code unit of each rendered error, which differs between
      all five. */
  lemma ErrorTextHead(k: ErrorKind, d: string)
    ensures |ErrorText(k, d)| > 10
    ensures ErrorText(k, d)[10] == (match k
      case UrlMissing => 'u'
      case FetchError => 'f'
      case NoContent => 'e'
      case KeyMissing => ' '
      case GenerateError => 's')
  {
    match k
    case FetchError =>
      assert FetchFailedPrefix[10] == 'f';
      assert ErrorText(k, d)[..|FetchFailedPrefix|] == FetchFailedPrefix;
    case GenerateError =>
      assert GenerateFailedPrefix[10] == 's';
      assert ErrorText(k, d)[..|GenerateFailedPrefix|] == GenerateFailedPrefix;
    case _ =>
  }

  lemma PrefixCancel(p: string, a: string, b: string)
    requires p + a == p + b
    ensures a == b
  {
    assert a == (p + a)[|p|..];
    assert b == (p + b)[|p|..];
  }
}
