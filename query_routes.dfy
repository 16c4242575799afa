/**
 * The decisions of the query routes: building a query engine, asking a query,
 * continuing a query, listing a user's queries and updating one, each as the outcome
 * it returns for a request and, where the route changes a query, the new history.
 */
module QueryRoutes {
  import opened Outcomes
  import opened PyStrings
  import opened LlmQuery

  /** The longest prompt accepted, in characters. */
  const PayloadFileSize: nat := 1024

  // ---------------------------------------------------------------------------
  // Prompts

  /** Why a prompt is refused. */
  datatype PromptRejection =
    | MissingPrompt    // `BadRequest`: no prompt, or ""
    | PromptTooLarge   // `PayloadTooLargeError`: longer than PayloadFileSize

  /** The prompt check shared by `query` and `query_continue`; None when the prompt is accepted. */
  function CheckPrompt(prompt: Option<string>): (r: Option<PromptRejection>)
    ensures r == Some(MissingPrompt) <==> prompt == None || prompt == Some("")
    ensures r == Some(PromptTooLarge) <==> prompt.Some? && |prompt.value| > PayloadFileSize
    ensures r == None <==> prompt.Some? && 0 < |prompt.value| <= PayloadFileSize
  {
    if prompt.None? || prompt.value == "" then Some(MissingPrompt)
    else if |prompt.value| > PayloadFileSize then Some(PromptTooLarge)
    else None
  }

  /** The limit is inclusive: 1024 characters pass and 1025 do not. */
  lemma PromptLengthBoundary(p: string, q: string)
    requires |p| == PayloadFileSize && |q| == PayloadFileSize + 1
    ensures CheckPrompt(Some(p)) == None
    ensures CheckPrompt(Some(q)) == Some(PromptTooLarge)
  {
  }

  // ---------------------------------------------------------------------------
  // query and query_continue

  /** What `query_generate` returns: the response text and the references it used. */
  datatype Generation = Generation(response: string, references: seq<QueryReference>)

  /**
   * `query_generate(user_id, prompt, q_engine, llm_type, user_query)`: the retrieval and
   * generation backend, which may raise. A continuation passes the prior history.
   */
  type Generator = (string, string, Option<QueryEngine>, Option<string>, Option<seq<Entry>>) -> Try<Generation>

  /** What a query route returns. */
  datatype QueryOutcome =
    | EngineNotFound                   // ResourceNotFoundException for the engine id
    | QueryNotFound                    // ResourceNotFoundException for the user query id
    | Rejected(reason: PromptRejection)
    | InternalError                    // anything raised inside the handler's try
    | Generated(userQueryId: string, response: string, references: seq<QueryReference>)

  /**
   * The outcome of `query` for the engine found under the requested id, the prompt and
   * the id of the user found by e-mail; `newId` is the id the new query is saved under.
   */
  function QueryDecision(engine: Option<QueryEngine>, prompt: Option<string>, userId: Option<string>,
                         llmType: Option<string>, generate: Generator, newId: string): (r: QueryOutcome)
    ensures r == EngineNotFound <==> engine.None?
    ensures engine.Some? && CheckPrompt(prompt).Some? ==> r == Rejected(CheckPrompt(prompt).value)
    ensures r.Rejected? ==> engine.Some? && CheckPrompt(prompt) == Some(r.reason)
    ensures r == InternalError <==>
      && engine.Some? && CheckPrompt(prompt).None?
      && (userId.None? || generate(userId.value, prompt.value, engine, llmType, None).Raised?)
    ensures r != QueryNotFound
    ensures r.Generated? <==>
      && engine.Some? && CheckPrompt(prompt).None? && userId.Some?
      && generate(userId.value, prompt.value, engine, llmType, None).Returned?
    ensures r.Generated? ==>
      var g := generate(userId.value, prompt.value, engine, llmType, None).value;
      r == Generated(newId, g.response, g.references)
  {
    if engine.None? then EngineNotFound
    else if CheckPrompt(prompt).Some? then Rejected(CheckPrompt(prompt).value)
    // `user.id` on a user that was not found raises inside the try
    else if userId.None? then InternalError
    else
      match generate(userId.value, prompt.value, engine, llmType, None)
      case Raised => InternalError
      case Returned(g) => Generated(newId, g.response, g.references)
  }

  /** The engine is looked up first: a missing engine is reported whatever the prompt. */
  lemma QueryChecksEngineFirst(prompt: Option<string>, userId: Option<string>, llmType: Option<string>,
                               generate: Generator, newId: string)
    ensures QueryDecision(None, prompt, userId, llmType, generate, newId) == EngineNotFound
  {
  }

  /** A refused prompt is refused before the backend is asked: the generator is never consulted. */
  lemma QueryRejectsBeforeGenerating(engine: QueryEngine, prompt: Option<string>, userId: Option<string>,
                                     llmType: Option<string>, g1: Generator, g2: Generator, newId: string)
    requires CheckPrompt(prompt).Some?
    ensures QueryDecision(Some(engine), prompt, userId, llmType, g1, newId)
         == QueryDecision(Some(engine), prompt, userId, llmType, g2, newId)
  {
  }

  /**
   * `query`: look up the engine, check the prompt, generate, then save a new query whose
   * history holds this one question and answer.
   */
  method Query(engines: map<string, QueryEngine>, queryEngineId: string, prompt: Option<string>,
               userId: Option<string>, llmType: Option<string>, generate: Generator, newId: string)
    returns (outcome: QueryOutcome, created: Option<UserQuery>)
    ensures outcome == QueryDecision(if queryEngineId in engines then Some(engines[queryEngineId]) else None,
                                     prompt, userId, llmType, generate, newId)
    ensures created.Some? <==> outcome.Generated?
    ensures outcome.Generated? ==>
      && fresh(created.value)
      && created.value.id == newId && created.value.userId == userId.value
      && created.value.queryEngineId == engines[queryEngineId].id && created.value.prompt == prompt.value
      && created.value.Log() == [HumanEntry(prompt.value), AiEntry(outcome.response, outcome.references)]
  {
    created := None;
    if queryEngineId !in engines {
      return EngineNotFound, None;
    }
    var qEngine := engines[queryEngineId];
    var check := CheckPrompt(prompt);
    if check.Some? {
      return Rejected(check.value), None;
    }
    if userId.None? {
      return InternalError, None;
    }
    var generation := generate(userId.value, prompt.value, Some(qEngine), llmType, None);
    if generation.Raised? {
      return InternalError, None;
    }
    var result := generation.value;
    var userQuery := new UserQuery(newId, userId.value, qEngine.id, prompt.value);
    userQuery.UpdateHistory(prompt.value, result.response, result.references);
    outcome := Generated(newId, result.response, result.references);
    created := Some(userQuery);
  }

  /**
   * The outcome of `query_continue` on the stored query, if found (given by its fields),
   * with the engine found under that query's engine id.
   */
  function ContinueDecision(found: bool, queryId: string, userId: string, log: Option<seq<Entry>>,
                            engine: Option<QueryEngine>, prompt: Option<string>, llmType: Option<string>,
                            generate: Generator): (r: QueryOutcome)
    ensures r == QueryNotFound <==> !found
    ensures found && CheckPrompt(prompt).Some? ==> r == Rejected(CheckPrompt(prompt).value)
    ensures r.Rejected? ==> found && CheckPrompt(prompt) == Some(r.reason)
    ensures r == InternalError <==>
      found && CheckPrompt(prompt).None? && generate(userId, prompt.value, engine, llmType, log).Raised?
    ensures r != EngineNotFound
    ensures r.Generated? <==>
      found && CheckPrompt(prompt).None? && generate(userId, prompt.value, engine, llmType, log).Returned?
    ensures r.Generated? ==>
      var g := generate(userId, prompt.value, engine, llmType, log).value;
      r == Generated(queryId, g.response, g.references)
  {
    if !found then QueryNotFound
    else if CheckPrompt(prompt).Some? then Rejected(CheckPrompt(prompt).value)
    else
      match generate(userId, prompt.value, engine, llmType, log)
      case Raised => InternalError
      case Returned(g) => Generated(queryId, g.response, g.references)
  }

  /** A refused continuation prompt is refused before the backend is asked. */
  lemma ContinueRejectsBeforeGenerating(queryId: string, userId: string, log: Option<seq<Entry>>,
                                        engine: Option<QueryEngine>, prompt: Option<string>,
                                        llmType: Option<string>, g1: Generator, g2: Generator)
    requires CheckPrompt(prompt).Some?
    ensures ContinueDecision(true, queryId, userId, log, engine, prompt, llmType, g1)
         == ContinueDecision(true, queryId, userId, log, engine, prompt, llmType, g2)
  {
  }

  /**
   * `query_continue`: find the query, check the prompt, look up its engine, generate with
   * the prior history, then append this question and answer to the history.
   */
  method QueryContinue(queries: map<string, UserQuery>, userQueryId: string, engines: map<string, QueryEngine>,
                       prompt: Option<string>, llmType: Option<string>, generate: Generator)
    returns (outcome: QueryOutcome)
    modifies if userQueryId in queries then {queries[userQueryId]} else {}
    ensures userQueryId !in queries ==> outcome == QueryNotFound
    ensures userQueryId in queries ==>
      var q := queries[userQueryId];
      && outcome == ContinueDecision(true, userQueryId, old(q.userId), old(q.history),
                                     if old(q.queryEngineId) in engines then Some(engines[old(q.queryEngineId)]) else None,
                                     prompt, llmType, generate)
      && (outcome.Generated? ==>
            q.Log() == old(q.Log()) + [HumanEntry(prompt.value), AiEntry(outcome.response, outcome.references)])
      && (!outcome.Generated? ==> q.history == old(q.history))
      && q.userId == old(q.userId) && q.queryEngineId == old(q.queryEngineId)
      && q.prompt == old(q.prompt) && q.response == old(q.response) && q.title == old(q.title)
      && q.id == old(q.id) && q.deletedAt == old(q.deletedAt)
  {
    if userQueryId !in queries {
      return QueryNotFound;
    }
    var userQuery := queries[userQueryId];
    var check := CheckPrompt(prompt);
    if check.Some? {
      return Rejected(check.value);
    }
    var qEngine := if userQuery.queryEngineId in engines then Some(engines[userQuery.queryEngineId]) else None;
    var generation := generate(userQuery.userId, prompt.value, qEngine, llmType, userQuery.history);
    if generation.Raised? {
      return InternalError;
    }
    var result := generation.value;
    userQuery.UpdateHistory(prompt.value, result.response, result.references);
    outcome := Generated(userQueryId, result.response, result.references);
  }

  /** A successful continuation of a log of N entries leaves N + 2, keeping the alternation. */
  lemma ContinuationGrowsByOneTurn(before: seq<Entry>, after: seq<Entry>, prompt: string,
                                   response: string, references: seq<QueryReference>)
    requires Alternating(before)
    requires after == before + [HumanEntry(prompt), AiEntry(response, references)]
    ensures |after| == |before| + 2 && Alternating(after)
    ensures EntryContent(after[|before|]) == Returned(Text(prompt))
    ensures EntryContent(after[|before| + 1]) == Returned(Text(response))
  {
    AlternatingAppend(before, prompt, response, references);
    HumanEntryClassified(prompt);
    AiEntryClassified(response, references);
  }

  // ---------------------------------------------------------------------------
  // get_query_list

  /** The fields of a query returned in a list: everything but the history. */
  datatype QuerySummary = QuerySummary(
    id: string,
    userId: string,
    title: Option<string>,
    queryEngineId: string,
    prompt: string,
    response: Option<string>)

  /** What `get_query_list` returns. */
  datatype ListOutcome =
    | InvalidParameter(name: string)   // BadRequest from a ValidationError
    | UserNotFound
    | Listed(queries: seq<QuerySummary>)

  function Summary(q: UserQuery): QuerySummary
    reads q
  {
    QuerySummary(q.id, q.userId, q.title, q.queryEngineId, q.prompt, q.response)
  }

  /** The summaries of the queries, in order. */
  function Summaries(qs: seq<UserQuery>): (r: seq<QuerySummary>)
    reads qs
    ensures |r| == |qs| && forall i :: 0 <= i < |qs| ==> r[i] == Summary(qs[i])
    decreases |qs|
  {
    if qs == [] then [] else [Summary(qs[0])] + Summaries(qs[1..])
  }

  /**
   * `get_query_list` over the stored queries in store order, for the user found by
   * e-mail: `skip` is checked, then `limit`, then the user.
   */
  function GetQueryList(rows: seq<UserQuery>, userId: Option<string>, skip: int, limit: int): (r: ListOutcome)
    reads rows
    ensures r == InvalidParameter("skip") <==> skip < 0
    ensures r == InvalidParameter("limit") <==> skip >= 0 && limit < 1
    ensures r == UserNotFound <==> skip >= 0 && limit >= 1 && userId.None?
    ensures r.Listed? ==> |r.queries| <= limit
    ensures r.Listed? ==> forall i :: 0 <= i < |r.queries| ==>
      exists q :: q in rows && q.userId == userId.value && q.deletedAt.None? && r.queries[i] == Summary(q)
    ensures skip >= 0 && limit >= 1 && userId.Some? ==>
      r == Listed(Summaries(FindByUser(rows, userId.value, skip, limit)))
  {
    if skip < 0 then InvalidParameter("skip")
    else if limit < 1 then InvalidParameter("limit")
    else if userId.None? then UserNotFound
    else
      var page := FindByUser(rows, userId.value, skip, limit);
      Listed(Summaries(page))
  }

  // ---------------------------------------------------------------------------
  // update_query

  /** The text fields of a query that an update may carry. */
  datatype UpdateField = TitleField | PromptField | ResponseField | UserIdField | QueryEngineIdField

  /** The update body as a dict: each field at most once, with its value or None. */
  type UpdateInput = seq<(UpdateField, Option<string>)>

  predicate DistinctFields(input: UpdateInput) {
    forall i, j :: 0 <= i < j < |input| ==> input[i].0 != input[j].0
  }

  /** The value a field ends up with: the last value the input gives it that is not None, else `current`. */
  function Merged(input: UpdateInput, f: UpdateField, current: string): string
    decreases |input|
  {
    if input == [] then current
    else
      var last := input[|input| - 1];
      if last.0 == f && last.1.Some? then last.1.value else Merged(input[..|input| - 1], f, current)
  }

  /** A field the input does not set, or sets to None, keeps its value. */
  lemma {:induction false} MergedUnset(input: UpdateInput, f: UpdateField, current: string)
    requires forall i :: 0 <= i < |input| && input[i].0 == f ==> input[i].1.None?
    ensures Merged(input, f, current) == current
    decreases |input|
  {
    if input != [] {
      MergedUnset(input[..|input| - 1], f, current);
    }
  }

  /** A field the input sets to a value takes that value. */
  lemma {:induction false} MergedSet(input: UpdateInput, k: nat, current: string)
    requires DistinctFields(input)
    requires k < |input| && input[k].1.Some?
    ensures Merged(input, input[k].0, current) == input[k].1.value
    decreases |input|
  {
    if k < |input| - 1 {
      MergedSet(input[..|input| - 1], k, current);
    }
  }

  function MergedOption(input: UpdateInput, f: UpdateField, current: Option<string>): Option<string> {
    if exists i :: 0 <= i < |input| && input[i].0 == f && input[i].1.Some?
    then Some(Merged(input, f, ""))
    else current
  }

  /** What `update_query` returns. */
  datatype UpdateOutcome = UpdateNotFound | Updated

  /** `update_query`: copy each field of the input whose value is not None onto the stored query. */
  method UpdateQuery(queries: map<string, UserQuery>, queryId: string, input: UpdateInput)
    returns (outcome: UpdateOutcome)
    requires DistinctFields(input)
    modifies if queryId in queries then {queries[queryId]} else {}
    ensures outcome == UpdateNotFound <==> queryId !in queries
    ensures queryId in queries ==>
      var q := queries[queryId];
      && q.title == MergedOption(input, TitleField, old(q.title))
      && q.prompt == Merged(input, PromptField, old(q.prompt))
      && q.response == MergedOption(input, ResponseField, old(q.response))
      && q.userId == Merged(input, UserIdField, old(q.userId))
      && q.queryEngineId == Merged(input, QueryEngineIdField, old(q.queryEngineId))
      && q.id == old(q.id) && q.history == old(q.history) && q.deletedAt == old(q.deletedAt)
  {
    if queryId !in queries {
      return UpdateNotFound;
    }
    var existing := queries[queryId];
    for i := 0 to |input|
      invariant existing.title == MergedOption(input[..i], TitleField, old(existing.title))
      invariant existing.prompt == Merged(input[..i], PromptField, old(existing.prompt))
      invariant existing.response == MergedOption(input[..i], ResponseField, old(existing.response))
      invariant existing.userId == Merged(input[..i], UserIdField, old(existing.userId))
      invariant existing.queryEngineId == Merged(input[..i], QueryEngineIdField, old(existing.queryEngineId))
      invariant existing.id == old(existing.id) && existing.history == old(existing.history)
      invariant existing.deletedAt == old(existing.deletedAt)
    {
      var (key, value) := input[i];
      if value.Some? {
        match key {
          case TitleField => existing.title := Some(value.value);
          case PromptField => existing.prompt := value.value;
          case ResponseField => existing.response := Some(value.value);
          case UserIdField => existing.userId := value.value;
          case QueryEngineIdField => existing.queryEngineId := value.value;
        }
      }
      MergeStep(input, i);
    }
    assert input[..|input|] == input;
    outcome := Updated;
  }

  /** One more input field: how the merged values of the prefix grow by one step. */
  lemma MergeStep(input: UpdateInput, i: nat)
    requires i < |input|
    ensures forall f, c :: (Merged(input[..i + 1], f, c)
      == if input[i].0 == f && input[i].1.Some? then input[i].1.value else Merged(input[..i], f, c))
    ensures forall f, c :: (MergedOption(input[..i + 1], f, c)
      == if input[i].0 == f && input[i].1.Some? then Some(input[i].1.value) else MergedOption(input[..i], f, c))
  {
    var p := input[..i + 1];
    assert p[..|p| - 1] == input[..i];
    assert p[|p| - 1] == input[i];
    forall f, c ensures Merged(p, f, c)
      == if input[i].0 == f && input[i].1.Some? then input[i].1.value else Merged(input[..i], f, c)
    {
    }
    forall f, c ensures MergedOption(p, f, c)
      == if input[i].0 == f && input[i].1.Some? then Some(input[i].1.value) else MergedOption(input[..i], f, c)
    {
      if input[i].0 == f && input[i].1.Some? {
        assert p[i].0 == f && p[i].1.Some?;
      } else {
        if exists j :: 0 <= j < |p| && p[j].0 == f && p[j].1.Some? {
          var j :| 0 <= j < |p| && p[j].0 == f && p[j].1.Some?;
          assert j < i;
          assert input[..i][j] == p[j];
        }
        if exists j :: 0 <= j < i && input[..i][j].0 == f && input[..i][j].1.Some? {
          var j :| 0 <= j < i && input[..i][j].0 == f && input[..i][j].1.Some?;
          assert p[j] == input[..i][j];
        }
      }
    }
  }

  // ---------------------------------------------------------------------------
  // query_engine_create

  /** The build request body. */
  datatype EngineConfig = EngineConfig(
    docUrl: Option<string>,
    queryEngineType: Option<string>,
    queryEngine: Option<string>,
    llmType: Option<string>,
    embeddingType: Option<string>,
    vectorStore: Option<string>,
    description: Option<string>,
    params: map<string, string>)

  /** Why a build request is refused (each a `BadRequest`). */
  datatype CreateRejection =
    | MissingDocUrl
    | UnsupportedScheme
    | DocumentUrl           // the url names a PDF rather than a bucket, folder or site
    | MissingEngineName
    | EngineExists(name: string)

  /** The data handed to the build job. */
  datatype BuildJob = BuildJob(
    docUrl: Option<string>,
    queryEngine: string,
    userId: Option<string>,
    queryEngineType: Option<string>,
    llmType: Option<string>,
    embeddingType: Option<string>,
    vectorStore: Option<string>,
    description: Option<string>,
    params: map<string, string>)

  /** `initiate_batch_job` for an engine build; its response is kept as text. */
  type JobStarter = BuildJob -> Try<string>

  /** What `query_engine_create` returns. */
  datatype CreateOutcome = CreateRejected(reason: CreateRejection) | JobStarted(response: string) | CreateFailed

  /** The url schemes a build may start from. */
  predicate HasSupportedScheme(url: string) {
    StartsWith(url, "gs://") || StartsWith(url, "http://") || StartsWith(url, "https://")
    || StartsWith(url, "bq://") || StartsWith(url, "shpt://")
  }

  /** The `doc_url` checks, skipped for integrated-search engines; None when they pass. */
  function CheckDocUrl(docUrl: Option<string>, queryEngineType: Option<string>): (r: Option<CreateRejection>)
    ensures queryEngineType == Some(QeTypeIntegratedSearch) ==> r == None
    ensures queryEngineType != Some(QeTypeIntegratedSearch) ==>
      && (r == Some(MissingDocUrl) <==> docUrl == None || docUrl == Some(""))
      && (r == None <==> docUrl.Some? && HasSupportedScheme(docUrl.value) && !EndsWith(docUrl.value, ".pdf"))
      && (r == Some(UnsupportedScheme) <==> docUrl.Some? && docUrl.value != "" && !HasSupportedScheme(docUrl.value))
      && (r == Some(DocumentUrl) <==> docUrl.Some? && HasSupportedScheme(docUrl.value) && EndsWith(docUrl.value, ".pdf"))
  {
    if queryEngineType == Some(QeTypeIntegratedSearch) then None
    else if docUrl.None? || docUrl.value == "" then Some(MissingDocUrl)
    else if !HasSupportedScheme(docUrl.value) then Some(UnsupportedScheme)
    else if EndsWith(docUrl.value, ".pdf") then Some(DocumentUrl)
    else None
  }

  /** The job data for an accepted request. */
  function BuildJobOf(config: EngineConfig, name: string, userId: Option<string>): BuildJob {
    BuildJob(config.docUrl, name, userId, config.queryEngineType, config.llmType, config.embeddingType,
             config.vectorStore, config.description, config.params)
  }

  /** The outcome of `query_engine_create` against the stored engines. */
  function CreateDecision(config: EngineConfig, engines: seq<QueryEngine>, userId: Option<string>,
                          startJob: JobStarter): (r: CreateOutcome)
    ensures CheckDocUrl(config.docUrl, config.queryEngineType).Some? ==>
      r == CreateRejected(CheckDocUrl(config.docUrl, config.queryEngineType).value)
    ensures r.JobStarted? ==>
      && CheckDocUrl(config.docUrl, config.queryEngineType).None?
      && config.queryEngine.Some? && config.queryEngine.value != ""
      && FindByName(engines, config.queryEngine.value).None?
      && startJob(BuildJobOf(config, config.queryEngine.value, userId)) == Returned(r.response)
    ensures r == CreateRejected(MissingEngineName) <==>
      CheckDocUrl(config.docUrl, config.queryEngineType).None? && (config.queryEngine == None || config.queryEngine == Some(""))
    ensures r.CreateRejected? && r.reason.EngineExists? <==>
      && CheckDocUrl(config.docUrl, config.queryEngineType).None?
      && config.queryEngine.Some? && config.queryEngine.value != ""
      && FindByName(engines, config.queryEngine.value).Some?
    ensures r.CreateRejected? && r.reason.EngineExists? ==> r.reason == EngineExists(config.queryEngine.value)
    ensures (&& CheckDocUrl(config.docUrl, config.queryEngineType).None?
             && config.queryEngine.Some? && config.queryEngine.value != ""
             && FindByName(engines, config.queryEngine.value).None?) ==>
      && (r.JobStarted? <==> startJob(BuildJobOf(config, config.queryEngine.value, userId)).Returned?)
      && (r == CreateFailed <==> startJob(BuildJobOf(config, config.queryEngine.value, userId)).Raised?)
  {
    var docCheck := CheckDocUrl(config.docUrl, config.queryEngineType);
    if docCheck.Some? then CreateRejected(docCheck.value)
    else if config.queryEngine.None? || config.queryEngine.value == "" then CreateRejected(MissingEngineName)
    else if FindByName(engines, config.queryEngine.value).Some? then CreateRejected(EngineExists(config.queryEngine.value))
    else
      match startJob(BuildJobOf(config, config.queryEngine.value, userId))
      case Raised => CreateFailed
      case Returned(response) => JobStarted(response)
  }

  /** An integrated-search build is never refused for its `doc_url`, whatever it is. */
  lemma IntegratedSearchIgnoresDocUrl(config: EngineConfig, engines: seq<QueryEngine>, userId: Option<string>,
                                      startJob: JobStarter)
    requires config.queryEngineType == Some(QeTypeIntegratedSearch)
    ensures var r := CreateDecision(config, engines, userId, startJob);
      r.CreateRejected? ==> r.reason == MissingEngineName || r.reason.EngineExists?
  {
  }

  /** A name that a live engine already has is refused, and no job is started. */
  lemma DuplicateNameRefused(config: EngineConfig, engines: seq<QueryEngine>, userId: Option<string>,
                             startJob: JobStarter, existing: QueryEngine)
    requires CheckDocUrl(config.docUrl, config.queryEngineType).None?
    requires config.queryEngine == Some(existing.name) && existing.name != ""
    requires existing in engines && existing.deletedAt.None?
    ensures CreateDecision(config, engines, userId, startJob) == CreateRejected(EngineExists(existing.name))
  {
  }

  /** The name of a soft-deleted engine may be used again. */
  lemma DeletedNameReusable(config: EngineConfig, deleted: QueryEngine, userId: Option<string>, startJob: JobStarter)
    requires CheckDocUrl(config.docUrl, config.queryEngineType).None?
    requires config.queryEngine == Some(deleted.name) && deleted.name != "" && deleted.deletedAt.Some?
    requires startJob(BuildJobOf(config, deleted.name, userId)).Returned?
    ensures CreateDecision(config, [deleted], userId, startJob).JobStarted?
  {
  }

  /** A url naming a PDF is refused, but the suffix test is case-sensitive: `.PDF` passes. */
  lemma PdfSuffixIsCaseSensitive(bucket: string)
    ensures CheckDocUrl(Some("gs://" + bucket + "/manual.pdf"), None) == Some(DocumentUrl)
    ensures CheckDocUrl(Some("gs://" + bucket + "/manual.PDF"), None) == None
  {
    var lower := "gs://" + bucket + "/manual.pdf";
    var upper := "gs://" + bucket + "/manual.PDF";
    assert lower[..5] == "gs://" && upper[..5] == "gs://";
    assert lower[|lower| - 4..] == ".pdf";
    assert upper[|upper| - 4..] == ".PDF";
  }
}
