/**
 * The query-engine records: a user's query with its append-only conversation history,
 * the query engines, references and documents, and the "not soft-deleted" lookups.
 */
module LlmQuery {
  import opened Outcomes

  // Tags of the history entries.
  const QueryHuman := "HumanQuestion"
  const QueryAiResponse := "AIResponse"
  const QueryAiReferences := "AIReferences"

  // Query engine types.
  const QeTypeVertexSearch := "qe_vertex_search"
  const QeTypeLlmService := "qe_llm_service"
  const QeTypeIntegratedSearch := "qe_integrated_search"

  /** One reference: a chunk of text in one of the indexed documents. */
  datatype QueryReference = QueryReference(
    id: string,
    queryEngineId: string,
    queryEngine: string,
    documentId: string,
    documentUrl: string,
    chunkId: Option<string>,
    documentText: Option<string>)

  /** A value in a history entry: a text, or the reference fields of an answer. */
  datatype EntryValue = Text(text: string) | References(refs: seq<QueryReference>)

  /** A history entry: a dict, as its (key, value) pairs in insertion order. */
  type Entry = seq<(string, EntryValue)>

  predicate HasKey(e: Entry, key: string) {
    exists i :: 0 <= i < |e| && e[i].0 == key
  }

  /** `is_human`: the entry has a HumanQuestion key. */
  predicate IsHuman(e: Entry) {
    HasKey(e, QueryHuman)
  }

  /** `is_ai`: the entry has an AIResponse key. */
  predicate IsAi(e: Entry) {
    HasKey(e, QueryAiResponse)
  }

  /** `entry_content`: the first value of the entry; an empty dict raises IndexError. */
  function EntryContent(e: Entry): (r: Try<EntryValue>)
    ensures r.Raised? <==> e == []
    ensures r.Returned? ==> exists i :: 0 <= i < |e| && e[i].1 == r.value
  {
    if e == [] then Raised else Returned(e[0].1)
  }

  /** `{HumanQuestion: prompt}` */
  function HumanEntry(prompt: string): Entry {
    [(QueryHuman, Text(prompt))]
  }

  /** `{AIResponse: response, AIReferences: references}`, in that order. */
  function AiEntry(response: string, references: seq<QueryReference>): Entry {
    [(QueryAiResponse, Text(response)), (QueryAiReferences, References(references))]
  }

  /** A human entry is human and not AI, and its content is the prompt. */
  lemma HumanEntryClassified(prompt: string)
    ensures IsHuman(HumanEntry(prompt)) && !IsAi(HumanEntry(prompt))
    ensures EntryContent(HumanEntry(prompt)) == Returned(Text(prompt))
  {
    assert HumanEntry(prompt)[0].0 == QueryHuman;
  }

  /** An AI entry is AI and not human, and its content is the response text, not the references. */
  lemma AiEntryClassified(response: string, references: seq<QueryReference>)
    ensures IsAi(AiEntry(response, references)) && !IsHuman(AiEntry(response, references))
    ensures EntryContent(AiEntry(response, references)) == Returned(Text(response))
  {
    assert AiEntry(response, references)[0].0 == QueryAiResponse;
  }

  /** Even positions hold human entries and odd positions AI entries, in pairs. */
  predicate Alternating(h: seq<Entry>) {
    && |h| % 2 == 0
    && (forall i :: 0 <= i < |h| && i % 2 == 0 ==> IsHuman(h[i]) && !IsAi(h[i]))
    && (forall i :: 0 <= i < |h| && i % 2 == 1 ==> IsAi(h[i]) && !IsHuman(h[i]))
  }

  /** Appending one question and its answer keeps the log alternating. */
  lemma AlternatingAppend(h: seq<Entry>, prompt: string, response: string, references: seq<QueryReference>)
    requires Alternating(h)
    ensures Alternating(h + [HumanEntry(prompt), AiEntry(response, references)])
  {
    HumanEntryClassified(prompt);
    AiEntryClassified(response, references);
    var h' := h + [HumanEntry(prompt), AiEntry(response, references)];
    assert h'[|h|] == HumanEntry(prompt) && h'[|h| + 1] == AiEntry(response, references);
    assert forall i :: 0 <= i < |h| ==> h'[i] == h[i];
  }

  /** One question and answer of a conversation. */
  datatype Turn = Turn(prompt: string, response: string, references: seq<QueryReference>)

  /** The log left by `update_history` applied to the turns in order, from an empty history. */
  function Replay(turns: seq<Turn>): (h: seq<Entry>)
    ensures |h| == 2 * |turns|
    decreases |turns|
  {
    if turns == [] then []
    else
      var last := turns[|turns| - 1];
      Replay(turns[..|turns| - 1]) + [HumanEntry(last.prompt), AiEntry(last.response, last.references)]
  }

  /** Any log built by `update_history` alone alternates human and AI entries. */
  lemma {:induction false} ReplayAlternates(turns: seq<Turn>)
    ensures Alternating(Replay(turns))
    decreases |turns|
  {
    if turns != [] {
      var last := turns[|turns| - 1];
      ReplayAlternates(turns[..|turns| - 1]);
      AlternatingAppend(Replay(turns[..|turns| - 1]), last.prompt, last.response, last.references);
    }
  }

  /** Entry 2k of a replayed log holds turn k's prompt and entry 2k+1 its response and references. */
  lemma {:induction false} ReplayEntries(turns: seq<Turn>, k: nat)
    requires k < |turns|
    ensures Replay(turns)[2 * k] == HumanEntry(turns[k].prompt)
    ensures Replay(turns)[2 * k + 1] == AiEntry(turns[k].response, turns[k].references)
    decreases |turns|
  {
    if k < |turns| - 1 {
      ReplayEntries(turns[..|turns| - 1], k);
    }
  }

  /** Reading a replayed log back gives the prompts at even entries and the responses at odd ones. */
  lemma ReplayContents(turns: seq<Turn>, k: nat)
    requires k < |turns|
    ensures EntryContent(Replay(turns)[2 * k]) == Returned(Text(turns[k].prompt))
    ensures EntryContent(Replay(turns)[2 * k + 1]) == Returned(Text(turns[k].response))
  {
    ReplayEntries(turns, k);
    HumanEntryClassified(turns[k].prompt);
    AiEntryClassified(turns[k].response, turns[k].references);
  }

  /** A user's query and its conversation history. */
  class UserQuery {
    var id: string
    var userId: string
    var title: Option<string>
    var queryEngineId: string
    var prompt: string
    var response: Option<string>
    /** `history`: None when the stored list is missing */
    var history: Option<seq<Entry>>
    /** `deleted_at_timestamp`: None while the query is not soft-deleted */
    var deletedAt: Option<int>

    /** A new query: no title or response yet, an empty history, not deleted. */
    constructor (id: string, userId: string, queryEngineId: string, prompt: string)
      ensures this.id == id && this.userId == userId && this.queryEngineId == queryEngineId
      ensures this.prompt == prompt
      ensures title == None && response == None && deletedAt == None
      ensures history == Some([])
    {
      this.id := id;
      this.userId := userId;
      title := None;
      this.queryEngineId := queryEngineId;
      this.prompt := prompt;
      response := None;
      history := Some([]);
      deletedAt := None;
    }

    /** The history as a list; a missing history reads as empty. */
    function Log(): seq<Entry>
      reads this
    {
      history.GetOr([])
    }

    /**
     * `update_history`: a missing or empty history becomes `[]`, then the question
     * and the answer are appended; nothing earlier changes.
     */
    method UpdateHistory(prompt: string, response: string, references: seq<QueryReference>)
      modifies this`history
      ensures history == Some(old(Log()) + [HumanEntry(prompt), AiEntry(response, references)])
      ensures |Log()| == |old(Log())| + 2 && Log()[..|old(Log())|] == old(Log())
      ensures Alternating(old(Log())) ==> Alternating(Log())
      ensures forall turns :: old(Log()) == Replay(turns) ==>
        Log() == Replay(turns + [Turn(prompt, response, references)])
    {
      var h: seq<Entry>;
      if history.None? || history.value == [] {
        h := [];
      } else {
        h := history.value;
      }
      assert h == old(Log());
      h := h + [HumanEntry(prompt)];
      h := h + [AiEntry(response, references)];
      assert h == old(Log()) + [HumanEntry(prompt), AiEntry(response, references)];
      history := Some(h);
      if Alternating(old(Log())) {
        AlternatingAppend(old(Log()), prompt, response, references);
      }
      forall turns | old(Log()) == Replay(turns)
        ensures Log() == Replay(turns + [Turn(prompt, response, references)])
      {
        var t := turns + [Turn(prompt, response, references)];
        assert t[..|t| - 1] == turns;
      }
    }
  }

  // ---------------------------------------------------------------------------
  // Store lookups over live records

  /**
   * `.offset(skip).fetch(limit)`: the records after the first `skip`, at most `limit` of
   * them, in order.
   */
  function Page<T>(xs: seq<T>, skip: nat, limit: nat): (r: seq<T>)
    ensures |r| == if skip >= |xs| then 0 else if |xs| - skip < limit then |xs| - skip else limit
    ensures forall i :: 0 <= i < |r| ==> r[i] == xs[skip + i]
  {
    if skip >= |xs| then []
    else if |xs| - skip < limit then xs[skip..]
    else xs[skip..skip + limit]
  }

  /** The queries of a user that are not soft-deleted, in store order. */
  function LiveQueriesOf(rows: seq<UserQuery>, userId: string): (r: seq<UserQuery>)
    reads rows
    ensures |r| <= |rows|
    ensures forall q :: q in r ==> q in rows && q.userId == userId && q.deletedAt.None?
    ensures forall q :: q in rows && q.userId == userId && q.deletedAt.None? ==> q in r
    decreases |rows|
  {
    if rows == [] then []
    else
      var q := rows[0];
      (if q.userId == userId && q.deletedAt.None? then [q] else []) + LiveQueriesOf(rows[1..], userId)
  }

  /** `UserQuery.find_by_user`: a page of the user's live queries. */
  function FindByUser(rows: seq<UserQuery>, userId: string, skip: nat, limit: nat): (r: seq<UserQuery>)
    reads rows
    ensures |r| <= limit
    ensures forall q :: q in r ==> q in rows && q.userId == userId && q.deletedAt.None?
  {
    Page(LiveQueriesOf(rows, userId), skip, limit)
  }

  /** With nothing skipped and room for them all, every live query of the user is listed. */
  lemma FindByUserComplete(rows: seq<UserQuery>, userId: string, limit: nat)
    requires limit >= |rows|
    ensures forall q :: q in rows && q.userId == userId && q.deletedAt.None? ==>
      q in FindByUser(rows, userId, 0, limit)
  {
    var live := LiveQueriesOf(rows, userId);
    assert Page(live, 0, limit) == live;
  }

  /** A query engine: what it searches and how it was built. */
  datatype QueryEngine = QueryEngine(
    id: string,
    name: string,
    queryEngineType: string,
    description: string,
    llmType: Option<string>,
    embeddingType: string,
    vectorStore: Option<string>,
    createdBy: string,
    isPublic: bool,
    indexId: Option<string>,
    indexName: Option<string>,
    endpoint: Option<string>,
    docUrl: Option<string>,
    agents: Option<seq<string>>,
    parentEngineId: Option<string>,
    params: map<string, string>,
    deletedAt: Option<int>)
  {
    /** `deployed_index_name`: the f-string renders a missing index name as "None". */
    function DeployedIndexName(): string {
      "deployed_" + (match indexName case Some(n) => n case None => "None")
    }
  }

  /** Different index names give different deployed names. */
  lemma DeployedIndexNameInjective(a: QueryEngine, b: QueryEngine)
    requires a.indexName.Some? && b.indexName.Some?
    ensures a.DeployedIndexName() == b.DeployedIndexName() <==> a.indexName == b.indexName
  {
    var p := "deployed_";
    if a.DeployedIndexName() == b.DeployedIndexName() {
      assert a.indexName.value == a.DeployedIndexName()[|p|..];
      assert b.indexName.value == b.DeployedIndexName()[|p|..];
    }
  }

  /** An engine without an index name shares its deployed name with an index called "None". */
  lemma DeployedIndexNameOfMissingIndex(a: QueryEngine, b: QueryEngine)
    requires a.indexName == None && b.indexName == Some("None")
    ensures a.DeployedIndexName() == b.DeployedIndexName() == "deployed_None"
  {
  }

  /** Keep the records `keep` accepts, in order. */
  function Filter<T>(xs: seq<T>, keep: T -> bool): (r: seq<T>)
    ensures |r| <= |xs|
    ensures forall i :: 0 <= i < |r| ==> r[i] in xs && keep(r[i])
    ensures forall i :: 0 <= i < |xs| && keep(xs[i]) ==> xs[i] in r
    decreases |xs|
  {
    if xs == [] then [] else (if keep(xs[0]) then [xs[0]] else []) + Filter(xs[1..], keep)
  }

  /** Filtering keeps order: it distributes over concatenation. */
  lemma {:induction false} FilterAppend<T>(xs: seq<T>, ys: seq<T>, keep: T -> bool)
    ensures Filter(xs + ys, keep) == Filter(xs, keep) + Filter(ys, keep)
    decreases |xs|
  {
    if xs == [] {
      assert xs + ys == ys;
    } else {
      assert (xs + ys)[1..] == xs[1..] + ys;
      FilterAppend(xs[1..], ys, keep);
    }
  }

  /** Nothing is kept from records that `keep` rejects. */
  lemma {:induction false} FilterNone<T>(xs: seq<T>, keep: T -> bool)
    requires forall i :: 0 <= i < |xs| ==> !keep(xs[i])
    ensures Filter(xs, keep) == []
    decreases |xs|
  {
    if xs != [] {
      FilterNone(xs[1..], keep);
    }
  }

  /** `QueryEngine.find_by_name`: the first live engine with that name, if any. */
  function FindByName(engines: seq<QueryEngine>, name: string): (r: Option<QueryEngine>)
    ensures r.Some? ==> r.value in engines && r.value.name == name && r.value.deletedAt.None?
    ensures r.None? <==> forall e :: e in engines ==> e.name != name || e.deletedAt.Some?
  {
    var live := Filter(engines, (e: QueryEngine) => e.name == name && e.deletedAt.None?);
    if live == [] then None else Some(live[0])
  }

  /** Among engines in store order, `find_by_name` picks the earliest live match. */
  lemma FindByNameFirst(before: seq<QueryEngine>, e: QueryEngine, after: seq<QueryEngine>)
    requires e.deletedAt.None?
    requires forall x :: x in before ==> x.name != e.name || x.deletedAt.Some?
    ensures FindByName(before + [e] + after, e.name) == Some(e)
  {
    var keep := (x: QueryEngine) => x.name == e.name && x.deletedAt.None?;
    FilterAppend(before + [e], after, keep);
    FilterAppend(before, [e], keep);
    FilterNone(before, keep);
    assert Filter([e], keep) == [e] by {
      assert [e][1..] == [];
    }
  }

  /** The result of a query: the response text and the ids of its references. */
  datatype QueryResult = QueryResult(
    id: string,
    queryEngineId: string,
    queryEngine: string,
    queryRefs: seq<string>,
    response: string)

  /** The references whose ids resolve in the store, in the order of the ids. */
  function ResolvedRefs(ids: seq<string>, store: map<string, QueryReference>): (r: seq<QueryReference>)
    ensures |r| <= |ids|
    ensures forall x :: x in r ==> exists k :: 0 <= k < |ids| && ids[k] in store && store[ids[k]] == x
    decreases |ids|
  {
    if ids == [] then []
    else
      var rest := ResolvedRefs(ids[..|ids| - 1], store);
      var last := ids[|ids| - 1];
      if last in store then rest + [store[last]] else rest
  }

  /** Resolving keeps order: it distributes over concatenation of the ids. */
  lemma {:induction false} ResolvedRefsAppend(xs: seq<string>, ys: seq<string>, store: map<string, QueryReference>)
    ensures ResolvedRefs(xs + ys, store) == ResolvedRefs(xs, store) + ResolvedRefs(ys, store)
    decreases |ys|
  {
    if ys == [] {
      assert xs + ys == xs;
    } else {
      var ys' := ys[..|ys| - 1];
      assert (xs + ys)[..|xs + ys| - 1] == xs + ys';
      ResolvedRefsAppend(xs, ys', store);
    }
  }

  /** When every id resolves, each reference stands at its id's position. */
  lemma {:induction false} ResolvedRefsAllPresent(ids: seq<string>, store: map<string, QueryReference>)
    requires forall k :: 0 <= k < |ids| ==> ids[k] in store
    ensures |ResolvedRefs(ids, store)| == |ids|
    ensures forall k :: 0 <= k < |ids| ==> ResolvedRefs(ids, store)[k] == store[ids[k]]
    decreases |ids|
  {
    if ids != [] {
      ResolvedRefsAllPresent(ids[..|ids| - 1], store);
    }
  }

  /** Every id that resolves contributes its reference. */
  lemma {:induction false} ResolvedRefsKeeps(ids: seq<string>, store: map<string, QueryReference>, k: nat)
    requires k < |ids| && ids[k] in store
    ensures store[ids[k]] in ResolvedRefs(ids, store)
    decreases |ids|
  {
    if k < |ids| - 1 {
      ResolvedRefsKeeps(ids[..|ids| - 1], store, k);
    }
  }

  /** `QueryResult.load_references`: look up each reference id; skip the ones not found. */
  method LoadReferences(result: QueryResult, store: map<string, QueryReference>)
    returns (references: seq<QueryReference>)
    ensures references == ResolvedRefs(result.queryRefs, store)
  {
    var ids := result.queryRefs;
    references := [];
    for i := 0 to |ids|
      invariant references == ResolvedRefs(ids[..i], store)
    {
      assert ids[..i + 1][..i] == ids[..i];
      var ref := ids[i];
      if ref in store {
        references := references + [store[ref]];
      }
    }
    assert ids[..|ids|] == ids;
  }

  /** A document indexed by a query engine. */
  datatype QueryDocument = QueryDocument(
    id: string,
    queryEngineId: string,
    queryEngine: string,
    docUrl: string,
    indexFile: Option<string>,
    indexStart: Option<int>,
    indexEnd: Option<int>,
    deletedAt: Option<int>)

  /** `QueryDocument.find_by_query_engine_id`: a page of the engine's live documents. */
  function FindByQueryEngineId(docs: seq<QueryDocument>, queryEngineId: string, skip: nat, limit: nat)
    : (r: seq<QueryDocument>)
    ensures |r| <= limit
    ensures forall d :: d in r ==> d in docs && d.queryEngineId == queryEngineId && d.deletedAt.None?
  {
    Page(Filter(docs, (d: QueryDocument) => d.queryEngineId == queryEngineId && d.deletedAt.None?), skip, limit)
  }

  /** With room for them all, every live document of the engine is listed. */
  lemma FindByQueryEngineIdComplete(docs: seq<QueryDocument>, queryEngineId: string, limit: nat)
    requires limit >= |docs|
    ensures forall d :: d in docs && d.queryEngineId == queryEngineId && d.deletedAt.None? ==>
      d in FindByQueryEngineId(docs, queryEngineId, 0, limit)
  {
    var live := Filter(docs, (d: QueryDocument) => d.queryEngineId == queryEngineId && d.deletedAt.None?);
    assert Page(live, 0, limit) == live;
  }
}
