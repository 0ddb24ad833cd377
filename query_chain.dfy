/** The orchestrator of query_chain.py: the security gate, schema retrieval,
    reasoning, generation, validation and at most one correction, in that
    order, with a catch-all error path. Every model call and the store are
    reached through oracles, so which stages run and which fields the result
    carries are statements about one function. */
module QueryChain {
  import opened Wrappers
  import opened Generator
  import opened LlmModels
  import opened RagRetriever

  /** The default number of chunks the chain asks the retriever for. */
  const DefaultTopK: int := 2

  /** The `error_message` of a query the gate rejects. */
  const SecurityMessage: string :=
    "This query contains inappropriate content that violates security policies. Please rephrase your request using only standard data retrieval language without any database modification commands."

  /** A statement as the SQL parser returns it: only its tokens matter here. */
  datatype Statement = Statement(tokens: seq<string>)

  /** `sqlparse.parse`: the statements of a text, or the exception it raised. */
  type Parser = string -> Raise<seq<Statement>>

  /** `QueryToSQLChain`: its `top_k`, the text generator its model-backed
      stages share, and the SQL parser. */
  datatype Chain = Chain(topK: int, api: Api, parse: Parser)

  /** The calls `process_query` makes, in order. */
  datatype Stage =
    | InjectionCheck
    | SchemaLookup
    | ChunkRetrieval
    | Reasoning
    | Generation
    | Correction

  /** The dictionary `process_query` returns, by shape. */
  datatype QueryResult =
    | SecurityViolation(userQuery: string)
    | Failed(errorMessage: string, userQuery: string)
    | Success(userQuery: string, retrievedChunks: seq<Hit>, schemaContext: string, reasoning: string,
              originalSql: string, sqlQuery: string, wasCorrected: bool, isValid: bool,
              securityCheckPassed: bool)

  /** The result together with the calls made to produce it. */
  datatype Run = Run(result: QueryResult, calls: seq<Stage>)

  /** The `status` key. */
  function Status(r: QueryResult): string {
    if r.Success? then "success" else "error"
  }

  /** The `error_type` key, when present. */
  function ErrorType(r: QueryResult): Option<string> {
    if r.SecurityViolation? then Some("security_violation") else None
  }

  /** The `error_message` key, when present. */
  function ErrorMessage(r: QueryResult): Option<string> {
    match r
    case SecurityViolation(_) => Some(SecurityMessage)
    case Failed(message, _) => Some(message)
    case Success(_, _, _, _, _, _, _, _, _) => None
  }

  /** `create_query_chain` and `QueryToSQLChain.__init__` (lines 9-15 and
      147-149): the chain keeps `top_k`, 2 unless given, and builds its
      retriever with the default threshold over the existing store. */
  method NewQueryChain(api: Api, parse: Parser, embed: Embedder, nearest: Nearest, formatScore: real -> string,
                       stored: map<string, Chunk>, topK: int := DefaultTopK)
    returns (chain: Chain, retriever: SchemaRetriever)
    ensures chain.topK == topK && chain.api == api && chain.parse == parse
    ensures fresh(retriever) && retriever.threshold == DefaultThreshold && retriever.collection == stored
    ensures retriever.embed == embed && retriever.nearest == nearest && retriever.formatScore == formatScore
  {
    retriever := new SchemaRetriever(DefaultThreshold, embed, nearest, formatScore, stored);
    chain := Chain(topK, api, parse);
  }

  // ---------------------------------------------------------------------------
  // Validation
  // ---------------------------------------------------------------------------

  /** The search of lines 27-29: some statement holds a token. */
  function HasTokens(statements: seq<Statement>): (found: bool)
    ensures found <==> exists i :: 0 <= i < |statements| && statements[i].tokens != []
  {
    if statements == [] then false
    else if statements[0].tokens != [] then true
    else
      var found := HasTokens(statements[1..]);
      assert forall i :: 1 <= i < |statements| ==> statements[i] == statements[1..][i - 1];
      found
  }

  /** `validate_sql_syntax` (lines 20-33): false when the parser raises or
      finds nothing, otherwise whether some statement holds a token. */
  function ValidateSqlSyntax(parse: Parser, sql: string): (valid: bool)
    ensures valid <==> parse(sql).Ok? && exists i :: 0 <= i < |parse(sql).value| && parse(sql).value[i].tokens != []
    ensures parse(sql).Raised? || parse(sql).value == [] ==> !valid
  {
    match parse(sql)
    case Raised(_) => false
    case Ok(statements) => if statements == [] then false else HasTokens(statements)
  }

  // ---------------------------------------------------------------------------
  // process_query
  // ---------------------------------------------------------------------------

  /** Lines 35-131. The gate runs first and a rejection ends the run. The
      schema context and the chunk list come from the same retrieval (the
      oracles answer a repeated call the same way), so only the first lookup
      can raise; that exception becomes the error result. Then come reasoning,
      generation and validation, and the corrector only for SQL that fails
      validation; its output is kept whether or not it validates. */
  function ProcessQuery(chain: Chain, retriever: SchemaRetriever, userQuery: string): (run: Run)
    reads retriever
    ensures run.result.userQuery == userQuery
    ensures run.calls != [] && run.calls[0] == InjectionCheck
    ensures run.result.Success? <==> IsSafe(chain.api, userQuery) && retriever.RetrieveChunks(userQuery, chain.topK).Ok?
  {
    if !IsSafe(chain.api, userQuery) then Run(SecurityViolation(userQuery), [InjectionCheck])
    else
      match retriever.RetrieveChunks(userQuery, chain.topK)
      case Raised(message) => Run(Failed(message, userQuery), [InjectionCheck, SchemaLookup])
      case Ok(chunks) =>
        var schemaContext := SchemaContext(chunks, retriever.formatScore);
        var reasoning := GenerateReasoning(chain.api, userQuery, schemaContext);
        var sql := GenerateSql(chain.api, userQuery, reasoning, schemaContext);
        var isValidSql := ValidateSqlSyntax(chain.parse, sql);
        var validSql := if isValidSql then sql else CorrectSql(chain.api, sql, schemaContext, userQuery);
        var calls := [InjectionCheck, SchemaLookup, ChunkRetrieval, Reasoning, Generation]
          + (if !isValidSql then [Correction] else []);
        Run(Success(userQuery, chunks, schemaContext, reasoning, sql, validSql, !isValidSql,
                    ValidateSqlSyntax(chain.parse, validSql), true), calls)
  }

  /** `get_sql_only` (lines 133-140). */
  function GetSqlOnly(chain: Chain, retriever: SchemaRetriever, userQuery: string): (sql: string)
    reads retriever
    ensures var result := ProcessQuery(chain, retriever, userQuery).result;
      && (result.Success? ==> sql == result.sqlQuery)
      && (result.SecurityViolation? ==> sql == "Error: " + SecurityMessage)
      && (result.Failed? ==> sql == "Error: " + result.errorMessage)
  {
    var result := ProcessQuery(chain, retriever, userQuery).result;
    if Status(result) == "success" then result.sqlQuery
    else "Error: " + ErrorMessage(result).GetOr("Unknown error")
  }

  /** `get_detailed_response` (lines 142-144). */
  function GetDetailedResponse(chain: Chain, retriever: SchemaRetriever, userQuery: string): (result: QueryResult)
    reads retriever
    ensures result.userQuery == userQuery
    ensures result.Success? <==> IsSafe(chain.api, userQuery) && retriever.RetrieveChunks(userQuery, chain.topK).Ok?
  {
    ProcessQuery(chain, retriever, userQuery).result
  }

  // ---------------------------------------------------------------------------
  // Properties of process_query
  // ---------------------------------------------------------------------------

  /** The order in which `process_query` can call its stages. */
  const FullOrder: seq<Stage> := [InjectionCheck, SchemaLookup, ChunkRetrieval, Reasoning, Generation, Correction]

  /** Lines 41-50: the gate rejects exactly the inputs the check judges unsafe,
      and then nothing but the check has run. */
  lemma GateDecides(chain: Chain, retriever: SchemaRetriever, userQuery: string)
    ensures var run := ProcessQuery(chain, retriever, userQuery);
      && (run.result.SecurityViolation? <==> !IsSafe(chain.api, userQuery))
      && (run.result.SecurityViolation? ==>
            && run.result.userQuery == userQuery && run.calls == [InjectionCheck]
            && Status(run.result) == "error" && ErrorType(run.result) == Some("security_violation"))
  {
  }

  /** When the model cannot be reached for the check, the query is rejected:
      the failure literal reads as unsafe. */
  lemma ModelOutageIsRejected(chain: Chain, retriever: SchemaRetriever, userQuery: string)
    requires chain.api(InjectionPrompt(userQuery), 0.0).Raised?
    ensures ProcessQuery(chain, retriever, userQuery) == Run(SecurityViolation(userQuery), [InjectionCheck])
  {
    FailedGenerationIsUnsafe(chain.api, userQuery);
  }

  /** The stages run in their fixed order and each at most once: the calls
      are a prefix of the full order, the corrector among them exactly when
      the generated SQL failed validation. */
  lemma StagesInOrder(chain: Chain, retriever: SchemaRetriever, userQuery: string)
    ensures var run := ProcessQuery(chain, retriever, userQuery);
      && run.calls <= FullOrder
      && multiset(run.calls)[Correction] <= 1
      && (Correction in run.calls <==> run.result.Success? && !ValidateSqlSyntax(chain.parse, run.result.originalSql))
  {
    var run := ProcessQuery(chain, retriever, userQuery);
    CallListsInOrder();
    if run.result.Success? {
      SuccessCalls(!ValidateSqlSyntax(chain.parse, run.result.originalSql));
    }
  }

  /** The calls of a run that stops at the gate or at retrieval. */
  lemma CallListsInOrder()
    ensures [InjectionCheck] <= FullOrder && multiset([InjectionCheck])[Correction] == 0
    ensures [InjectionCheck, SchemaLookup] <= FullOrder && multiset([InjectionCheck, SchemaLookup])[Correction] == 0
  {
  }

  /** The calls of a run that gets through, with or without a correction. */
  lemma SuccessCalls(corrected: bool)
    ensures var calls := [InjectionCheck, SchemaLookup, ChunkRetrieval, Reasoning, Generation]
          + (if corrected then [Correction] else []);
      calls <= FullOrder && multiset(calls)[Correction] <= 1 && (Correction in calls <==> corrected)
  {
  }

  /** Lines 76-121: the fields of a successful result. The reasoning and the
      SQL come from the model stages on the retrieved context; the SQL is
      corrected only when it fails validation and is otherwise kept as
      generated; `was_corrected` and `is_valid` report the two validations. */
  lemma SuccessFields(chain: Chain, retriever: SchemaRetriever, userQuery: string)
    ensures var r := ProcessQuery(chain, retriever, userQuery).result;
      r.Success? ==>
        && r.userQuery == userQuery && r.securityCheckPassed
        && r.reasoning == GenerateReasoning(chain.api, userQuery, r.schemaContext)
        && r.originalSql == GenerateSql(chain.api, userQuery, r.reasoning, r.schemaContext)
        && r.wasCorrected == !ValidateSqlSyntax(chain.parse, r.originalSql)
        && r.isValid == ValidateSqlSyntax(chain.parse, r.sqlQuery)
        && (!r.wasCorrected ==> r.sqlQuery == r.originalSql && r.isValid)
        && (r.wasCorrected ==> r.sqlQuery == CorrectSql(chain.api, r.originalSql, r.schemaContext, userQuery))
  {
  }

  /** Lines 94-105: a correction that still fails validation does not fail
      the request; the corrected text is returned, marked invalid. */
  lemma FailedCorrectionStillSucceeds(chain: Chain, retriever: SchemaRetriever, userQuery: string)
    requires IsSafe(chain.api, userQuery) && retriever.RetrieveChunks(userQuery, chain.topK).Ok?
    requires var context := SchemaContext(retriever.RetrieveChunks(userQuery, chain.topK).value, retriever.formatScore);
      var sql := GenerateSql(chain.api, userQuery, GenerateReasoning(chain.api, userQuery, context), context);
      !ValidateSqlSyntax(chain.parse, sql) && !ValidateSqlSyntax(chain.parse, CorrectSql(chain.api, sql, context, userQuery))
    ensures var r := ProcessQuery(chain, retriever, userQuery).result;
      r.Success? && Status(r) == "success" && r.wasCorrected && !r.isValid
  {
  }

  /** Lines 54-57 and 107-114: the context is what `get_schema_context`
      returns and the chunks are the retrieved pairs, in retrieval order. */
  lemma SuccessRetrieval(chain: Chain, retriever: SchemaRetriever, userQuery: string)
    ensures var r := ProcessQuery(chain, retriever, userQuery).result;
      r.Success? ==>
        && retriever.RetrieveChunks(userQuery, chain.topK) == Ok(r.retrievedChunks)
        && retriever.SchemaContextFor(userQuery, chain.topK) == Ok(r.schemaContext)
  {
  }

  /** A query that cannot be embedded still reaches the model stages, with
      the sentinel as its schema context and no chunks. */
  lemma UnembeddedQueryProceeds(chain: Chain, retriever: SchemaRetriever, userQuery: string)
    requires IsSafe(chain.api, userQuery) && GetEmbedding(retriever.embed, userQuery) == []
    ensures var r := ProcessQuery(chain, retriever, userQuery).result;
      r.Success? && r.schemaContext == NoSchemaFound && r.retrievedChunks == []
  {
  }

  /** Lines 125-131: an exception from the store ends the run with its text
      as the message and no `error_type`. Printing is not modelled, so among
      the modelled stages this is the only way to an error other than the
      gate's. */
  lemma ExceptionPath(chain: Chain, retriever: SchemaRetriever, userQuery: string)
    ensures var run := ProcessQuery(chain, retriever, userQuery);
      run.result.Failed? <==> IsSafe(chain.api, userQuery) && retriever.RetrieveChunks(userQuery, chain.topK).Raised?
    ensures var run := ProcessQuery(chain, retriever, userQuery);
      run.result.Failed? ==>
        && run.result == Failed(retriever.RetrieveChunks(userQuery, chain.topK).message, userQuery)
        && Status(run.result) == "error" && ErrorType(run.result) == None
        && !(Reasoning in run.calls) && !(Generation in run.calls) && !(Correction in run.calls)
  {
  }

  /** Lines 133-144: the SQL of a successful run, otherwise "Error: " and the
      message; every error result carries one, so "Unknown error" never shows.
      The detailed response is the result itself. */
  lemma GetSqlOnlyCases(chain: Chain, retriever: SchemaRetriever, userQuery: string)
    ensures var r := ProcessQuery(chain, retriever, userQuery).result;
      && (r.Success? ==> GetSqlOnly(chain, retriever, userQuery) == r.sqlQuery)
      && (!r.Success? ==> ErrorMessage(r).Some? && GetSqlOnly(chain, retriever, userQuery) == "Error: " + ErrorMessage(r).value)
      && GetDetailedResponse(chain, retriever, userQuery) == r
  {
  }
}
