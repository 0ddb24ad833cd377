# A verified model of the text-to-MySQL pipeline's deterministic core

The system turns a question in natural language into a MySQL query. A
language model checks the question for injection attempts, reasons about the
schema, writes SQL and, when the SQL does not parse, corrects it. A vector
store supplies the relevant table descriptions. A second model phrases the
query results, and a renderer prints them as a text table.

This project models the deterministic logic around those calls, and the calls
themselves become oracles:

- `wrappers.dfy`: `Option`, and `Raise`, which is a value or the text of the
  Python exception raised instead.
- `text.dfy`: the Python `str` operations the core uses, on `seq<char>`.
  These are `strip`, ASCII `upper`/`lower`, `find`, `in`, `replace`, `split`,
  `join`, `ljust`, `*` and `str(n)`.
- `generator.dfy`: `generate_response` over a model oracle
  `(prompt, temperature) -> Raise<string>`. A failed call becomes the literal
  "Error generating response". A prompt is modelled by the values it embeds.
- `llm_models.dfy`: the injection gate's reading of the model's reply, and the
  generator's `_extract_sql`. It also covers the corrector's
  `_extract_sql_clean`: its line scan and its character loop are methods
  proved against specification functions. The four model-backed stages are
  here too, with their temperatures.
- `rag_retriever.dfy`: the schema store. The `SchemaRetriever` class models
  `RAGRetriever` and holds the collection as a map from id to (document,
  embedding, metadata). The upsert, delete, clear and seed-population methods
  update it in place, and the list method reads it.
  `retrieve_chunks` filters by distance, and `get_schema_context` builds the
  numbered context block in a loop.
- `query_chain.dfy`: `process_query` as a function over the
  oracles. It returns the result record together with the trace of stages it
  called. `validate_sql_syntax` runs over an abstract parser.
- `cells.dfy`: a result cell, either NULL or the text `str(value)` gives.
- `result_formatter.dfy`: the formatter's choice of prompt and temperature,
  and `_prepare_data_sample` as a loop proved against its specification.
- `db_executor.dfy`: `format_results_for_display` and `get_result_summary`.
  The column widths are widened in place in an array by a nested loop.

## Model

| member | source | states |
|---|---|---|
| Generator.GenerateResponse | llm_models.py:23-45 | The model's text when the call returns. The literal "Error generating response" when it raises. It never raises itself. |
| LlmModels.CheckInjection | llm_models.py:91-106 | Safe exactly when the model answered and its lower-cased reply contains "true". So "true" wins over "false". A reply with neither word is unsafe, and so is an exception. |
| LlmModels.LowerStripContains | llm_models.py:91-94 | Stripping the reply before lower-casing it does not change whether a space-free word such as "true" is found. |
| LlmModels.FailedGenerationIsUnsafe | llm_models.py:84-106 | When the model call fails, the failure literal comes back and the gate judges the input unsafe. |
| LlmModels.IsSafe | llm_models.py:52-106 | The gate asks the model at temperature 0 and passes the input exactly when the call returns a reply whose lower-cased text contains "true". A failed call is unsafe. |
| LlmModels.GenerateReasoning | llm_models.py:113-192 | The reasoning is the model's reply at temperature 0.3, or the failure literal when the call raises. |
| LlmModels.GenerateSql | llm_models.py:198-229 | The model is asked with the SQL prompt at temperature 0.1. When the call returns, the result is `ExtractSql` of the reply, so the lemmas about `ExtractSql` apply. The generated SQL is trimmed and never starts with a code fence. A failed call yields the failure literal itself. |
| LlmModels.CorrectSql | llm_models.py:257-279 | The model is asked with the correction prompt at temperature 0.1. When the call returns, the result is `CleanedSql` of the reply, so the lemmas about `CleanedSql` apply. A non-empty corrected SQL ends with ';'. A failed call yields the failure literal plus ';'. |
| LlmModels.Unfence | llm_models.py:235-241 | The result is trimmed. A reply that does not start with a code fence is only stripped. |
| LlmModels.CutToSelect | llm_models.py:243-248 | The result is a suffix of the text. |
| LlmModels.ExtractSql | llm_models.py:232-250 | The extracted SQL has no leading or trailing whitespace. |
| LlmModels.FencesRemoved | llm_models.py:235-241 | When the stripped reply starts with a code fence, no "```" is left anywhere in the result, not just at the outer pair. |
| LlmModels.ExtractSqlUnfenced | llm_models.py:235-250 | The extracted SQL never starts with a code fence. |
| LlmModels.CutAtFirstSelect | llm_models.py:243-250 | Text that does not start with SELECT/INSERT/UPDATE/DELETE/WITH in any letter case, but holds "SELECT", is cut at the first "SELECT". The result starts with "SELECT" and is the whole stripped rest of the text from there, all of it when the text is already stripped. Otherwise only whitespace is trimmed. |
| LlmModels.ExtractSqlFromSelect | llm_models.py:232-250 | When the unfenced reply does not start with a statement keyword but holds "SELECT" first at index i, the extracted SQL is the unfenced reply from i to its end. |
| LlmModels.ExtractSqlIdempotent | llm_models.py:232-250 | Extracting from the extractor's own output changes nothing. |
| LlmModels.FailureLiteralPassesExtraction | llm_models.py:228-250 | The failure literal passes through `_extract_sql` unchanged. |
| LlmModels.FailedGenerationPassesExtraction | llm_models.py:198-229 | A failed generation reaches validation as the failure literal itself. |
| LlmModels.UnfenceClean | llm_models.py:283-292 | The text the scan starts from is trimmed. |
| LlmModels.CleanedSql | llm_models.py:281-336 | A non-empty cleaned result ends with ';'. |
| LlmModels.ExtractSqlClean | llm_models.py:281-336 | The method (scan loop, fallback cut, join, terminator) computes the specification `CleanedSql`. |
| LlmModels.CollectLines | llm_models.py:295-314 | The loop with its `sql_started` flag and `break` collects what the recursive scan `Scan` collects. |
| LlmModels.ScanIsWindow | llm_models.py:299-314 | The scan over the raw lines collects the window of the trimmed non-blank lines. |
| LlmModels.CutAtFirstSemicolon | llm_models.py:322-325 | The character loop cuts just after the first ';', or keeps the whole text when there is none. |
| LlmModels.WindowEmpty | llm_models.py:299-314 | Nothing is collected exactly when no trimmed line starts with a statement keyword. |
| LlmModels.WindowFrom | llm_models.py:299-314 | The collected lines run from the first keyword line through the first later line ending in ';' (or the last line). No earlier or later line is collected. |
| LlmModels.CleanedSqlTerminated | llm_models.py:281-336 | The result is "" exactly when the cleaned reply is empty. Every other result ends with ';'. |
| LlmModels.CleanedSqlWindow | llm_models.py:295-334 | With a keyword line, the result is the single-space join of that window, with a ';' added when its last line has none. |
| LlmModels.SemicolonCut | llm_models.py:317-334 | The fallback on a text starting with "SELECT" keeps that start. It holds exactly one ';', as its last character, and copies the text before it. It is the text through its first ';', or the stripped text plus ';' when there is none. |
| LlmModels.CleanedSqlSelectFallback | llm_models.py:317-334 | With no keyword line but a "SELECT" first at index i, the result is the text from i through the first ';' after it, or the stripped text from i plus ';' when there is none. It starts with "SELECT" and holds exactly one ';', at its end. |
| LlmModels.CleanedSqlPassThrough | llm_models.py:317-334 | With neither a keyword line nor "SELECT", the result is the stripped reply, plus ';' when it lacks one. An empty reply stays empty. |
| LlmModels.FailureLiteralCleaned | llm_models.py:281-336 | The corrector's scanner turns the failure literal into the literal with a ';' added. |
| LlmModels.FailedCorrectionIsTerminatedLiteral | llm_models.py:257-279 | A failed correction reaches validation as the failure literal plus ';'. |
| LlmModels.Terminate | llm_models.py:333-334 | A non-empty result ends with ';'. |
| QueryChain.NewQueryChain | query_chain.py:9-15 | The chain keeps `top_k` (2 unless given). Its retriever has the default threshold 1.75 and the given store and oracles. |
| QueryChain.HasTokens | query_chain.py:27-30 | True exactly when some parsed statement has a token. |
| QueryChain.ValidateSqlSyntax | query_chain.py:20-33 | Valid exactly when the parser returns and some statement has a token. False when the parser raises or returns nothing. |
| QueryChain.ProcessQuery | query_chain.py:35-131 | Every result carries the user's query. The gate is always the first call. The run succeeds exactly when the gate passes and retrieval does not raise. |
| QueryChain.GetSqlOnly | query_chain.py:133-140 | The SQL on success. Otherwise "Error: " followed by the security message or the exception text. |
| QueryChain.GetDetailedResponse | query_chain.py:142-144 | The result record of the run. It carries the query and is a success exactly when the gate passes and retrieval does not raise. |
| QueryChain.GateDecides | query_chain.py:41-50 | The result is a security violation exactly when the gate judges the query unsafe. Such a result has status "error", error type "security_violation" and the query, and only the gate was called. |
| QueryChain.ModelOutageIsRejected | query_chain.py:41-50 | When the model is unreachable for the check, the query is rejected after one call. |
| QueryChain.StagesInOrder | query_chain.py:35-101 | The calls are a prefix of gate, schema lookup, chunk retrieval, reasoning, generation, correction. The corrector runs at most once, and exactly when the generated SQL fails validation. |
| QueryChain.SuccessFields | query_chain.py:63-121 | On success the reasoning and the SQL come from the model stages. `original_sql` is the generator's output. `was_corrected` is its invalidity and `is_valid` is the final SQL's validity. Valid SQL is kept as generated. |
| QueryChain.FailedCorrectionStillSucceeds | query_chain.py:94-121 | A correction that still fails validation leaves the status "success", with `was_corrected` set and `is_valid` false. |
| QueryChain.SuccessRetrieval | query_chain.py:56-114 | On success the chunks are the retrieved pairs in order, and the context is what `get_schema_context` returns. |
| QueryChain.UnembeddedQueryProceeds | query_chain.py:56-63 | A query that cannot be embedded still reaches the model stages, with the sentinel context and no chunks. |
| QueryChain.ExceptionPath | query_chain.py:125-131 | The run fails with an error other than the gate's exactly when the store raises. The message is the exception text, there is no error type, and no model stage after the lookup has run. |
| QueryChain.GetSqlOnlyCases | query_chain.py:133-144 | The SQL on success, otherwise "Error: " plus the message. Every error carries a message. The detailed response is the result itself. |
| RagRetriever.GetEmbedding | rag_retriever.py:30-41 | The model's vector, or the empty vector when the call raises. |
| RagRetriever.WithinThreshold | rag_retriever.py:227 | Every kept pair came from the search and has a distance at most the threshold. The list is no longer than the search's. |
| RagRetriever.WithinThresholdKeepsAll | rag_retriever.py:227 | Every pair within the threshold is kept. |
| RagRetriever.WithinThresholdConcat | rag_retriever.py:227 | The filter keeps order: filtering a concatenation filters each part. |
| RagRetriever.SchemaRetriever.RetrieveChunks | rag_retriever.py:203-229 | An unembeddable query gives [] without searching. Every returned pair is within the threshold. The result is no longer than the search's answer. |
| RagRetriever.RetrievalAtMostK | rag_retriever.py:218-229 | When the search reports at most k pairs, as `n_results=k` asks, the retrieval has at most k pairs. |
| RagRetriever.RetrievalKeepsCloseHits | rag_retriever.py:214-229 | When the search answers, the retrieved pairs are exactly its pairs within the threshold. |
| RagRetriever.SchemaContext | rag_retriever.py:242-251 | The context is never empty. |
| RagRetriever.SchemaContextSentinel | rag_retriever.py:242-247 | "No relevant schema found." comes back exactly when nothing was retrieved. Otherwise the context starts with the header. |
| RagRetriever.SchemaContextLayout | rag_retriever.py:247-249 | After the header come the blocks "Schema i (Relevance Score: s):\n<doc>\n\n", one per chunk, numbered from 1 in retrieval order. |
| RagRetriever.SchemaRetriever.SchemaContextFor | rag_retriever.py:231-251 | Raises exactly when retrieval raises. When retrieval returns chunks, the context is `SchemaContext` of those chunks. A returned context is non-empty, and it is the sentinel exactly when retrieval found nothing. |
| RagRetriever.SchemaRetriever.GetSchemaContext | rag_retriever.py:231-251 | The loop that appends one block per chunk computes `SchemaContextFor`. |
| RagRetriever.SchemaRetriever.constructor | rag_retriever.py:11-28 | A retriever over a given store with the given threshold and oracles. |
| RagRetriever.SchemaRetriever.UpdateSchemaChunk | rag_retriever.py:143-164 | With a vector, the id maps to the content, the vector and {"table": id}. Without one, nothing changes. No other id changes. |
| RagRetriever.SchemaRetriever.DeleteSchemaChunk | rag_retriever.py:166-177 | The id is gone and every other entry stays. A store failure is swallowed and changes nothing. |
| RagRetriever.SchemaRetriever.ListStoredChunks | rag_retriever.py:179-191 | Every stored id exactly once, or [] when the store fails. |
| RagRetriever.SchemaRetriever.ClearCollection | rag_retriever.py:193-201 | The collection is empty afterwards, or unchanged when the store fails. |
| RagRetriever.SchemaRetriever.PopulateCollection | rag_retriever.py:116-141 | The loop over the seeds leaves the store as `Seeded` describes. |
| RagRetriever.Seeded | rag_retriever.py:121-141 | Every stored chunk has a vector and {"table": id} as metadata. Every stored id is a seed's id. |
| RagRetriever.SeededExactly | rag_retriever.py:121-141 | The populated store holds exactly the seeds whose content got a vector. Each is under its id with its content, its vector and {"table": id}. |
| ResultFormatter.DataSample | result_formatter_llm.py:102-141 | No rows give "No data available". Rows without a column list raise the TypeError, and only they do. A sample of rows starts with the header line. |
| ResultFormatter.PrepareDataSample | result_formatter_llm.py:102-141 | The loop that collects lines computes `DataSample`. |
| ResultFormatter.SampleLayout | result_formatter_llm.py:115-141 | Empty results give "No data available". Otherwise, when no column name or rendered cell holds a line break, the sample reads back line by line as: the header of column names, a rule of as many dashes, and min(rows, max_rows) rows in order, each the rendered cells with NULL for None, all joined by a bar between spaces. Then comes "... and N more records" exactly when the total exceeds the rows shown. |
| ResultFormatter.FormatRequest | result_formatter_llm.py:52-100 | Every prompt carries the user's question. Only a missing column list with rows raises, with the TypeError. |
| ResultFormatter.FormatQueryResults | result_formatter_llm.py:44-100 | The answer raises exactly when the request does, and then only with the TypeError. Otherwise it is the model's reply (or the failure literal) to the prompt and temperature that `FormatRequest` chose. |
| ResultFormatter.FormatBranches | result_formatter_llm.py:52-100 | A non-empty error message selects the error prompt at temperature 0. Otherwise an effective total of 0 selects the no-data prompt at 0.3, even with rows. Otherwise the data prompt, carrying the total and the sample, goes at 0.2. |
| ResultFormatter.TemperatureIdentifiesBranch | result_formatter_llm.py:52-100 | Each prompt has its own temperature, and every prompt carries the user's question. |
| ResultFormatter.TotalWithoutRows | result_formatter_llm.py:64-116 | A non-zero total with no rows still selects the data prompt, whose sample is "No data available". |
| ResultFormatter.FormatterOutage | result_formatter_llm.py:23-100 | When the model is unreachable, every answer is the failure literal. |
| Cells.Render | db_executor.py:109 | None renders as "NULL", any other value as its `str`. |
| DbExecutor.Widths | db_executor.py:105-110 | One width per column. |
| DbExecutor.WidthsAreMaxima | db_executor.py:105-110 | A column's width is the largest of its name's length and its rendered cells' lengths, with None as "NULL". |
| DbExecutor.WidenColumns | db_executor.py:105-110 | The nested loop widens the width array in place to `Widths`. It stops when a row has more cells than there are columns. |
| DbExecutor.Display | db_executor.py:90-125 | No rows give "No data found.". The IndexError is raised exactly when some row has more cells than there are columns. |
| DbExecutor.FormatResultsForDisplay | db_executor.py:90-125 | The method computes `Display`: "No data found." for no rows, the IndexError for an over-long row, and otherwise header, rule and row lines. |
| DbExecutor.CellsNotTruncated | db_executor.py:113-121 | Cells are padded on the right only: each padded cell starts with the whole rendered value, has exactly its column's width, and ends in spaces. |
| DbExecutor.DisplayLines | db_executor.py:113-125 | When no column name or rendered cell holds a line break, the table reads back line by line as the header, a rule of as many dashes, and one line per row in input order. |
| DbExecutor.AlignedLines | db_executor.py:105-125 | When every row has one cell per column and no column name or rendered cell holds a line break, every line of the table is as long as the header. |
| DbExecutor.GetResultSummary | db_executor.py:127-143 | The counts are the input's, and `has_data` holds exactly when there is a row. |
| DbExecutor.SummaryMatchesDisplay | db_executor.py:127-143 | The summary's column names and counts are the input's. `has_data` holds exactly when the table is not "No data found.", and, when no column name or rendered cell holds a line break, the table has `total_rows` + 2 lines. |

## Left out

- Network calls to the language model and the embedding model, the ChromaDB
  client and MySQL are oracles or parameters. `execute_query` and
  `test_connection` are not modelled: they are connection I/O.
- Prompt wording is not modelled. A prompt is the tuple of values it embeds;
  only the branch and the temperature are visible.
- The similarity search itself is not modelled, and neither are the embedding
  vectors' values. The store's search is an oracle over the stored chunks,
  the query vector and `k`.
- Float formatting `{score:.3f}` is an opaque function. Scores are only
  compared with the threshold (1.75 by default).
- Python's `upper`/`lower` are modelled on ASCII letters only. Non-ASCII case
  mapping can change a string's length and is not modelled.
- Logging, `print` and `load_dotenv` are side effects and are left out, as are
  `_load_model`, the persistence directory and `_initialize_collection`. A
  `print` that raises (an encoding error on the console, say) would also reach
  the catch-all of `process_query`; the model assumes printing never fails.
- app.py (HTTP routes) and eva_analytics_app.py (the web UI) are transport
  around `get_sql_only`/`get_detailed_response`, and are not part of this
  model.
- QueryChain.ProcessQuery: the source calls `get_schema_context` and then
  `retrieve_chunks`, two retrievals of the same query. The oracles are
  functions, so the model performs one retrieval that feeds both. A store
  whose answer changes between the two calls is not modelled.
- The language model is a function of prompt and temperature, so a repeated
  call gives the same answer. Sampling randomness is not modelled.
- `check_injection`'s `except` branch (lines 103-106) cannot be reached
  through `generate_response`, which never raises. It is kept as the
  `Raised` case of `LlmModels.CheckInjection`.
- The gate is the boolean one the code implements. There is no "unrelated"
  verdict in the code, so none is modelled.
- RagRetriever.SchemaRetriever.DeleteSchemaChunk, ListStoredChunks and
  ClearCollection take the store's failure as a boolean parameter
  (`storeFailed`).
- RagRetriever.SchemaRetriever.ClearCollection does not model a failure
  between dropping and recreating the collection, which would leave a stale
  handle.
- RagRetriever.SchemaRetriever.UpdateSchemaChunk does not model an exception
  raised by the store's `upsert`. The source lets it propagate.
- RagRetriever.SchemaRetriever.ListStoredChunks does not fix the order of the
  ids, which is the store's own.
- RagRetriever.SchemaRetriever.PopulateCollection requires an empty
  collection with distinct seed ids. That is the only context the source
  calls it in: a new or empty collection and the fixed seed list.
- ResultFormatter.PrepareDataSample takes `max_rows` as a natural number.
  Python's negative slice bound is not modelled; the only caller uses the
  default 10.
- Cells.Render takes `str(value)` as given. How Python prints dates,
  decimals and other values is not modelled.
- QueryChain.ValidateSqlSyntax treats the parser as an oracle. Which strings
  `sqlparse` accepts is not modelled.
