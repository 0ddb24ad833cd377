/** The answer formatter of result_formatter_llm.py: it picks one of three
    prompts (an error, no data, or a data sample) and the temperature that
    goes with it, and lays out the sample of rows the data prompt embeds. */
module ResultFormatter {
  import opened Wrappers
  import opened Text
  import opened Generator
  import opened Cells

  /** The default `max_rows` of `_prepare_data_sample`. */
  const MaxRows: nat := 10

  /** The sample of an empty result set. */
  const NoDataAvailable: string := "No data available"

  /** The text of the `TypeError` that joining a missing column list raises. */
  const JoinTypeError: string := "can only join an iterable"

  const ErrorTemperature: real := 0.0
  const NoDataTemperature: real := 0.3
  const DataTemperature: real := 0.2

  function Min(a: int, b: int): int {
    if a <= b then a else b
  }

  // ---------------------------------------------------------------------------
  // _prepare_data_sample
  // ---------------------------------------------------------------------------

  /** One row of the sample: its rendered cells joined by " | ". */
  function RowLine(row: Row): string {
    Join(Rendered(row), " | ")
  }

  /** The last line when the sample shows fewer rows than the total. */
  function Trailer(totalRows: int, shown: nat): seq<string> {
    if totalRows > shown then ["... and " + NatToString(totalRows - shown) + " more records"] else []
  }

  /** The lines of a non-empty sample: the header, a rule of dashes as long
      as the header, the first `maxRows` rows and the trailer. */
  function SampleLines(columns: seq<string>, results: seq<Row>, totalRows: int, maxRows: nat): seq<string> {
    var sample := results[..Min(|results|, maxRows)];
    var header := Join(columns, " | ");
    [header, Repeat('-', |header|)]
      + seq(|sample|, k requires 0 <= k < |sample| => RowLine(sample[k]))
      + Trailer(totalRows, |sample|)
  }

  /** What `_prepare_data_sample` returns, or the exception it raises when
      there are rows but no column list. */
  function DataSample(columns: Option<seq<string>>, results: seq<Row>, totalRows: int, maxRows: nat): (sample: Raise<string>)
    ensures results == [] ==> sample == Ok(NoDataAvailable)
    ensures sample.Raised? <==> results != [] && columns.None?
    ensures sample.Raised? ==> sample.message == JoinTypeError
    ensures sample.Ok? && results != [] ==> StartsWith(sample.value, Join(columns.value, " | ") + "\n")
  {
    if results == [] then Ok(NoDataAvailable)
    else if columns.None? then Raised(JoinTypeError)
    else Ok(Join(SampleLines(columns.value, results, totalRows, maxRows), "\n"))
  }

  /** Lines 102-141: the lines are collected one at a time and joined. */
  method PrepareDataSample(columns: Option<seq<string>>, results: seq<Row>, totalRows: int, maxRows: nat)
    returns (sample: Raise<string>)
    ensures sample == DataSample(columns, results, totalRows, maxRows)
  {
    if results == [] {
      return Ok(NoDataAvailable);
    }
    var sampleResults := results[..Min(|results|, maxRows)];
    if columns.None? {
      return Raised(JoinTypeError);
    }
    var header := Join(columns.value, " | ");
    var formattedData := [header, Repeat('-', |header|)];
    var k := 0;
    while k < |sampleResults|
      invariant 0 <= k <= |sampleResults|
      invariant formattedData == [header, Repeat('-', |header|)]
        + seq(k, j requires 0 <= j < k => RowLine(sampleResults[j]))
    {
      formattedData := formattedData + [RowLine(sampleResults[k])];
      k := k + 1;
    }
    formattedData := formattedData + Trailer(totalRows, |sampleResults|);
    return Ok(Join(formattedData, "\n"));
  }

  /** Lines 115-141: an empty result set gives the fixed text whatever the
      total. Otherwise, when no column name or cell holds a line break, the
      sample reads back line by line as the header, a rule of as many dashes
      as the header is long, the first `min(rows, maxRows)` rows in order with
      NULL for missing values, and the trailer exactly when the total exceeds
      the rows shown, counting the rest. */
  lemma SampleLayout(columns: seq<string>, results: seq<Row>, totalRows: int, maxRows: nat)
    requires forall k :: 0 <= k < |columns| ==> '\n' !in columns[k]
    requires forall r, i :: 0 <= r < |results| && 0 <= i < |results[r]| ==> '\n' !in Render(results[r][i])
    ensures DataSample(Some(columns), [], totalRows, maxRows) == Ok(NoDataAvailable)
    ensures results != [] ==>
      var m := Min(|results|, maxRows);
      var header := Join(columns, " | ");
      && DataSample(Some(columns), results, totalRows, maxRows).Ok?
      && var lines := Split(DataSample(Some(columns), results, totalRows, maxRows).value, "\n");
      && |lines| == m + 2 + (if totalRows > m then 1 else 0)
      && lines[0] == header && lines[1] == Repeat('-', |header|)
      && (forall k :: 0 <= k < m ==> lines[2 + k] == Join(Rendered(results[k]), " | "))
      && (totalRows > m ==> lines[m + 2] == "... and " + NatToString(totalRows - m) + " more records")
  {
    if results != [] {
      LinesHaveNoBreak(columns, results, totalRows, maxRows);
      SplitJoin(SampleLines(columns, results, totalRows, maxRows), '\n');
    }
  }

  /** No line of the sample holds a line break when no column name or cell does. */
  lemma LinesHaveNoBreak(columns: seq<string>, results: seq<Row>, totalRows: int, maxRows: nat)
    requires forall k :: 0 <= k < |columns| ==> '\n' !in columns[k]
    requires forall r, i :: 0 <= r < |results| && 0 <= i < |results[r]| ==> '\n' !in Render(results[r][i])
    ensures forall k :: 0 <= k < |SampleLines(columns, results, totalRows, maxRows)| ==>
      '\n' !in SampleLines(columns, results, totalRows, maxRows)[k]
  {
    var m := Min(|results|, maxRows);
    JoinExcludes(columns, " | ", '\n');
    forall r | 0 <= r < m
      ensures '\n' !in RowLine(results[r])
    {
      JoinExcludes(Rendered(results[r]), " | ", '\n');
    }
    if totalRows > m {
      var n := NatToString(totalRows - m);
      assert '\n' !in n;
    }
  }

  // ---------------------------------------------------------------------------
  // format_query_results
  // ---------------------------------------------------------------------------

  /** Line 64: the given total, or the number of rows passed. */
  function EffectiveTotal(totalRows: Option<int>, results: seq<Row>): int {
    if totalRows.Some? then totalRows.value else |results|
  }

  /** The prompt `format_query_results` sends and its temperature (lines
      52-100); an error message counts only when it is non-empty. The SQL
      text is accepted and not used, as in the source. */
  function FormatRequest(userQuery: string, sqlQuery: string, columns: Option<seq<string>>, results: seq<Row>,
                         errorMessage: Option<string>, totalRows: Option<int>): (request: Raise<(Prompt, real)>)
    ensures request.Raised? ==> request.message == JoinTypeError && results != [] && columns.None?
    ensures request.Ok? ==> var prompt := request.value.0;
      (prompt.FormatErrorPrompt? || prompt.NoDataPrompt? || prompt.DataPrompt?) && prompt.userQuery == userQuery
  {
    if errorMessage.Some? && errorMessage.value != [] then Ok((FormatErrorPrompt(userQuery), ErrorTemperature))
    else
      var total := EffectiveTotal(totalRows, results);
      if total == 0 then Ok((NoDataPrompt(userQuery), NoDataTemperature))
      else
        match DataSample(columns, results, total, MaxRows)
        case Raised(message) => Raised(message)
        case Ok(sample) => Ok((DataPrompt(userQuery, total, sample), DataTemperature))
  }

  /** `format_query_results`: the model's answer to the chosen prompt. */
  function FormatQueryResults(api: Api, userQuery: string, sqlQuery: string, columns: Option<seq<string>>,
                              results: seq<Row>, errorMessage: Option<string>, totalRows: Option<int>): (answer: Raise<string>)
    ensures answer.Raised? <==> FormatRequest(userQuery, sqlQuery, columns, results, errorMessage, totalRows).Raised?
    ensures answer.Raised? ==> answer.message == JoinTypeError
    ensures var request := FormatRequest(userQuery, sqlQuery, columns, results, errorMessage, totalRows);
      request.Ok? ==> answer == Ok(GenerateResponse(api, request.value.0, request.value.1))
  {
    match FormatRequest(userQuery, sqlQuery, columns, results, errorMessage, totalRows)
    case Raised(message) => Raised(message)
    case Ok(request) => Ok(GenerateResponse(api, request.0, request.1))
  }

  /** Lines 52-100: the three branches. A non-empty error message wins over
      any rows and total; then a zero effective total selects the no-data
      prompt even when rows were passed; otherwise the data prompt carries the
      effective total and the sample of at most ten rows. Only a missing
      column list with rows to show raises. */
  lemma FormatBranches(userQuery: string, sqlQuery: string, columns: Option<seq<string>>, results: seq<Row>,
                       errorMessage: Option<string>, totalRows: Option<int>)
    ensures var request := FormatRequest(userQuery, sqlQuery, columns, results, errorMessage, totalRows);
      var total := if totalRows.Some? then totalRows.value else |results|;
      && (errorMessage.Some? && errorMessage.value != [] ==> request == Ok((FormatErrorPrompt(userQuery), 0.0)))
      && (!(errorMessage.Some? && errorMessage.value != []) && total == 0 ==> request == Ok((NoDataPrompt(userQuery), 0.3)))
      && (!(errorMessage.Some? && errorMessage.value != []) && total != 0 ==>
            (request.Raised? <==> results != [] && columns.None?)
            && (request.Ok? ==> request.value == (DataPrompt(userQuery, total, DataSample(columns, results, total, 10).value), 0.2)))
  {
  }

  /** Each branch has its own temperature, so the temperature alone tells
      which prompt was sent. */
  lemma TemperatureIdentifiesBranch(userQuery: string, sqlQuery: string, columns: Option<seq<string>>, results: seq<Row>,
                                    errorMessage: Option<string>, totalRows: Option<int>)
    requires FormatRequest(userQuery, sqlQuery, columns, results, errorMessage, totalRows).Ok?
    ensures var request := FormatRequest(userQuery, sqlQuery, columns, results, errorMessage, totalRows).value;
      var prompt := request.0;
      var temperature := request.1;
      && (temperature == 0.0 <==> prompt.FormatErrorPrompt?)
      && (temperature == 0.3 <==> prompt.NoDataPrompt?)
      && (temperature == 0.2 <==> prompt.DataPrompt?)
      && prompt.userQuery == userQuery
  {
  }

  /** A total given as non-zero with no rows passed still selects the data
      prompt, whose sample is then the fixed "No data available". */
  lemma TotalWithoutRows(userQuery: string, sqlQuery: string, columns: Option<seq<string>>, total: int)
    requires total != 0
    ensures FormatRequest(userQuery, sqlQuery, columns, [], None, Some(total))
      == Ok((DataPrompt(userQuery, total, "No data available"), 0.2))
  {
  }

  /** When the model cannot be reached, every answer the formatter gives is
      the failure literal. */
  lemma FormatterOutage(api: Api, userQuery: string, sqlQuery: string, columns: Option<seq<string>>,
                        results: seq<Row>, errorMessage: Option<string>, totalRows: Option<int>)
    requires forall p: Prompt, t: real :: api(p, t).Raised?
    ensures var answer := FormatQueryResults(api, userQuery, sqlQuery, columns, results, errorMessage, totalRows);
      answer.Ok? ==> answer.value == GenerationFailed
  {
  }
}
