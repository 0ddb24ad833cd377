/** The result renderer of db_executor.py: the padded text table shown for a
    result set, and the summary record of its size. The MySQL connection
    itself is not part of this model. */
module DbExecutor {
  import opened Wrappers
  import opened Text
  import opened Cells

  /** What the table of an empty result set reads. */
  const NoDataFound: string := "No data found."

  /** The text of the `IndexError` a row with more cells than columns raises. */
  const IndexErrorMessage: string := "list index out of range"

  function Max(a: nat, b: nat): nat {
    if a < b then b else a
  }

  // ---------------------------------------------------------------------------
  // Column widths
  // ---------------------------------------------------------------------------

  /** Every row has at most as many cells as there are columns, so that the
      width list can be indexed by every cell position. */
  predicate Fits(columns: seq<string>, results: seq<Row>) {
    forall r :: 0 <= r < |results| ==> |results[r]| <= |columns|
  }

  /** The widths after the first `c` cells of `row` have widened them. */
  function Widen(widths: seq<nat>, row: Row, c: nat): (w: seq<nat>)
    requires c <= |row| && c <= |widths|
    ensures |w| == |widths|
  {
    seq(|widths|, i requires 0 <= i < |widths| => if i < c then Max(widths[i], |Render(row[i])|) else widths[i])
  }

  /** The widths after the given rows: each column's name length, widened by
      every rendered cell in that column. */
  function Widths(columns: seq<string>, results: seq<Row>): (w: seq<nat>)
    requires Fits(columns, results)
    ensures |w| == |columns|
  {
    if results == [] then seq(|columns|, i requires 0 <= i < |columns| => |columns[i]|)
    else
      var n := |results| - 1;
      Widen(Widths(columns, results[..n]), results[n], |results[n]|)
  }

  /** Lines 105-110: the width of a column is the longest of its name and its
      rendered cells, NULL counting as four characters. */
  lemma {:induction false} WidthsAreMaxima(columns: seq<string>, results: seq<Row>)
    requires Fits(columns, results)
    ensures forall i :: 0 <= i < |columns| ==>
      && Widths(columns, results)[i] >= |columns[i]|
      && (forall r :: 0 <= r < |results| && i < |results[r]| ==> Widths(columns, results)[i] >= |Render(results[r][i])|)
      && (Widths(columns, results)[i] == |columns[i]|
          || exists r :: 0 <= r < |results| && i < |results[r]| && Widths(columns, results)[i] == |Render(results[r][i])|)
  {
    if results != [] {
      var n := |results| - 1;
      var front := results[..n];
      assert Fits(columns, front);
      WidthsAreMaxima(columns, front);
      var before := Widths(columns, front);
      var w := Widths(columns, results);
      forall i | 0 <= i < |columns|
        ensures w[i] >= |columns[i]|
        ensures forall r :: 0 <= r < |results| && i < |results[r]| ==> w[i] >= |Render(results[r][i])|
        ensures w[i] == |columns[i]| || exists r :: 0 <= r < |results| && i < |results[r]| && w[i] == |Render(results[r][i])|
      {
        assert w[i] >= before[i];
        forall r | 0 <= r < |results| && i < |results[r]|
          ensures w[i] >= |Render(results[r][i])|
        {
          if r < n {
            assert results[r] == front[r];
          }
        }
        if w[i] != before[i] {
          assert w[i] == |Render(results[n][i])|;
        } else if w[i] != |columns[i]| {
          var r :| 0 <= r < |front| && i < |front[r]| && before[i] == |Render(front[r][i])|;
          assert results[r] == front[r];
        }
      }
    }
  }

  // ---------------------------------------------------------------------------
  // format_results_for_display
  // ---------------------------------------------------------------------------

  /** The texts, each left-justified to its column's width. */
  function Padded(cells: seq<string>, widths: seq<nat>): (p: seq<string>)
    requires |cells| <= |widths|
    ensures |p| == |cells|
  {
    seq(|cells|, i requires 0 <= i < |cells| => LJust(cells[i], widths[i]))
  }

  /** Line 113: the padded column names joined by " | ". */
  function Header(columns: seq<string>, widths: seq<nat>): string
    requires |columns| <= |widths|
  {
    Join(Padded(columns, widths), " | ")
  }

  /** Lines 119-121: the padded cells of a row joined by " | ". */
  function Line(row: Row, widths: seq<nat>): string
    requires |row| <= |widths|
  {
    Join(Padded(Rendered(row), widths), " | ")
  }

  /** What `format_results_for_display` returns, or the exception it raises. */
  function Display(columns: seq<string>, results: seq<Row>): (table: Raise<string>)
    ensures results == [] ==> table == Ok(NoDataFound)
    ensures table.Raised? <==> results != [] && !Fits(columns, results)
    ensures table.Raised? ==> table.message == IndexErrorMessage
  {
    if results == [] then Ok(NoDataFound)
    else if !Fits(columns, results) then Raised(IndexErrorMessage)
    else
      var widths := Widths(columns, results);
      var header := Header(columns, widths);
      Ok(header + "\n" + Repeat('-', |header|) + "\n"
         + Join(seq(|results|, r requires 0 <= r < |results| => Line(results[r], widths)), "\n"))
  }

  /** Lines 107-110: every cell widens its column in place, in row order;
      a cell beyond the last column raises (`fits` false) and stops the scan. */
  method WidenColumns(colWidths: array<nat>, columns: seq<string>, results: seq<Row>) returns (fits: bool)
    requires colWidths[..] == Widths(columns, [])
    modifies colWidths
    ensures fits == Fits(columns, results)
    ensures fits ==> colWidths[..] == Widths(columns, results)
  {
    var r := 0;
    while r < |results|
      invariant 0 <= r <= |results|
      invariant Fits(columns, results[..r])
      invariant colWidths[..] == Widths(columns, results[..r])
    {
      var row := results[r];
      assert results[..r + 1][..r] == results[..r];
      var c := 0;
      while c < |row|
        invariant 0 <= c <= |row|
        invariant c <= colWidths.Length
        invariant colWidths[..] == Widen(Widths(columns, results[..r]), row, c)
      {
        if c >= colWidths.Length {
          assert |results[r]| > |columns|;
          return false;
        }
        colWidths[c] := Max(colWidths[c], |Render(row[c])|);
        c := c + 1;
      }
      assert Fits(columns, results[..r + 1]);
      r := r + 1;
    }
    assert results[..r] == results;
    return true;
  }

  /** Lines 90-125: the widths start at the column names' lengths and are
      widened cell by cell; then the header, the rule and one line per row
      are put together. */
  method FormatResultsForDisplay(columns: seq<string>, results: seq<Row>) returns (table: Raise<string>)
    ensures table == Display(columns, results)
  {
    if results == [] {
      return Ok(NoDataFound);
    }
    var colWidths := new nat[|columns|](i requires 0 <= i < |columns| => |columns[i]|);
    var fits := WidenColumns(colWidths, columns, results);
    if !fits {
      return Raised(IndexErrorMessage);
    }
    var widths := colWidths[..];
    var header := Header(columns, widths);
    var separator := Repeat('-', |header|);
    var rows: seq<string> := [];
    var k := 0;
    while k < |results|
      invariant 0 <= k <= |results|
      invariant rows == seq(k, j requires 0 <= j < k => Line(results[j], widths))
    {
      rows := rows + [Line(results[k], widths)];
      k := k + 1;
    }
    return Ok(header + "\n" + separator + "\n" + Join(rows, "\n"));
  }

  // ---------------------------------------------------------------------------
  // Properties of the table
  // ---------------------------------------------------------------------------

  /** The length of a line whose cells have exactly the given widths. */
  function JoinedWidth(widths: seq<nat>): nat {
    if |widths| == 0 then 0
    else if |widths| == 1 then widths[0]
    else widths[0] + 3 + JoinedWidth(widths[1..])
  }

  /** Texts no longer than their widths, padded and joined by " | ", make a
      line whose length depends on the widths alone. */
  lemma {:induction false} PaddedJoinLength(cells: seq<string>, widths: seq<nat>)
    requires |cells| == |widths|
    requires forall i :: 0 <= i < |cells| ==> |cells[i]| <= widths[i]
    ensures |Join(Padded(cells, widths), " | ")| == JoinedWidth(widths)
  {
    if |cells| > 1 {
      assert Padded(cells, widths)[1..] == Padded(cells[1..], widths[1..]);
      PaddedJoinLength(cells[1..], widths[1..]);
    }
  }

  /** Lines 113 and 119-121: cells are padded on the right to their column's
      width and never cut: each padded cell begins with the whole rendered
      value, is exactly as wide as its column, and the rest is spaces. */
  lemma CellsNotTruncated(columns: seq<string>, results: seq<Row>)
    requires Fits(columns, results)
    ensures var w := Widths(columns, results);
      forall r, i :: 0 <= r < |results| && 0 <= i < |results[r]| ==>
        var cell := Render(results[r][i]);
        var padded := Padded(Rendered(results[r]), w)[i];
        && |padded| == w[i] && padded[..|cell|] == cell
        && (forall j :: |cell| <= j < |padded| ==> padded[j] == ' ')
    ensures var w := Widths(columns, results);
      forall i :: 0 <= i < |columns| ==>
        var padded := Padded(columns, w)[i];
        |padded| == w[i] && padded[..|columns[i]|] == columns[i]
  {
    var w := Widths(columns, results);
    WidthsAreMaxima(columns, results);
    forall r, i | 0 <= r < |results| && 0 <= i < |results[r]|
      ensures var cell := Render(results[r][i]);
        var padded := Padded(Rendered(results[r]), w)[i];
        && |padded| == w[i] && padded[..|cell|] == cell
        && (forall j :: |cell| <= j < |padded| ==> padded[j] == ' ')
    {
      assert Rendered(results[r])[i] == Render(results[r][i]);
    }
  }

  /** Lines 113-125: when no column name or cell holds a line break, the
      table reads back line by line as the header, a rule of as many dashes
      as the header is long, and one line per row in order. */
  lemma DisplayLines(columns: seq<string>, results: seq<Row>)
    requires results != [] && Fits(columns, results)
    requires forall k :: 0 <= k < |columns| ==> '\n' !in columns[k]
    requires forall r, i :: 0 <= r < |results| && 0 <= i < |results[r]| ==> '\n' !in Render(results[r][i])
    ensures Display(columns, results).Ok?
    ensures var w := Widths(columns, results);
      var lines := Split(Display(columns, results).value, "\n");
      && |lines| == |results| + 2
      && lines[0] == Header(columns, w) && lines[1] == Repeat('-', |lines[0]|)
      && forall r :: 0 <= r < |results| ==> lines[r + 2] == Line(results[r], w)
  {
    var w := Widths(columns, results);
    var header := Header(columns, w);
    var separator := Repeat('-', |header|);
    var rows := seq(|results|, r requires 0 <= r < |results| => Line(results[r], w));
    var all := [header, separator] + rows;
    assert all[1..] == [separator] + rows;
    assert all[1..][1..] == rows;
    assert Join(all, "\n") == header + "\n" + (separator + "\n" + Join(rows, "\n"));
    assert Display(columns, results).value == Join(all, "\n");
    forall k | 0 <= k < |columns|
      ensures '\n' !in Padded(columns, w)[k]
    {
      LJustExcludes(columns[k], w[k], '\n');
    }
    JoinExcludes(Padded(columns, w), " | ", '\n');
    forall r | 0 <= r < |results|
      ensures '\n' !in rows[r]
    {
      forall i | 0 <= i < |results[r]|
        ensures '\n' !in Padded(Rendered(results[r]), w)[i]
      {
        LJustExcludes(Render(results[r][i]), w[i], '\n');
      }
      JoinExcludes(Padded(Rendered(results[r]), w), " | ", '\n');
    }
    SplitJoin(all, '\n');
  }

  /** Lines 105-123: when every row has one cell per column (and no line
      breaks), every line of the table is as long as the header. */
  lemma AlignedLines(columns: seq<string>, results: seq<Row>)
    requires results != [] && forall r :: 0 <= r < |results| ==> |results[r]| == |columns|
    requires forall k :: 0 <= k < |columns| ==> '\n' !in columns[k]
    requires forall r, i :: 0 <= r < |results| && 0 <= i < |results[r]| ==> '\n' !in Render(results[r][i])
    ensures Display(columns, results).Ok?
    ensures var lines := Split(Display(columns, results).value, "\n");
      forall k :: 0 <= k < |lines| ==> |lines[k]| == |lines[0]|
  {
    assert Fits(columns, results);
    WidthsAreMaxima(columns, results);
    DisplayLines(columns, results);
    EqualLengthLines(columns, results, Widths(columns, results), Split(Display(columns, results).value, "\n"));
  }

  /** The lines of a table whose widths bound every name and cell, and whose
      rows have one cell per column, all have the header's length. */
  lemma EqualLengthLines(columns: seq<string>, results: seq<Row>, w: seq<nat>, lines: seq<string>)
    requires |w| == |columns| && forall i :: 0 <= i < |columns| ==> |columns[i]| <= w[i]
    requires forall r :: 0 <= r < |results| ==> |results[r]| == |columns|
    requires forall r, i :: 0 <= r < |results| && 0 <= i < |results[r]| ==> |Render(results[r][i])| <= w[i]
    requires |lines| == |results| + 2
    requires lines[0] == Header(columns, w) && lines[1] == Repeat('-', |lines[0]|)
    requires forall r :: 0 <= r < |results| ==> lines[r + 2] == Line(results[r], w)
    ensures forall k :: 0 <= k < |lines| ==> |lines[k]| == |lines[0]|
  {
    PaddedJoinLength(columns, w);
    forall k | 0 <= k < |lines|
      ensures |lines[k]| == JoinedWidth(w)
    {
      if k >= 2 {
        assert lines[k] == Line(results[k - 2], w);
        PaddedJoinLength(Rendered(results[k - 2]), w);
      }
    }
  }

  // ---------------------------------------------------------------------------
  // get_result_summary
  // ---------------------------------------------------------------------------

  /** The dictionary `get_result_summary` returns. */
  datatype Summary = Summary(totalRows: nat, totalColumns: nat, columnNames: seq<string>, hasData: bool)

  /** Lines 127-143. */
  function GetResultSummary(columns: seq<string>, results: seq<Row>): (s: Summary)
    ensures s.totalRows == |results| && s.columnNames == columns && s.totalColumns == |s.columnNames|
    ensures s.hasData <==> s.totalRows > 0
  {
    Summary(|results|, |columns|, columns, |results| > 0)
  }

  /** The summary and the table agree: there is data exactly when the table
      is something other than "No data found.", and a readable table has a
      line per counted row after its two heading lines. */
  lemma SummaryMatchesDisplay(columns: seq<string>, results: seq<Row>)
    ensures var s := GetResultSummary(columns, results);
      && s.columnNames == columns && s.totalColumns == |columns|
      && (s.hasData <==> Display(columns, results) != Ok(NoDataFound))
    ensures var s := GetResultSummary(columns, results);
      s.hasData && Fits(columns, results)
      && (forall k :: 0 <= k < |columns| ==> '\n' !in columns[k])
      && (forall r, i :: 0 <= r < |results| && 0 <= i < |results[r]| ==> '\n' !in Render(results[r][i]))
      ==> |Split(Display(columns, results).value, "\n")| == s.totalRows + 2
  {
    if results != [] && Fits(columns, results) {
      var header := Header(columns, Widths(columns, results));
      var table := Display(columns, results).value;
      assert table[|header|] == '\n';
      assert '\n' !in NoDataFound;
      if (forall k :: 0 <= k < |columns| ==> '\n' !in columns[k])
        && (forall r, i :: 0 <= r < |results| && 0 <= i < |results[r]| ==> '\n' !in Render(results[r][i])) {
        DisplayLines(columns, results);
      }
    }
  }
}
