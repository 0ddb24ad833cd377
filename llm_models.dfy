/** The deterministic parts of the model-backed stages in llm_models.py:
    the injection gate's reading of the model's reply, the generator's SQL
    extraction (`SQLGeneratorLLM._extract_sql`) and the corrector's
    line scanner (`SQLCorrectorLLM._extract_sql_clean`). */
module LlmModels {
  import opened Wrappers
  import opened Text
  import opened Generator

  // ---------------------------------------------------------------------------
  // Injection gate
  // ---------------------------------------------------------------------------

  /** `check_injection` once the model has answered: True means the input is
      judged safe. "true" is looked for before "false"; a reply with neither,
      and any exception raised while asking, is judged unsafe. */
  function CheckInjection(reply: Raise<string>): (safe: bool)
    ensures safe <==> reply.Ok? && Contains(Lower(reply.value), "true")
  {
    match reply
    case Raised(_) => false
    case Ok(text) =>
      var r := Lower(Strip(text));
      LowerStripContains(text, "true");
      if Contains(r, "true") then true
      else if Contains(r, "false") then false
      else false
  }

  /** A character that lower-cases to a non-space was not a space. */
  lemma LowerKeepsSpace(c: char)
    ensures IsSpace(c) ==> LowerChar(c) == c
  {
  }

  /** An occurrence of a space-free word in the lower-cased reply lies inside
      the stripped part of the reply. */
  lemma WordInsideStrip(text: string, w: string, i: nat)
    requires |w| > 0 && forall k :: 0 <= k < |w| ==> !IsSpace(w[k])
    requires Occurs(Lower(text), w, i)
    ensures StripStart(text) <= i && i + |w| <= StripEnd(text)
  {
    var lt := Lower(text);
    assert lt[i] == w[0];
    assert lt[i + |w| - 1] == w[|w| - 1];
    LowerKeepsSpace(text[i]);
    LowerKeepsSpace(text[i + |w| - 1]);
  }

  /** Lower-casing the stripped reply finds a space-free word exactly when
      lower-casing the whole reply does: only whitespace is stripped. */
  lemma LowerStripContains(text: string, w: string)
    requires |w| > 0 && forall k :: 0 <= k < |w| ==> !IsSpace(w[k])
    ensures Contains(Lower(Strip(text)), w) <==> Contains(Lower(text), w)
  {
    var a := StripStart(text);
    var b := StripEnd(text);
    var lt := Lower(text);
    LowerSlice(text, a, b);
    ContainsFromSlice(lt, w, a, b);
    if Contains(lt, w) {
      var i := Find(lt, w).value;
      WordInsideStrip(text, w, i);
      ContainsInSlice(lt, w, i, a, b);
    }
  }

  /** When the model call fails, `generate_response` hands back its failure
      literal, and the gate reads that literal as unsafe: it holds no 'u' in
      either case, so no "true" once lower-cased. */
  lemma FailedGenerationIsUnsafe(api: Api, userInput: string)
    requires api(InjectionPrompt(userInput), 0.0).Raised?
    ensures !IsSafe(api, userInput)
  {
    FailureLiteralIsNotTrue();
  }

  /** The failure literal holds no 'u' in either case, so no "true" once lower-cased. */
  lemma FailureLiteralIsNotTrue()
    ensures !Contains(Lower(GenerationFailed), "true")
  {
    var s := GenerationFailed;
    assert 'u' !in s && 'U' !in s;
    LowerHasLetter(s, 'u');
    ContainsHasChar(Lower(s), "true", 2);
  }

  // ---------------------------------------------------------------------------
  // SQL extraction after generation
  // ---------------------------------------------------------------------------

  /** The upper-cased text starts with one of the statement keywords both
      extractors look for (lines 244 and 304 list the same five, in
      different orders). */
  predicate StartsWithKeyword(s: string) {
    || UpperStartsWith(s, "SELECT") || UpperStartsWith(s, "INSERT") || UpperStartsWith(s, "UPDATE")
    || UpperStartsWith(s, "DELETE") || UpperStartsWith(s, "WITH")
  }

  /** Lines 235-241: the stripped reply, with every "```sql" and then every "```"
      deleted when it starts with a code fence. */
  function Unfence(response: string): (unfenced: string)
    ensures unfenced == [] || (!IsSpace(unfenced[0]) && !IsSpace(unfenced[|unfenced| - 1]))
    ensures !StartsWith(Strip(response), "```") ==> unfenced == Strip(response)
  {
    var r := Strip(response);
    StartsWithPrefix(r, "```sql", 3);
    assert "```sql"[..3] == "```";
    if StartsWith(r, "```sql") then Strip(Replace(Replace(r, "```sql", ""), "```", ""))
    else if StartsWith(r, "```") then Strip(Replace(r, "```", ""))
    else r
  }

  /** Lines 243-248: when the text does not start with a statement keyword
      but holds "SELECT" in some letter case, the suffix from the first one. */
  function CutToSelect(r: string): (cut: string)
    ensures |cut| <= |r| && cut == r[|r| - |cut|..|r|]
  {
    var u := Upper(r);
    if !StartsWithKeyword(r) && Contains(u, "SELECT") then r[Find(u, "SELECT").value..] else r
  }

  /** `_extract_sql`. */
  function ExtractSql(response: string): (sql: string)
    ensures sql == [] || (!IsSpace(sql[0]) && !IsSpace(sql[|sql| - 1]))
  {
    var cut := CutToSelect(Unfence(response));
    Strip(cut)
  }

  /** Deleting "```" left to right leaves no "```" behind; the two extra facts
      say that the result can only start with backticks where the input does. */
  lemma {:induction false} ReplaceRemovesFences(s: string)
    ensures var r := Replace(s, "```", "");
      && !Contains(r, "```")
      && (|r| >= 1 && r[0] == '`' ==> |s| >= 1 && s[0] == '`')
      && (|r| >= 2 && r[0] == '`' && r[1] == '`' ==> |s| >= 2 && s[0] == '`' && s[1] == '`')
    decreases |s|
  {
    var r := Replace(s, "```", "");
    if |s| < 3 {
      assert r == s;
    } else if s[..3] == "```" {
      ReplaceRemovesFences(s[3..]);
      assert r == Replace(s[3..], "```", "");
    } else {
      var rest := Replace(s[1..], "```", "");
      ReplaceRemovesFences(s[1..]);
      assert r == [s[0]] + rest;
      assert !Occurs(r, "```", 0) by {
        assert s[..3] == [s[0], s[1], s[2]];
      }
      OccursAfterHead(s[0], rest, "```");
    }
  }

  /** The fence branches of `Unfence` leave no "```" anywhere. */
  lemma UnfenceRemovesFences(response: string)
    requires StartsWith(Strip(response), "```")
    ensures !Contains(Unfence(response), "```")
  {
    var r := Strip(response);
    var x := if StartsWith(r, "```sql") then Replace(r, "```sql", "") else r;
    var y := Replace(x, "```", "");
    ReplaceRemovesFences(x);
    ContainsFromStrip(y, "```");
  }

  /** When the reply starts with a code fence, the extracted SQL holds no "```"
      at all: every fence is deleted, not just the outer pair. */
  lemma FencesRemoved(response: string)
    requires StartsWith(Strip(response), "```")
    ensures !Contains(ExtractSql(response), "```")
  {
    var r := Unfence(response);
    var cut := CutToSelect(r);
    UnfenceRemovesFences(response);
    NoFenceInCut(r);
    ContainsFromStrip(cut, "```");
  }

  /** Cutting cannot create a fence. */
  lemma NoFenceInCut(r: string)
    ensures Contains(CutToSelect(r), "```") ==> Contains(r, "```")
  {
    var cut := CutToSelect(r);
    ContainsFromSlice(r, "```", |r| - |cut|, |r|);
  }

  /** A text whose upper-case form starts with "SELECT" keeps that start when stripped. */
  lemma StripKeepsSelect(x: string)
    requires StartsWith(Upper(x), "SELECT")
    ensures StartsWith(Upper(Strip(x)), "SELECT") && Strip(x) == x[..|Strip(x)|]
  {
    assert !IsSpace(x[0]) && !IsSpace(x[5]);
    StripKeepsPrefix(x, 6);
    UpperPrefix(x, Strip(x), "SELECT");
  }

  /** Upper-casing a longer prefix keeps an upper-case start. */
  lemma UpperPrefix(x: string, r: string, p: string)
    requires StartsWith(Upper(x), p) && |p| <= |r| <= |x| && r == x[..|r|]
    ensures StartsWith(Upper(r), p)
  {
    UpperSlice(x, 0, |r|);
    assert Upper(r)[..|p|] == Upper(x)[..|p|];
  }

  /** The suffix from the first "SELECT" found in the upper-cased text starts
      with "SELECT" once upper-cased. */
  lemma SuffixAtSelect(r: string)
    requires Contains(Upper(r), "SELECT")
    ensures StartsWith(Upper(r[Find(Upper(r), "SELECT").value..]), "SELECT")
  {
    var u := Upper(r);
    var i := Find(u, "SELECT").value;
    UpperSlice(r, i, |r|);
    assert Upper(r[i..])[..6] == u[i..i + 6];
  }

  /** The cut starts at the first "SELECT" and its upper-case form starts with it. */
  lemma CutStartsWithSelect(r: string)
    requires !StartsWithKeyword(r) && Contains(Upper(r), "SELECT")
    ensures var i := Find(Upper(r), "SELECT").value;
      CutToSelect(r) == r[i..] && StartsWith(Upper(r[i..]), "SELECT")
  {
    SuffixAtSelect(r);
  }

  /** A suffix whose upper-case form starts with "SELECT" loses only
      trailing whitespace when stripped. */
  lemma StripSelectSuffix(r: string, i: nat, sql: string)
    requires i <= |r| && StartsWith(Upper(r[i..]), "SELECT") && sql == Strip(r[i..])
    ensures StartsWith(Upper(sql), "SELECT") && sql == r[i..i + |sql|]
  {
    StripKeepsSelect(r[i..]);
    SliceOfSlice(r, i, |r|, 0, |Strip(r[i..])|);
    assert r[i..] == r[i..|r|];
  }

  /** Lines 243-250 on the cleaned text `r`: when it does not start with a
      statement keyword but holds "SELECT" in some letter case, the result
      starts at the first such "SELECT" (the first index `Find` reports) and
      is the rest of `r` from there, stripped (all of it when `r` is already
      stripped); otherwise nothing is cut and only whitespace is trimmed. */
  lemma CutAtFirstSelect(r: string, sql: string)
    requires sql == Strip(CutToSelect(r))
    ensures !StartsWithKeyword(r) && Contains(Upper(r), "SELECT") ==>
      var i := Find(Upper(r), "SELECT").value;
      StartsWith(Upper(sql), "SELECT") && StartsWith(r[i..], sql)
    ensures !StartsWithKeyword(r) && Contains(Upper(r), "SELECT") ==>
      var i := Find(Upper(r), "SELECT").value;
      sql == Strip(r[i..]) && (Strip(r) == r ==> sql == r[i..])
    ensures StartsWithKeyword(r) || !Contains(Upper(r), "SELECT") ==> sql == Strip(r)
  {
    if !StartsWithKeyword(r) && Contains(Upper(r), "SELECT") {
      SelectCutStart(r, Find(Upper(r), "SELECT").value, sql);
      SelectCutEnd(r, sql);
    } else {
      NoSelectCut(r, sql);
    }
  }

  /** `CutAtFirstSelect` when nothing is cut. */
  lemma NoSelectCut(r: string, sql: string)
    requires !(!StartsWithKeyword(r) && Contains(Upper(r), "SELECT")) && sql == Strip(CutToSelect(r))
    ensures sql == Strip(r)
  {
  }

  /** `CutAtFirstSelect` when the cut happens: how the result starts. */
  lemma SelectCutStart(r: string, i: nat, sql: string)
    requires !StartsWithKeyword(r) && Contains(Upper(r), "SELECT")
    requires i == Find(Upper(r), "SELECT").value && sql == Strip(CutToSelect(r))
    ensures StartsWith(Upper(sql), "SELECT") && StartsWith(r[i..], sql)
  {
    CutStartsWithSelect(r);
    StripSelectSuffix(r, i, sql);
    PrefixOfSuffix(r, i, |sql|);
  }

  /** `CutAtFirstSelect` when the cut happens: where the result ends. */
  lemma SelectCutEnd(r: string, sql: string)
    requires !StartsWithKeyword(r) && Contains(Upper(r), "SELECT") && sql == Strip(CutToSelect(r))
    ensures var i := Find(Upper(r), "SELECT").value;
      sql == Strip(r[i..]) && (Strip(r) == r ==> sql == r[i..])
  {
    var i := Find(Upper(r), "SELECT").value;
    CutStartsWithSelect(r);
    if Strip(r) == r {
      StrippedSuffix(r, i);
    }
  }

  /** A suffix of a stripped text that upper-cases to "SELECT..." is itself
      stripped. */
  lemma StrippedSuffix(r: string, i: nat)
    requires Strip(r) == r && i <= |r| && StartsWith(Upper(r[i..]), "SELECT")
    ensures Strip(r[i..]) == r[i..]
  {
    assert Upper(r[i..])[0] == 'S';
    assert r[i..][|r[i..]| - 1] == r[|r| - 1];
    StripUnchanged(r[i..]);
  }

  /** The text `Unfence` returns is already stripped. */
  lemma UnfenceStripped(response: string)
    ensures Strip(Unfence(response)) == Unfence(response)
  {
    var r := Strip(response);
    StripIdempotent(response);
    if StartsWith(r, "```sql") {
      StripIdempotent(Replace(Replace(r, "```sql", ""), "```", ""));
    } else if StartsWith(r, "```") {
      StripIdempotent(Replace(r, "```", ""));
    }
  }

  /** The plain branch of `Unfence` keeps a text that does not start with a fence. */
  lemma UnfencePlain(response: string)
    requires !StartsWith(Strip(response), "```")
    ensures Unfence(response) == Strip(response)
  {
  }

  /** A stripped text that does not start with a fence passes `Unfence` unchanged. */
  lemma UnfenceFixes(x: string)
    requires Strip(x) == x && !StartsWith(x, "```")
    ensures Unfence(x) == x
  {
    UnfencePlain(x);
  }

  /** Text whose upper-case form starts with "SELECT" does not start with a fence. */
  lemma SelectIsNotFence(x: string)
    ensures StartsWith(Upper(x), "SELECT") ==> !StartsWith(x, "```")
  {
    if StartsWith(Upper(x), "SELECT") {
      assert UpperChar(x[0]) == 'S';
    }
  }

  /** The extracted SQL never starts with a code fence. */
  lemma ExtractSqlUnfenced(response: string)
    ensures !StartsWith(ExtractSql(response), "```")
  {
    if StartsWith(Strip(response), "```") {
      FencesRemoved(response);
      StartsWithContains(ExtractSql(response), "```");
    } else {
      PlainReplyUnfenced(response);
    }
  }

  /** `ExtractSqlUnfenced` for a reply that does not start with a fence: the
      result either starts with "SELECT" or is the stripped reply itself. */
  lemma PlainReplyUnfenced(response: string)
    requires !StartsWith(Strip(response), "```")
    ensures !StartsWith(ExtractSql(response), "```")
  {
    var r := Unfence(response);
    StripIdempotent(response);
    CutAtFirstSelect(r, ExtractSql(response));
    SelectIsNotFence(ExtractSql(response));
  }

  /** `_extract_sql` is idempotent: extracting from its own output changes nothing. */
  lemma ExtractSqlIdempotent(response: string)
    ensures ExtractSql(ExtractSql(response)) == ExtractSql(response)
  {
    var r := Unfence(response);
    var sql := ExtractSql(response);
    UnfenceStripped(response);
    CutAtFirstSelect(r, Strip(CutToSelect(r)));
    StripIdempotent(CutToSelect(r));
    ExtractSqlUnfenced(response);
    UnfenceFixes(sql);
    CutAtFirstSelect(sql, Strip(CutToSelect(sql)));
    UpperStartsWithIff(sql, "SELECT");
  }

  /** Lines 243-250 on a whole reply: when the unfenced text does not start
      with a statement keyword but holds "SELECT" in some letter case, first
      at index `i`, the extracted SQL is all of that text from `i` on. */
  lemma ExtractSqlFromSelect(response: string, i: nat)
    requires !StartsWithKeyword(Unfence(response)) && Find(Upper(Unfence(response)), "SELECT") == Some(i)
    ensures ExtractSql(response) == Unfence(response)[i..]
  {
    UnfenceStripped(response);
    CutAtFirstSelect(Unfence(response), ExtractSql(response));
  }

  /** The failure literal holds no 'l' in either case, so no "SELECT" once upper-cased. */
  lemma FailureLiteralHasNoSelect()
    ensures !Contains(Upper(GenerationFailed), "SELECT")
  {
    var s := GenerationFailed;
    assert 'L' !in s && 'l' !in s;
    UpperHasLetter(s, 'L');
    ContainsHasChar(Upper(s), "SELECT", 2);
  }

  /** The failure literal passes through the generator's extraction unchanged,
      so a failed generation reaches validation as if it were SQL. */
  lemma FailureLiteralPassesExtraction()
    ensures ExtractSql(GenerationFailed) == GenerationFailed
  {
    var s := GenerationFailed;
    StripUnchanged(s);
    UnfenceFixes(s);
    FailureLiteralHasNoSelect();
    CutAtFirstSelect(s, Strip(CutToSelect(s)));
  }

  // ---------------------------------------------------------------------------
  // The corrector's line scanner
  // ---------------------------------------------------------------------------

  /** Lines 283-292: the stripped reply, or the stripped inside of its first
      code block, a "```sql" block taking precedence over a plain one. */
  function UnfenceClean(response: string): (unfenced: string)
    ensures unfenced == [] || (!IsSpace(unfenced[0]) && !IsSpace(unfenced[|unfenced| - 1]))
  {
    var r := Strip(response);
    if Contains(r, "```sql") then Strip(Split(Split(r, "```sql")[1], "```")[0])
    else if Contains(r, "```") then
      var parts := Split(r, "```");
      if |parts| >= 2 then Strip(parts[1]) else r
    else r
  }

  /** The trimmed lines that are not empty, in order: the lines the scan of
      lines 299-314 looks at. */
  function NonBlank(lines: seq<string>): (t: seq<string>)
    ensures |t| <= |lines|
    ensures forall k :: 0 <= k < |t| ==> t[k] != []
  {
    if lines == [] then []
    else if Strip(lines[0]) == [] then NonBlank(lines[1..])
    else [Strip(lines[0])] + NonBlank(lines[1..])
  }

  /** The lines of the cleaned reply that the scan looks at. */
  function ScanLines(r: string): seq<string> {
    NonBlank(Split(r, "\n"))
  }

  /** The lines the scan collects from `t` (lines 304-314): none until one
      starts with a statement keyword, then every line up to and including the
      first that ends in ';'. `started` is the scan's `sql_started` flag. */
  function Window(t: seq<string>, started: bool): (w: seq<string>)
    ensures |w| <= |t|
    ensures forall k :: 0 <= k < |w| ==> w[k] in t
  {
    if t == [] then []
    else if !started && !StartsWithKeyword(t[0]) then Window(t[1..], false)
    else if EndsWith(t[0], ";") then [t[0]]
    else [t[0]] + Window(t[1..], true)
  }

  /** Lines 322-325: the text up to and including its first ';', or all of it. */
  function CutAtSemicolon(s: string): string {
    match Find(s, ";")
    case Some(k) => s[..k + 1]
    case None => s
  }

  /** The lines to join (lines 295-327): the window, or when it is empty and
      the text holds "SELECT" in some letter case, the single stripped piece
      from the first "SELECT" through the first ';' after it. */
  function SqlLines(r: string): seq<string> {
    var window := Window(ScanLines(r), false);
    if window == [] && Contains(Upper(r), "SELECT")
    then [Strip(CutAtSemicolon(r[Find(Upper(r), "SELECT").value..]))]
    else window
  }

  /** Lines 333-334: a non-empty text gets a ';' unless it already ends with one. */
  function Terminate(s: string): (t: string)
    ensures t == [] <==> s == []
    ensures t != [] ==> t[|t| - 1] == ';'
  {
    if s != [] && !EndsWith(s, ";") then s + ";" else s
  }

  /** Lines 295-336 on the cleaned text `r`. */
  function SqlFromText(r: string): string {
    var sqlLines := SqlLines(r);
    Terminate(if sqlLines != [] then Join(sqlLines, " ") else Strip(r))
  }

  /** `_extract_sql_clean`, as a function of the reply. */
  function CleanedSql(response: string): (sql: string)
    ensures sql != [] ==> sql[|sql| - 1] == ';'
  {
    SqlFromText(UnfenceClean(response))
  }

  /** The scan of lines 299-314 as the loop runs it over the raw lines, from
      line `i` on with the `sql_started` flag `started`. */
  function Scan(lines: seq<string>, i: nat, started: bool): seq<string>
    decreases |lines| - i
  {
    if i >= |lines| then []
    else
      var line := Strip(lines[i]);
      if line == [] then Scan(lines, i + 1, started)
      else if !started && !StartsWithKeyword(line) then Scan(lines, i + 1, false)
      else if EndsWith(line, ";") then [line]
      else [line] + Scan(lines, i + 1, true)
  }

  /** One step of the window over the non-blank lines from line `i` on. */
  lemma WindowStep(lines: seq<string>, i: nat, started: bool)
    requires i < |lines|
    ensures var line := Strip(lines[i]);
      Window(NonBlank(lines[i..]), started) ==
        if line == [] then Window(NonBlank(lines[i + 1..]), started)
        else if !started && !StartsWithKeyword(line) then Window(NonBlank(lines[i + 1..]), false)
        else if EndsWith(line, ";") then [line]
        else [line] + Window(NonBlank(lines[i + 1..]), true)
  {
    assert lines[i..][1..] == lines[i + 1..];
  }

  /** The loop's scan over the raw lines collects the window of the non-blank lines. */
  lemma {:induction false} ScanIsWindow(lines: seq<string>, i: nat, started: bool)
    requires i <= |lines|
    ensures Scan(lines, i, started) == Window(NonBlank(lines[i..]), started)
    decreases |lines| - i
  {
    if i < |lines| {
      var line := Strip(lines[i]);
      WindowStep(lines, i, started);
      if line == [] {
        ScanIsWindow(lines, i + 1, started);
      } else if !started && !StartsWithKeyword(line) {
        ScanIsWindow(lines, i + 1, false);
      } else if !EndsWith(line, ";") {
        ScanIsWindow(lines, i + 1, true);
      }
    }
  }

  /** `_extract_sql_clean`: the scan over the lines, then, when it collected
      nothing, the search for the first "SELECT" and its first ';'. */
  method ExtractSqlClean(response: string) returns (sql: string)
    ensures sql == CleanedSql(response)
  {
    var r := UnfenceClean(response);
    var lines := Split(r, "\n");
    var sqlLines := CollectLines(lines);
    ScanIsWindow(lines, 0, false);
    assert lines[0..] == lines;
    if sqlLines == [] && Contains(Upper(r), "SELECT") {
      var selectIndex := Find(Upper(r), "SELECT").value;
      var cut := CutAtFirstSemicolon(r[selectIndex..]);
      sqlLines := [Strip(cut)];
    }
    assert sqlLines == SqlLines(r);
    var joined := if sqlLines != [] then Join(sqlLines, " ") else Strip(r);
    sql := joined;
    if sql != [] && !EndsWith(sql, ";") {
      sql := sql + ";";
    }
  }

  /** Lines 299-314: the loop that collects the SQL lines. */
  method CollectLines(lines: seq<string>) returns (sqlLines: seq<string>)
    ensures sqlLines == Scan(lines, 0, false)
  {
    sqlLines := [];
    var started := false;
    var i := 0;
    while i < |lines|
      invariant 0 <= i <= |lines|
      invariant sqlLines + Scan(lines, i, started) == Scan(lines, 0, false)
    {
      var line := Strip(lines[i]);
      ScanStep(lines, i, started, line);
      if line != [] {
        if StartsWithKeyword(line) {
          started := true;
        }
        if started {
          sqlLines := sqlLines + [line];
          if EndsWith(line, ";") {
            break;
          }
        }
      }
      i := i + 1;
    }
  }

  /** One step of the scan, with the stripped line named. */
  lemma ScanStep(lines: seq<string>, i: nat, started: bool, line: string)
    requires i < |lines| && line == Strip(lines[i])
    ensures Scan(lines, i, started) ==
      if line == [] then Scan(lines, i + 1, started)
      else if !started && !StartsWithKeyword(line) then Scan(lines, i + 1, false)
      else if EndsWith(line, ";") then [line]
      else [line] + Scan(lines, i + 1, true)
  {
  }

  /** Lines 322-325: the loop that cuts the text after its first ';'. */
  method CutAtFirstSemicolon(text: string) returns (cut: string)
    ensures cut == CutAtSemicolon(text)
  {
    cut := text;
    var j := 0;
    while j < |text|
      invariant 0 <= j <= |text|
      invariant forall m :: 0 <= m < j ==> text[m] != ';'
    {
      if text[j] == ';' {
        cut := text[..j + 1];
        FindChar(text, ';', j);
        break;
      }
      j := j + 1;
    }
    FindChar(text, ';', j);
  }

  // Properties of `_extract_sql_clean`

  /** The window is empty exactly when no line starts with a statement keyword. */
  lemma {:induction false} WindowEmpty(t: seq<string>)
    ensures Window(t, false) == [] <==> forall j :: 0 <= j < |t| ==> !StartsWithKeyword(t[j])
    decreases |t|
  {
    if t != [] {
      WindowEmpty(t[1..]);
      forall j | 1 <= j < |t| ensures t[1..][j - 1] == t[j] { }
    }
  }

  /** Once collecting, the window runs through line `e`, the first that ends
      in ';', or the last line. */
  lemma {:induction false} WindowRest(t: seq<string>, e: nat)
    requires e < |t|
    requires forall j :: 0 <= j < e ==> !EndsWith(t[j], ";")
    requires EndsWith(t[e], ";") || e == |t| - 1
    ensures Window(t, true) == t[..e + 1]
    decreases e
  {
    if e > 0 {
      WindowRest(t[1..], e - 1);
      assert t[..e + 1] == [t[0]] + t[1..][..e];
    }
  }

  /** The window runs from `f`, the first line that starts with a statement
      keyword, through `e`, the first line from `f` on that ends in ';' (or
      the last line): no earlier and no later line is collected. */
  lemma {:induction false} WindowFrom(t: seq<string>, f: nat, e: nat)
    requires f <= e < |t|
    requires StartsWithKeyword(t[f]) && forall j :: 0 <= j < f ==> !StartsWithKeyword(t[j])
    requires forall j :: f <= j < e ==> !EndsWith(t[j], ";")
    requires EndsWith(t[e], ";") || e == |t| - 1
    ensures Window(t, false) == t[f..e + 1]
    decreases f
  {
    if f == 0 {
      WindowRest(t, e);
    } else {
      WindowFrom(t[1..], f - 1, e - 1);
      assert t[1..][f - 1..e] == t[f..e + 1];
    }
  }

  /** The text `UnfenceClean` returns is already stripped. */
  lemma UnfenceCleanStripped(response: string)
    ensures Strip(UnfenceClean(response)) == UnfenceClean(response)
  {
    var r := Strip(response);
    StripIdempotent(response);
    if Contains(r, "```sql") {
      StripIdempotent(Split(Split(r, "```sql")[1], "```")[0]);
    } else if Contains(r, "```") {
      StripIdempotent(Split(r, "```")[1]);
    }
  }

  /** The first six characters of a text that upper-cases to "SELECT..." are not ';'. */
  lemma SelectHeadHasNoSemicolon(x: string)
    requires StartsWith(Upper(x), "SELECT")
    ensures forall k :: 0 <= k < 6 ==> x[k] != ';'
  {
    forall k | 0 <= k < 6 ensures x[k] != ';' {
      assert UpperChar(x[k]) == "SELECT"[k];
    }
  }

  /** No ';' before the first one that `Find` reports. */
  lemma NoSemicolonBefore(x: string, k: nat)
    requires k <= |x| && forall j :: 0 <= j < k ==> !Occurs(x, ";", j)
    ensures forall j :: 0 <= j < k ==> x[j] != ';'
  {
    forall j | 0 <= j < k ensures x[j] != ';' {
      assert !Occurs(x, ";", j);
      assert x[j..j + 1] == [x[j]];
    }
  }

  /** The fallback when the text holds a ';': it is cut just after the first one. */
  lemma SemicolonCutAt(x: string, k: nat, sql: string)
    requires StartsWith(Upper(x), "SELECT") && Find(x, ";") == Some(k)
    requires sql == Terminate(Strip(CutAtSemicolon(x)))
    ensures
      && sql == x[..k + 1]
      && StartsWith(Upper(sql), "SELECT")
      && sql[|sql| - 1] == ';'
      && (forall j :: 0 <= j < |sql| - 1 ==> sql[j] != ';')
      && sql[..|sql| - 1] == x[..|sql| - 1]
  {
    SemicolonCutAtIs(x, k, sql);
    SelectHeadHasNoSemicolon(x);
    NoSemicolonBefore(x, k);
    UpperPrefix(x, sql, "SELECT");
  }

  /** The fallback when the text holds a ';' is the text through it. */
  lemma SemicolonCutAtIs(x: string, k: nat, sql: string)
    requires StartsWith(Upper(x), "SELECT") && Find(x, ";") == Some(k)
    requires sql == Terminate(Strip(CutAtSemicolon(x)))
    ensures sql == x[..k + 1]
  {
    var c := x[..k + 1];
    assert x[k..k + 1] == ";";
    CutAtSemicolonIs(x, k, c);
    assert EndsWith(c, ";");
  }

  /** Cut after its first ';', a text that starts with "SELECT" in some letter
      case is already stripped. */
  lemma CutAtSemicolonIs(x: string, k: nat, c: string)
    requires StartsWith(Upper(x), "SELECT") && Find(x, ";") == Some(k) && c == x[..k + 1]
    requires x[k] == ';'
    ensures CutAtSemicolon(x) == c && Strip(c) == c
  {
    assert UpperChar(x[0]) == 'S';
    StripUnchanged(c);
  }

  /** The fallback when the text holds no ';': the stripped text with one added. */
  lemma SemicolonCutNone(x: string, sql: string)
    requires StartsWith(Upper(x), "SELECT") && Find(x, ";") == None
    requires sql == Terminate(Strip(CutAtSemicolon(x)))
    ensures
      && sql == Strip(x) + ";"
      && StartsWith(Upper(sql), "SELECT")
      && (forall j :: 0 <= j < |sql| - 1 ==> sql[j] != ';')
      && sql[..|sql| - 1] == x[..|sql| - 1]
  {
    SemicolonCutNoneIs(x, sql);
    StripKeepsSelect(x);
    var l := Strip(x);
    UpperConcat(l, ";");
    assert Upper(l + ";")[..6] == Upper(l)[..6];
    assert (l + ";")[..|l|] == l;
    NoSemicolonBefore(x, |x|);
  }

  /** The fallback when the text holds no ';' is the stripped text with one added. */
  lemma SemicolonCutNoneIs(x: string, sql: string)
    requires StartsWith(Upper(x), "SELECT") && Find(x, ";") == None
    requires sql == Terminate(Strip(CutAtSemicolon(x)))
    ensures sql == Strip(x) + ";"
  {
    NoSemicolonBefore(x, |x|);
    StripKeepsSelect(x);
    var l := Strip(x);
    assert l[|l| - 1] == x[|l| - 1];
  }

  /** The fallback of lines 317-327 applied to a text that starts with
      "SELECT" in some letter case, once terminated: it keeps that start, holds
      exactly one ';', as its last character, and before it copies the text. */
  lemma SemicolonCut(x: string, sql: string)
    requires StartsWith(Upper(x), "SELECT") && sql == Terminate(Strip(CutAtSemicolon(x)))
    ensures
      && StartsWith(Upper(sql), "SELECT")
      && sql[|sql| - 1] == ';'
      && (forall k :: 0 <= k < |sql| - 1 ==> sql[k] != ';')
      && |sql| - 1 <= |x|
      && sql[..|sql| - 1] == x[..|sql| - 1]
      && (Find(x, ";").Some? ==> sql == x[..Find(x, ";").value + 1])
      && (Find(x, ";").None? ==> sql == Strip(x) + ";")
  {
    match Find(x, ";")
    case Some(k) =>
      SemicolonCutAt(x, k, sql);
    case None =>
      SemicolonCutNone(x, sql);
  }

  /** Every line `SqlLines` hands to the join is non-empty. */
  lemma SqlLinesNonEmpty(r: string)
    ensures forall k :: 0 <= k < |SqlLines(r)| ==> SqlLines(r)[k] != []
  {
    var window := Window(ScanLines(r), false);
    if window == [] && Contains(Upper(r), "SELECT") {
      var i := Find(Upper(r), "SELECT").value;
      SuffixAtSelect(r);
      SemicolonCut(r[i..], Terminate(Strip(CutAtSemicolon(r[i..]))));
    }
  }

  /** `_extract_sql_clean` returns "" exactly when the cleaned reply is empty,
      and every other result ends with ';'. */
  lemma CleanedSqlTerminated(response: string)
    ensures var sql := CleanedSql(response);
      && (sql == [] <==> UnfenceClean(response) == [])
      && (sql != [] ==> sql[|sql| - 1] == ';')
  {
    var r := UnfenceClean(response);
    var lines := SqlLines(r);
    UnfenceCleanStripped(response);
    SqlLinesNonEmpty(r);
    if lines != [] {
      JoinStartsWith(lines, " ");
    }
    if r == [] {
      assert Split(r, "\n") == [r];
      assert ScanLines(r) == [];
      assert !Contains(Upper(r), "SELECT");
    }
  }

  /** When some scanned line of the cleaned text `r` starts with a statement
      keyword, the result is the single-space join of the lines from the first
      such line `f` through the first line `e` from there on that ends in ';'
      (or the last line), with a ';' added when that line has none. */
  lemma CleanedSqlWindow(r: string, f: nat, e: nat)
    requires var t := ScanLines(r);
      && f <= e < |t|
      && StartsWithKeyword(t[f]) && (forall j :: 0 <= j < f ==> !StartsWithKeyword(t[j]))
      && (forall j :: f <= j < e ==> !EndsWith(t[j], ";"))
      && (EndsWith(t[e], ";") || e == |t| - 1)
    ensures var t := ScanLines(r);
      SqlFromText(r) == Join(t[f..e + 1], " ") + (if EndsWith(t[e], ";") then "" else ";")
  {
    WindowFrom(ScanLines(r), f, e);
    WindowJoined(r, ScanLines(r)[f..e + 1]);
    TerminatedJoin(ScanLines(r), f, e, SqlFromText(r));
  }

  /** A non-empty window is what the result joins and terminates. */
  lemma WindowJoined(r: string, window: seq<string>)
    requires window != [] && Window(ScanLines(r), false) == window
    ensures SqlFromText(r) == Terminate(Join(window, " "))
  {
  }

  /** Joining a window of lines that ends in a non-empty one and terminating
      it adds a ';' exactly when that last line has none. */
  lemma TerminatedJoin(t: seq<string>, f: nat, e: nat, sql: string)
    requires f <= e < |t| && t[e] != []
    requires sql == Terminate(Join(t[f..e + 1], " "))
    ensures sql == Join(t[f..e + 1], " ") + (if EndsWith(t[e], ";") then "" else ";")
  {
    var window := t[f..e + 1];
    assert window[|window| - 1] == t[e];
    JoinEndsWith(window, " ");
    EndsWithSame(Join(window, " "), t[e], ";");
  }

  /** Without a keyword line, the fallback result is the terminated cut. */
  lemma FallbackIsCut(r: string)
    requires var t := ScanLines(r); forall j :: 0 <= j < |t| ==> !StartsWithKeyword(t[j])
    requires Contains(Upper(r), "SELECT")
    ensures SqlFromText(r) == Terminate(Strip(CutAtSemicolon(r[Find(Upper(r), "SELECT").value..])))
  {
    WindowEmpty(ScanLines(r));
  }

  /** When no scanned line of the cleaned text `r` starts with a statement
      keyword but `r` holds "SELECT" in some letter case, first at index `i`,
      the result starts there and copies `r` up to and including the first
      ';' after it, or up to the stripped end of `r` with one ';' added when
      there is none; either way it holds exactly one ';', as its last
      character. */
  lemma CleanedSqlSelectFallback(r: string, i: nat)
    requires var t := ScanLines(r); forall j :: 0 <= j < |t| ==> !StartsWithKeyword(t[j])
    requires Find(Upper(r), "SELECT") == Some(i)
    ensures var sql := SqlFromText(r);
      && StartsWith(Upper(sql), "SELECT")
      && sql[|sql| - 1] == ';'
      && (forall k :: 0 <= k < |sql| - 1 ==> sql[k] != ';')
      && i + |sql| - 1 <= |r|
      && (forall k :: 0 <= k < |sql| - 1 ==> sql[k] == r[i + k])
      && (Find(r[i..], ";").Some? ==> sql == r[i..i + Find(r[i..], ";").value + 1])
      && (Find(r[i..], ";").None? ==> sql == Strip(r[i..]) + ";")
  {
    FallbackIsCut(r);
    FallbackFromCut(r, i, SqlFromText(r));
  }

  /** The fallback's properties for the terminated cut itself. */
  lemma FallbackFromCut(r: string, i: nat, sql: string)
    requires Contains(Upper(r), "SELECT") && i == Find(Upper(r), "SELECT").value
    requires sql == Terminate(Strip(CutAtSemicolon(r[i..])))
    ensures
      && StartsWith(Upper(sql), "SELECT")
      && sql[|sql| - 1] == ';'
      && (forall k :: 0 <= k < |sql| - 1 ==> sql[k] != ';')
      && i + |sql| - 1 <= |r|
      && (forall k :: 0 <= k < |sql| - 1 ==> sql[k] == r[i + k])
      && (Find(r[i..], ";").Some? ==> sql == r[i..i + Find(r[i..], ";").value + 1])
      && (Find(r[i..], ";").None? ==> sql == Strip(r[i..]) + ";")
  {
    SuffixAtSelect(r);
    CutFromSelect(r, i, sql);
    CutEnd(r, i, sql);
  }

  /** `SemicolonCut` on the suffix of `r` from index `i`, stated on `r`. */
  lemma CutFromSelect(r: string, i: nat, sql: string)
    requires i <= |r| && StartsWith(Upper(r[i..]), "SELECT")
    requires sql == Terminate(Strip(CutAtSemicolon(r[i..])))
    ensures
      && StartsWith(Upper(sql), "SELECT")
      && sql[|sql| - 1] == ';'
      && (forall k :: 0 <= k < |sql| - 1 ==> sql[k] != ';')
      && i + |sql| - 1 <= |r|
      && (forall k :: 0 <= k < |sql| - 1 ==> sql[k] == r[i + k])
  {
    SemicolonCut(r[i..], sql);
    forall k | 0 <= k < |sql| - 1 ensures sql[k] == r[i + k] {
      assert sql[..|sql| - 1][k] == r[i..][..|sql| - 1][k];
    }
  }

  /** Where the cut of `CutFromSelect` ends, stated on `r`. */
  lemma CutEnd(r: string, i: nat, sql: string)
    requires i <= |r| && StartsWith(Upper(r[i..]), "SELECT")
    requires sql == Terminate(Strip(CutAtSemicolon(r[i..])))
    ensures Find(r[i..], ";").Some? ==> sql == r[i..i + Find(r[i..], ";").value + 1]
    ensures Find(r[i..], ";").None? ==> sql == Strip(r[i..]) + ";"
  {
    match Find(r[i..], ";")
    case Some(k) => CutEndsAtSemicolon(r, i, k, sql);
    case None => SemicolonCutNoneIs(r[i..], sql);
  }

  /** Where the cut of `CutFromSelect` ends when the suffix holds a ';',
      stated on `r`. */
  lemma CutEndsAtSemicolon(r: string, i: nat, k: nat, sql: string)
    requires i <= |r| && StartsWith(Upper(r[i..]), "SELECT") && Find(r[i..], ";") == Some(k)
    requires sql == Terminate(Strip(CutAtSemicolon(r[i..])))
    ensures sql == r[i..i + k + 1]
  {
    SemicolonCutAtIs(r[i..], k, sql);
    PrefixOfSuffix(r, i, k + 1);
  }

  /** When no scanned line of the cleaned text `r` starts with a statement
      keyword and `r` holds no "SELECT", the result is the stripped text with
      a ';' added unless it already ends with one; an empty text stays empty. */
  lemma CleanedSqlPassThrough(r: string)
    requires var t := ScanLines(r); forall j :: 0 <= j < |t| ==> !StartsWithKeyword(t[j])
    requires !Contains(Upper(r), "SELECT")
    ensures var sql := SqlFromText(r);
      && (Strip(r) == [] ==> sql == [])
      && (Strip(r) != [] && EndsWith(Strip(r), ";") ==> sql == Strip(r))
      && (Strip(r) != [] && !EndsWith(Strip(r), ";") ==> sql == Strip(r) + ";")
  {
    WindowEmpty(ScanLines(r));
  }

  /** The failure literal holds no backtick, so `UnfenceClean` keeps it. */
  lemma FailureLiteralUnfenced()
    ensures UnfenceClean(GenerationFailed) == GenerationFailed
  {
    var s := GenerationFailed;
    StripUnchanged(s);
    assert '`' !in s;
    ContainsHasChar(s, "```sql", 0);
    ContainsHasChar(s, "```", 0);
  }

  /** The failure literal starts with 'E', so with no statement keyword. */
  lemma FailureLiteralNoKeyword()
    ensures !StartsWithKeyword(GenerationFailed)
  {
    var s := GenerationFailed;
    assert UpperChar(s[0]) == 'E';
  }

  /** The failure literal is a single line. */
  lemma FailureLiteralOneLine()
    ensures Split(GenerationFailed, "\n") == [GenerationFailed]
  {
    var s := GenerationFailed;
    assert '\n' !in s;
    ContainsHasChar(s, "\n", 0);
  }

  /** The scan sees the failure literal as its one line and collects nothing. */
  lemma FailureLiteralScan()
    ensures ScanLines(GenerationFailed) == [GenerationFailed]
    ensures Window(ScanLines(GenerationFailed), false) == []
  {
    var s := GenerationFailed;
    StripUnchanged(s);
    FailureLiteralOneLine();
    FailureLiteralNoKeyword();
  }

  /** The corrector's scanner returns the failure literal with a ';' added: it
      has no fence, no statement keyword at its start, and no "SELECT". */
  lemma FailureLiteralCleaned()
    ensures CleanedSql(GenerationFailed) == GenerationFailed + ";"
  {
    var s := GenerationFailed;
    FailureLiteralUnfenced();
    assert CleanedSql(s) == SqlFromText(s);
    FailureLiteralScan();
    FailureLiteralHasNoSelect();
    StripUnchanged(s);
    assert s[|s| - 1] == 'e';
  }

  // ---------------------------------------------------------------------------
  // The stages as the orchestrator calls them
  // ---------------------------------------------------------------------------

  /** `InjectionCheckLLM.check_injection`: asked at temperature 0. */
  function IsSafe(api: Api, userInput: string): (safe: bool)
    ensures var reply := api(InjectionPrompt(userInput), 0.0);
      safe <==> reply.Ok? && Contains(Lower(reply.value), "true")
  {
    FailureLiteralIsNotTrue();
    CheckInjection(Ok(GenerateResponse(api, InjectionPrompt(userInput), 0.0)))
  }

  /** `ReasoningLLM.generate_reasoning`: the model's text at temperature 0.3. */
  function GenerateReasoning(api: Api, query: string, schemaContext: string): (reasoning: string)
    ensures var reply := api(ReasoningPrompt(query, schemaContext), 0.3);
      && (reply.Ok? ==> reasoning == reply.value)
      && (reply.Raised? ==> reasoning == GenerationFailed)
  {
    GenerateResponse(api, ReasoningPrompt(query, schemaContext), 0.3)
  }

  /** `SQLGeneratorLLM.generate_sql`: the extracted reply at temperature 0.1. */
  function GenerateSql(api: Api, query: string, reasoning: string, schemaContext: string): (sql: string)
    ensures sql == [] || (!IsSpace(sql[0]) && !IsSpace(sql[|sql| - 1]))
    ensures !StartsWith(sql, "```")
    ensures api(SqlPrompt(query, reasoning, schemaContext), 0.1).Raised? ==> sql == GenerationFailed
    ensures api(SqlPrompt(query, reasoning, schemaContext), 0.1).Ok? ==>
      sql == ExtractSql(api(SqlPrompt(query, reasoning, schemaContext), 0.1).value)
  {
    ExtractSqlUnfenced(GenerateResponse(api, SqlPrompt(query, reasoning, schemaContext), 0.1));
    FailureLiteralPassesExtraction();
    ExtractSql(GenerateResponse(api, SqlPrompt(query, reasoning, schemaContext), 0.1))
  }

  /** `SQLCorrectorLLM.correct_sql`: the cleaned reply at temperature 0.1. */
  function CorrectSql(api: Api, invalidSql: string, schemaContext: string, userQuery: string): (sql: string)
    ensures sql != [] ==> sql[|sql| - 1] == ';'
    ensures api(CorrectionPrompt(invalidSql, schemaContext, userQuery), 0.1).Raised? ==> sql == GenerationFailed + ";"
    ensures api(CorrectionPrompt(invalidSql, schemaContext, userQuery), 0.1).Ok? ==>
      sql == CleanedSql(api(CorrectionPrompt(invalidSql, schemaContext, userQuery), 0.1).value)
  {
    FailureLiteralCleaned();
    CleanedSql(GenerateResponse(api, CorrectionPrompt(invalidSql, schemaContext, userQuery), 0.1))
  }

  /** A failed generation reaches validation as the failure literal itself. */
  lemma FailedGenerationPassesExtraction(api: Api, query: string, reasoning: string, schemaContext: string)
    requires api(SqlPrompt(query, reasoning, schemaContext), 0.1).Raised?
    ensures GenerateSql(api, query, reasoning, schemaContext) == GenerationFailed
  {
    FailureLiteralPassesExtraction();
  }

  /** A failed correction reaches validation as the failure literal with a ';' added. */
  lemma FailedCorrectionIsTerminatedLiteral(api: Api, invalidSql: string, schemaContext: string, userQuery: string)
    requires api(CorrectionPrompt(invalidSql, schemaContext, userQuery), 0.1).Raised?
    ensures CorrectSql(api, invalidSql, schemaContext, userQuery) == GenerationFailed + ";"
  {
    FailureLiteralCleaned();
  }
}
