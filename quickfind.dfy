/** The `QuickFind` object of quickfind.py (lines 34-144): a search term,
    a mode, an output format and the `-1` flag, fixed when it is built,
    and the search and formatting built on them. The output of the `ag`
    process is a parameter. */
module QuickFinder {
  import opened PyStr
  import opened Outcome
  import opened Names
  import opened AgOutput
  import opened Hits
  import opened Patterns
  import opened Imports
  import opened Sorting

  /** What one run of `ag` came back with: its exit status and everything
      it printed, stdout and stderr together. */
  datatype AgRun = AgRun(status: int, output: string)

  class QuickFind {
    const term: string
    const searchType: string
    const format: string
    const singleResult: bool

    constructor (term: string, searchType: string, format: string, singleResult: bool)
      ensures this.term == term && this.searchType == searchType
      ensures this.format == format && this.singleResult == singleResult
    {
      this.term := term;
      this.searchType := searchType;
      this.format := format;
      this.singleResult := singleResult;
    }

    /** The arguments `search` hands to `ag`: `-g` and the term for a
        filename search, otherwise a content search with columns for the
        compiled pattern. A classes search raises while compiling its
        pattern, before `ag` is called. */
    function AgArgs(): (r: Result<seq<string>>)
      ensures searchType == SearchFiles ==> r == Ok(["-g", term])
      ensures searchType == SearchClasses ==> r == Err(TypeError)
      ensures searchType != SearchFiles && searchType != SearchClasses ==>
                r.Ok? && |r.value| == 3 && r.value[..2] == ["-s", "--column"] && r.value[2] == Compile(searchType, term)
    {
      if searchType == SearchFiles then Ok(["-g", term])
      else
        var pattern :- CompileAsWritten(searchType, term);
        Ok(["-s", "--column", pattern])
    }

    /** `_search_files`: one hit per line `ag -g` printed, the line as the
        filename. */
    function SearchFileHits(ag: AgRun): (r: Result<seq<Hit>>)
      ensures r.Err? <==> CallAg(ag.status, ag.output).Err?
      ensures r.Ok? ==> var lines := CallAg(ag.status, ag.output).value;
                        |r.value| == |lines|
                        && forall k :: 0 <= k < |lines| ==> r.value[k] == Hit(term, lines[k], None, None, None)
    {
      var results :- CallAg(ag.status, ag.output);
      Ok(FileHits(term, results))
    }

    /** What `search` yields for this object's mode: the filename hits,
        the error compiling the pattern, or the parsed content lines. */
    function SearchResult(ag: AgRun): Result<seq<Hit>>
    {
      if searchType == SearchFiles then SearchFileHits(ag)
      else if CompileAsWritten(searchType, term).Err? then Err(CompileAsWritten(searchType, term).error)
      else
        match CallAg(ag.status, ag.output)
        case Err(e) => Err(e)
        case Ok(results) => ParseContent(term, results)
    }

    /** `_search_content`: each line `ag` printed becomes a hit, the first
        malformed one aborting the search. */
    method SearchContent(ag: AgRun) returns (r: Result<seq<Hit>>)
      ensures CallAg(ag.status, ag.output).Err? ==> r == Err(CallAg(ag.status, ag.output).error)
      ensures CallAg(ag.status, ag.output).Ok? ==> r == ParseContent(term, CallAg(ag.status, ag.output).value)
    {
      var results := CallAg(ag.status, ag.output);
      if results.Err? {
        return Err(results.error);
      }
      r := ParseResults(results.value);
    }

    /** The loop of `_search_content` over the lines `ag` returned. */
    method ParseResults(results: seq<string>) returns (r: Result<seq<Hit>>)
      ensures r == ParseContent(term, results)
    {
      var parsed := [];
      var i := 0;
      while i < |results|
        invariant 0 <= i <= |results|
        invariant ParseContent(term, results[..i]) == Ok(parsed)
      {
        var line := Strip(results[i]);
        ParseContentStep(term, results, i, parsed);
        if line != "" {
          var hit := ParseContentLine(term, line);
          if hit.Err? {
            return Err(hit.error);
          }
          parsed := parsed + [hit.value];
        }
        i := i + 1;
      }
      assert results[..i] == results;
      r := Ok(parsed);
    }

    /** `search`: filenames in files mode; otherwise the pattern is
        compiled first, and its error raised, before the content search. */
    method Search(ag: AgRun) returns (r: Result<seq<Hit>>)
      ensures r == SearchResult(ag)
    {
      if searchType == SearchFiles {
        r := SearchFileHits(ag);
      } else {
        var pattern := CompileAsWritten(searchType, term);
        if pattern.Err? {
          return Err(pattern.error);
        }
        r := SearchContent(ag);
      }
    }

    /** A classes search raises a TypeError whatever `ag` would print, so
        `run` raises it too. */
    lemma ClassesSearchRaises(ag: AgRun)
      requires searchType == SearchClasses
      ensures SearchResult(ag) == Err(TypeError)
    {
      ClassesModeRaises(term);
    }

    /** `format_hit`: the file list, quickfix and coords renderings, the
        rewritten import line for `clean_imports`; any other format, `raw`
        included, raises. */
    function FormatHit(h: Hit): (r: Result<string>)
      ensures r.Err? <==> (format != FormatFiles && format != FormatQuickfix && format != FormatCoords
                           && (format != FormatImport || h.text.None?))
      ensures r.Err? ==> r.error == if format == FormatImport then TypeError else UnsupportedFormat(format)
      ensures format == FormatFiles ==> r == Ok(h.filename)
      ensures format == FormatQuickfix ==> r == Ok(QuickfixLine(h))
      ensures format == FormatCoords ==> r == Ok(CoordsLine(h))
      ensures format == FormatImport && h.text.Some? ==> r == Ok(GenerateImport(term, h.text.value))
    {
      if format == FormatFiles then Ok(h.filename)
      else if format == FormatQuickfix then Ok(QuickfixLine(h))
      else if format == FormatCoords then Ok(CoordsLine(h))
      else if format == FormatImport then
        (if h.text.None? then Err(TypeError) else Ok(GenerateImport(term, h.text.value)))
      else Err(UnsupportedFormat(format))
    }

    /** `[self.format_hit(h) for h in hits]`: every hit formatted in order,
        the first failure raised. */
    function FormatAll(hs: seq<Hit>): (r: Result<seq<string>>)
      ensures r.Ok? <==> forall k :: 0 <= k < |hs| ==> FormatHit(hs[k]).Ok?
      ensures r.Ok? ==> |r.value| == |hs| && forall k :: 0 <= k < |hs| ==> FormatHit(hs[k]) == Ok(r.value[k])
    {
      if |hs| == 0 then Ok([])
      else
        match FormatHit(hs[0])
        case Err(e) => Err(e)
        case Ok(s) =>
          assert forall k :: 1 <= k < |hs| ==> hs[k] == hs[1..][k - 1];
          match FormatAll(hs[1..])
          case Err(e) => Err(e)
          case Ok(ss) => Ok([s] + ss)
    }

    /** A failure is that of the first hit that cannot be formatted. */
    lemma {:induction false} FormatAllFirstError(hs: seq<Hit>) returns (k: nat)
      requires FormatAll(hs).Err?
      ensures k < |hs| && FormatHit(hs[k]) == Err(FormatAll(hs).error)
      ensures forall j :: 0 <= j < k ==> FormatHit(hs[j]).Ok?
    {
      if FormatHit(hs[0]).Err? {
        k := 0;
      } else {
        var k' := FormatAllFirstError(hs[1..]);
        k := k' + 1;
        assert hs[k] == hs[1..][k'];
        forall j | 0 <= j < k ensures FormatHit(hs[j]).Ok? {
          if j > 0 {
            assert hs[j] == hs[1..][j - 1];
          }
        }
      }
    }

    /** `run`: format every hit, drop duplicates and sort. What it prints
        is the result. With `-1` it reads `self.results`, which no
        `QuickFind` has, so it raises once the hits are formatted. */
    method Run(ag: AgRun) returns (r: Result<seq<string>>)
      ensures SearchResult(ag).Err? ==> r == Err(SearchResult(ag).error)
      ensures SearchResult(ag).Ok? && FormatAll(SearchResult(ag).value).Err? ==>
                r == Err(FormatAll(SearchResult(ag).value).error)
      ensures SearchResult(ag).Ok? && FormatAll(SearchResult(ag).value).Ok? && singleResult ==>
                r == Err(AttributeError)
      ensures SearchResult(ag).Ok? && FormatAll(SearchResult(ag).value).Ok? && !singleResult ==>
                r.Ok? && StrictlySorted(r.value)
                && forall x :: x in r.value <==> x in FormatAll(SearchResult(ag).value).value
    {
      var hits :- Search(ag);
      var formatted :- FormatAll(hits);
      var unique := set x | x in formatted;
      var results := SortSet(unique);
      if singleResult {
        return Err(AttributeError);
      }
      r := Ok(results);
    }

    /** The term can be read back from the arguments given to `ag`. */
    lemma AgArgsDetermineTerm(other: QuickFind)
      requires other.searchType == searchType && other.AgArgs() == AgArgs() && AgArgs().Ok?
      ensures other.term == term
    {
      if searchType == SearchFiles {
        assert AgArgs().value[1] == term;
      } else {
        assert AgArgs().value[2] == other.AgArgs().value[2];
        CompileInjective(searchType, term, other.term);
      }
    }

    /** Files mode listed as file names prints the lines `ag -g` printed,
        stripped and without blanks. */
    lemma FileListGivesLines(ag: AgRun)
      requires searchType == SearchFiles && format == FormatFiles && ag.status == 0
      ensures SearchResult(ag).Ok?
      ensures FormatAll(SearchResult(ag).value) == Ok(CleanLines(Split(ag.output, '\n')))
    {
      var lines := CallAg(ag.status, ag.output).value;
      assert SearchResult(ag) == Ok(FileHits(term, lines));
      FileNamesListed(lines);
    }

    lemma FileNamesListed(lines: seq<string>)
      requires format == FormatFiles
      ensures FormatAll(FileHits(term, lines)) == Ok(lines)
    {
      var hs := FileHits(term, lines);
      assert forall k :: 0 <= k < |hs| ==> FormatHit(hs[k]) == Ok(lines[k]);
      var out := FormatAll(hs).value;
      assert |out| == |lines|;
      assert forall k :: 0 <= k < |out| ==> out[k] == lines[k];
      assert out == lines;
    }

    /** Content modes in quickfix format print back exactly the lines `ag`
        printed (stripped, without blanks), provided each has at least
        three colons. */
    lemma QuickfixGivesLines(ag: AgRun)
      requires searchType != SearchFiles && searchType != SearchClasses
      requires format == FormatQuickfix && ag.status == 0
      requires forall x :: x in CleanLines(Split(ag.output, '\n')) ==> Count(x, ':') >= 3
      ensures SearchResult(ag).Ok?
      ensures FormatAll(SearchResult(ag).value) == Ok(CleanLines(Split(ag.output, '\n')))
    {
      var lines := CleanLines(Split(ag.output, '\n'));
      CompileAgrees(searchType, term);
      assert SearchResult(ag) == ParseContent(term, lines);
      CleanLinesIdempotent(Split(ag.output, '\n'));
      ContentParses(lines);
      QuickfixListed(lines);
    }

    lemma QuickfixListed(results: seq<string>)
      requires format == FormatQuickfix
      requires forall x :: x in CleanLines(results) ==> Count(x, ':') >= 3
      requires ParseContent(term, results).Ok?
      ensures FormatAll(ParseContent(term, results).value) == Ok(CleanLines(results))
    {
      var lines := CleanLines(results);
      ParseContentHits(term, results);
      var hs := ParseContent(term, results).value;
      forall k | 0 <= k < |hs| ensures FormatHit(hs[k]) == Ok(lines[k]) {
        assert lines[k] in lines;
        ContentLineRoundTrip(term, lines[k]);
      }
      var out := FormatAll(hs).value;
      assert |out| == |lines|;
      assert forall k :: 0 <= k < |out| ==> out[k] == lines[k];
      assert out == lines;
    }

    /** No content line fails when every kept line has three colons. */
    lemma ContentParses(results: seq<string>)
      requires forall x :: x in CleanLines(results) ==> Count(x, ':') >= 3
      ensures ParseContent(term, results).Ok?
    {
      ParseContentFails(term, results);
      forall k | 0 <= k < |results| && Strip(results[k]) != ""
        ensures Count(Strip(results[k]), ':') >= 3
      {
        StripEmpty(results[k]);
        CleanLinesMembers(results, Strip(results[k]));
      }
    }

    /** `raw`, the default format, cannot format a single hit: it fails
        unless there is nothing to format. */
    lemma RawFormatFails(hs: seq<Hit>)
      requires format == FormatRaw
      ensures |hs| == 0 ==> FormatAll(hs) == Ok([])
      ensures |hs| > 0 ==> FormatAll(hs) == Err(UnsupportedFormat(FormatRaw))
    {
      if |hs| > 0 {
        assert FormatHit(hs[0]).Err?;
      }
    }

    /** Every line an import search prints in `clean_imports` format is an
        import statement for the term. */
    lemma CleanImportsShape(ag: AgRun)
      requires searchType != SearchFiles && format == FormatImport
      requires SearchResult(ag).Ok?
      ensures FormatAll(SearchResult(ag).value).Ok?
      ensures forall x :: x in FormatAll(SearchResult(ag).value).value ==> ImportOf(x, term)
    {
      var results := CallAg(ag.status, ag.output).value;
      var hs := SearchResult(ag).value;
      ParseContentHits(term, results);
      var lines := CleanLines(results);
      forall k | 0 <= k < |hs| ensures FormatHit(hs[k]).Ok? && ImportOf(FormatHit(hs[k]).value, term) {
        ParseContentLineOk(term, lines[k]);
        GenerateImportShape(term, hs[k].text.value);
      }
      var out := FormatAll(hs).value;
      forall x | x in out ensures ImportOf(x, term) {
        var k :| 0 <= k < |out| && out[k] == x;
      }
    }
  }
}
