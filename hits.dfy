/** Hits and how `ag`'s output lines become hits (quickfind.py:25-31,
    69-96), with the renderings that use a hit's fields as strings
    (quickfind.py:121-127). */
module Hits {
  import opened PyStr
  import opened Outcome
  import opened AgOutput

  /** A match: line, column and text stay the strings `ag` printed, and
      are absent (Python's `None`) for a filename hit. */
  datatype Hit = Hit(term: string, filename: string, text: Option<string>, line: Option<string>, col: Option<string>)

  /** `'%s' % v`: a string stands for itself, `None` prints as "None". */
  function Show(v: Option<string>): string
  {
    match v
    case Some(s) => s
    case None => "None"
  }

  /** `filename:line:col:text`, vim's quickfix form. */
  function QuickfixLine(h: Hit): string
  {
    h.filename + ":" + Show(h.line) + ":" + Show(h.col) + ":" + Show(h.text)
  }

  /** `filename:line:col`. */
  function CoordsLine(h: Hit): string
  {
    h.filename + ":" + Show(h.line) + ":" + Show(h.col)
  }

  /** `_search_files`: every result line is a filename. */
  function FileHits(term: string, results: seq<string>): (r: seq<Hit>)
    ensures |r| == |results|
    ensures forall k :: 0 <= k < |r| ==> r[k] == Hit(term, results[k], None, None, None)
  {
    seq(|results|, k requires 0 <= k < |results| => Hit(term, results[k], None, None, None))
  }

  /** One content line: the fields before the first three colons are the
      filename, line and column; the rest, colons and all, is the text.
      Fewer than two colons make `pieces[1]` or `pieces[2]` fail. */
  function ParseContentLine(term: string, r: string): (h: Result<Hit>)
  {
    var pieces := Split(r, ':');
    if |pieces| < 3 then Err(IndexError)
    else Ok(Hit(term, pieces[0], Some(Join(pieces[3..], ':')), Some(pieces[1]), Some(pieces[2])))
  }

  /** A line parses exactly when it holds at least two colons, and then
      every field is present. */
  lemma ParseContentLineOk(term: string, r: string)
    ensures ParseContentLine(term, r).Ok? <==> Count(r, ':') >= 2
    ensures ParseContentLine(term, r).Ok? ==>
              var h := ParseContentLine(term, r).value;
              h.term == term && h.text.Some? && h.line.Some? && h.col.Some?
  {
    SplitJoin(r, ':');
  }

  /** With at least three colons nothing is lost: the filename, line and
      column hold no colon, and rendering the hit as quickfix gives back
      the line exactly. */
  lemma ContentLineRoundTrip(term: string, r: string)
    requires Count(r, ':') >= 3
    ensures ParseContentLine(term, r).Ok?
    ensures var h := ParseContentLine(term, r).value;
            ':' !in h.filename && ':' !in Show(h.line) && ':' !in Show(h.col)
            && QuickfixLine(h) == r
  {
    var pieces := Split(r, ':');
    SplitJoin(r, ':');
    JoinThree(pieces, ':');
  }

  /** With exactly two colons the text is empty, so the quickfix rendering
      gains a trailing colon. */
  lemma ContentLineTwoColons(term: string, r: string)
    requires Count(r, ':') == 2
    ensures ParseContentLine(term, r).Ok?
    ensures ParseContentLine(term, r).value.text == Some("")
    ensures QuickfixLine(ParseContentLine(term, r).value) == r + ":"
  {
    var pieces := Split(r, ':');
    SplitJoin(r, ':');
    JoinExactlyThree(pieces, ':');
    assert Join(pieces[3..], ':') == "" by {
      assert pieces[3..] == [];
    }
    var h := ParseContentLine(term, r).value;
    var front := pieces[0] + ":" + pieces[1] + ":" + pieces[2];
    assert front == r;
    assert QuickfixLine(h) == front + ":" + "";
    assert front + ":" + "" == front + ":";
  }

  /** The other direction: a quickfix line built from colon-free filename,
      line and column parses back into exactly those fields and the text. */
  lemma QuickfixParses(term: string, filename: string, line: string, col: string, text: string)
    requires ':' !in filename && ':' !in line && ':' !in col
    ensures ParseContentLine(term, filename + ":" + line + ":" + col + ":" + text)
            == Ok(Hit(term, filename, Some(text), Some(line), Some(col)))
  {
    var r := filename + ":" + line + ":" + col + ":" + text;
    assert r == filename + [':'] + (line + [':'] + (col + [':'] + text));
    SplitAppend(filename, line + [':'] + (col + [':'] + text), ':');
    SplitAppend(line, col + [':'] + text, ':');
    SplitAppend(col, text, ':');
    SplitJoin(text, ':');
    var pieces := Split(r, ':');
    assert pieces == [filename, line, col] + Split(text, ':');
    assert pieces[3..] == Split(text, ':');
  }

  /** Hits from consecutive lines: the earlier failure wins, otherwise the
      hits are concatenated. */
  function Concat(x: Result<seq<Hit>>, y: Result<seq<Hit>>): Result<seq<Hit>>
  {
    if x.Err? then x else if y.Err? then y else Ok(x.value + y.value)
  }

  lemma ConcatAssoc(x: Result<seq<Hit>>, y: Result<seq<Hit>>, z: Result<seq<Hit>>)
    ensures Concat(x, Concat(y, z)) == Concat(Concat(x, y), z)
  {
    if x.Ok? && y.Ok? && z.Ok? {
      assert x.value + (y.value + z.value) == (x.value + y.value) + z.value;
    }
  }

  lemma ConcatNothing(x: Result<seq<Hit>>)
    ensures Concat(Ok([]), x) == x && Concat(x, Ok([])) == x
  {
    if x.Ok? {
      assert [] + x.value == x.value && x.value + [] == x.value;
    }
  }

  /** What one output line contributes: nothing when it is blank once
      stripped, otherwise its hit, or the error parsing it raised. */
  function ParseLine(term: string, line: string): Result<seq<Hit>>
  {
    var r := Strip(line);
    if r == "" then Ok([])
    else
      var h := ParseContentLine(term, r);
      if h.Err? then Err(h.error) else Ok([h.value])
  }

  /** `_search_content`'s loop over the lines `ag` returned: each is
      stripped, blank ones are skipped, and the first malformed one aborts
      the whole search. */
  function ParseContent(term: string, results: seq<string>): Result<seq<Hit>>
  {
    if |results| == 0 then Ok([])
    else Concat(ParseLine(term, results[0]), ParseContent(term, results[1..]))
  }

  /** Parsing line by line: the lines of `a + b` parse as those of `a`,
      then those of `b`, the first failure winning. */
  lemma {:induction false} ParseContentAppend(term: string, a: seq<string>, b: seq<string>)
    ensures ParseContent(term, a + b) == Concat(ParseContent(term, a), ParseContent(term, b))
  {
    if |a| == 0 {
      assert a + b == b;
      ConcatNothing(ParseContent(term, b));
    } else {
      assert (a + b)[0] == a[0] && (a + b)[1..] == a[1..] + b;
      ParseContentAppend(term, a[1..], b);
      ConcatAssoc(ParseLine(term, a[0]), ParseContent(term, a[1..]), ParseContent(term, b));
    }
  }

  /** One more line: a blank one changes nothing, a well-formed one adds
      its hit at the end, a malformed one fails the search. */
  lemma ParseContentStep(term: string, results: seq<string>, i: nat, hs: seq<Hit>)
    requires i < |results| && ParseContent(term, results[..i]) == Ok(hs)
    ensures var line := Strip(results[i]);
            && (line == "" ==> ParseContent(term, results[..i + 1]) == Ok(hs))
            && (line != "" && ParseContentLine(term, line).Ok? ==>
                  ParseContent(term, results[..i + 1]) == Ok(hs + [ParseContentLine(term, line).value]))
            && (line != "" && ParseContentLine(term, line).Err? ==>
                  ParseContent(term, results) == Err(ParseContentLine(term, line).error))
  {
    var x := results[i];
    assert results[..i + 1] == results[..i] + [x];
    ParseContentAppend(term, results[..i], [x]);
    assert [x][1..] == [];
    ConcatNothing(ParseLine(term, x));
    ConcatNothing(Ok(hs));
    if ParseContent(term, results[..i + 1]).Err? {
      ParseContentFailedPrefix(term, results, i + 1);
    }
  }

  /** Once the first `i` lines have failed, later lines do not matter. */
  lemma ParseContentFailedPrefix(term: string, results: seq<string>, i: nat)
    requires i <= |results| && ParseContent(term, results[..i]).Err?
    ensures ParseContent(term, results) == ParseContent(term, results[..i])
  {
    assert results == results[..i] + results[i..];
    ParseContentAppend(term, results[..i], results[i..]);
  }

  /** A malformed line is never skipped: the search fails exactly when
      some non-blank line has fewer than two colons, and then with an
      index error. */
  lemma {:induction false} ParseContentFails(term: string, results: seq<string>)
    ensures ParseContent(term, results).Err? <==>
            exists k :: 0 <= k < |results| && Strip(results[k]) != "" && Count(Strip(results[k]), ':') < 2
    ensures ParseContent(term, results).Err? ==> ParseContent(term, results).error == IndexError
  {
    if |results| > 0 {
      ParseContentFails(term, results[1..]);
      ParseContentLineOk(term, Strip(results[0]));
      if exists k :: 0 <= k < |results[1..]| && Strip(results[1..][k]) != "" && Count(Strip(results[1..][k]), ':') < 2 {
        var k :| 0 <= k < |results[1..]| && Strip(results[1..][k]) != "" && Count(Strip(results[1..][k]), ':') < 2;
        assert results[k + 1] == results[1..][k];
      }
      if exists k :: 0 <= k < |results| && Strip(results[k]) != "" && Count(Strip(results[k]), ':') < 2 {
        var k :| 0 <= k < |results| && Strip(results[k]) != "" && Count(Strip(results[k]), ':') < 2;
        if k > 0 {
          assert results[1..][k - 1] == results[k];
        }
      }
    }
  }

  /** `hs` are what the lines parse to, one hit per line and in order. */
  predicate ParsedFrom(term: string, lines: seq<string>, hs: seq<Hit>) {
    |hs| == |lines| && forall k :: 0 <= k < |hs| ==> ParseContentLine(term, lines[k]) == Ok(hs[k])
  }

  /** A successful search yields one hit per kept line, in order: hit `k`
      is what line `k` of the cleaned output parses to. */
  lemma {:induction false} ParseContentHits(term: string, results: seq<string>)
    requires ParseContent(term, results).Ok?
    ensures ParsedFrom(term, CleanLines(results), ParseContent(term, results).value)
  {
    if |results| > 0 {
      var tail := results[1..];
      var head := ParseLine(term, results[0]);
      var rest := ParseContent(term, tail);
      assert head.Ok? && rest.Ok?;
      ParseContentHits(term, tail);
      var line := Strip(results[0]);
      if line != "" {
        var first := ParseContentLine(term, line);
        assert ParseContent(term, results) == Ok([first.value] + rest.value);
        assert CleanLine(results[0]) == [line];
        ParsedFromCons(term, line, CleanLines(tail), first.value, rest.value);
      } else {
        assert [] + rest.value == rest.value;
        assert CleanLine(results[0]) + CleanLines(tail) == CleanLines(tail);
      }
    }
  }

  lemma ParsedFromCons(term: string, line: string, lines: seq<string>, h: Hit, hs: seq<Hit>)
    requires ParseContentLine(term, line) == Ok(h)
    requires ParsedFrom(term, lines, hs)
    ensures ParsedFrom(term, [line] + lines, [h] + hs)
  {
    forall k | 1 <= k < |hs| + 1
      ensures ParseContentLine(term, ([line] + lines)[k]) == Ok(([h] + hs)[k])
    {
      assert ([line] + lines)[k] == lines[k - 1];
      assert ([h] + hs)[k] == hs[k - 1];
    }
  }
}
