/** `_generate_import` (quickfind.py:114-117): rewrite a matched import
    line so that it imports the searched term from the same package. */
module Imports {
  import opened PyStr
  import opened Outcome

  predicate NoSpace(s: string) {
    forall i :: 0 <= i < |s| ==> !IsSpace(s[i])
  }

  /** The longest prefix of `s` holding no whitespace: what `[^\s]+` takes
      before it backtracks. */
  function LeadingRun(s: string): (r: string)
    ensures |r| <= |s| && r == s[..|r|] && NoSpace(r)
    ensures |r| == |s| || IsSpace(s[|r|])
  {
    if |s| > 0 && !IsSpace(s[0]) then
      var tail := LeadingRun(s[1..]);
      assert [s[0]] + tail == s[..1 + |tail|];
      [s[0]] + tail
    else ""
  }

  /** Where `[^\s]+\.` ends within `run` once it has backtracked: the last
      `.` with at least one character before it. */
  function LastDot(run: string): (k: Option<nat>)
    ensures k.Some? ==> 1 <= k.value < |run| && run[k.value] == '.'
                        && forall i :: k.value < i < |run| ==> run[i] != '.'
    ensures k.None? ==> forall i :: 1 <= i < |run| ==> run[i] != '.'
  {
    if |run| < 2 then None
    else if run[|run| - 1] == '.' then Some(|run| - 1)
    else LastDot(run[..|run| - 1])
  }

  /** `re.sub(r'^\s*import ([^\s]+\.).*$', r'\1', text)`. The pattern can
      only match at the start of the text, where `\s*` takes all the
      leading whitespace; when it matches, the whole match is replaced by
      the group. When it does not, the text comes back unchanged. */
  function ImportPrefix(text: string): string
  {
    match MatchImport(TrimStart(text))
    case Some(p) => p
    case None => text
  }

  /** The replacement when `import ([^\s]+\.).*$` matches at the start of
      `body`. */
  function MatchImport(body: string): Option<string>
  {
    if |body| < 7 || body[..7] != "import " then None else MatchRun(body[7..])
  }

  /** `([^\s]+\.).*$` at the start of `s`: the group is the run of
      non-whitespace cut after its last dot. */
  function MatchRun(s: string): Option<string>
  {
    var run := LeadingRun(s);
    match LastDot(run)
    case None => None
    case Some(k) => MatchEnd(run[..k + 1], s[k + 1..])
  }

  /** `.*$` after the group: `.` stops at a newline and `$` holds only at
      the end or before a final newline, which is then left in place. */
  function MatchEnd(group: string, after: string): Option<string>
  {
    if |after| > 0 && '\n' in after[..|after| - 1] then None
    else Some(group + (if |after| > 0 && after[|after| - 1] == '\n' then "\n" else ""))
  }

  /** `'import %s.%s' % (prefix, term)`: a dot is always added, so a prefix
      that already ends in one gives a double dot. */
  function GenerateImport(term: string, text: string): (r: string)
  {
    "import " + ImportPrefix(text) + "." + term
  }

  /** `text` reads: whitespace, `import `, a run without whitespace, then
      nothing or something starting with whitespace. */
  predicate ImportLine(text: string, ws: string, run: string, rest: string) {
    && text == ws + "import " + run + rest
    && AllSpace(ws)
    && |run| > 0 && NoSpace(run)
    && (rest == "" || IsSpace(rest[0]))
  }

  /** `prefix` is `run` cut just after its last `.`, which is not its
      first character. */
  predicate CutAfterLastDot(run: string, prefix: string) {
    && 2 <= |prefix| <= |run|
    && run[..|prefix|] == prefix
    && prefix[|prefix| - 1] == '.'
    && forall i :: |prefix| <= i < |run| ==> run[i] != '.'
  }

  lemma {:induction false} TrimStartPast(ws: string, s: string)
    requires AllSpace(ws)
    requires s == "" || !IsSpace(s[0])
    ensures TrimStart(ws + s) == s
  {
    if |ws| > 0 {
      assert (ws + s)[1..] == ws[1..] + s;
      TrimStartPast(ws[1..], s);
    } else {
      assert ws + s == s;
    }
  }

  lemma {:induction false} LeadingRunOf(run: string, rest: string)
    requires NoSpace(run)
    requires rest == "" || IsSpace(rest[0])
    ensures LeadingRun(run + rest) == run
  {
    if |run| > 0 {
      assert (run + rest)[1..] == run[1..] + rest;
      LeadingRunOf(run[1..], rest);
      assert run == [run[0]] + run[1..];
    } else {
      assert run + rest == rest;
    }
  }

  lemma MatchEndNoNewline(group: string, after: string)
    requires '\n' !in after
    ensures MatchEnd(group, after) == Some(group)
  {
    if |after| > 0 {
      var init := after[..|after| - 1];
      assert after[|after| - 1] in after;
      assert '\n' !in init by {
        forall i | 0 <= i < |init| ensures init[i] != '\n' {
          assert init[i] in after;
        }
      }
    }
    assert group + "" == group;
  }

  lemma MatchRunCut(run: string, rest: string, prefix: string)
    requires NoSpace(run) && |run| > 0
    requires rest == "" || IsSpace(rest[0])
    requires CutAfterLastDot(run, prefix)
    requires '\n' !in rest
    ensures MatchRun(run + rest) == Some(prefix)
  {
    LeadingRunOf(run, rest);
    LastDotOfCut(run, prefix);
    assert run == run[..|prefix|] + run[|prefix|..];
    assert (run + rest)[|prefix|..] == run[|prefix|..] + rest;
    NoNewlineInSuffix(run, |prefix|);
    assert '\n' !in run[|prefix|..] + rest;
    MatchEndNoNewline(prefix, (run + rest)[|prefix|..]);
  }

  /** The dot a cut ends with is the last one in the run. */
  lemma LastDotOfCut(run: string, prefix: string)
    requires CutAfterLastDot(run, prefix)
    ensures LastDot(run) == Some(|prefix| - 1) && run[..|prefix|] == prefix
  {
    assert run[|prefix| - 1] == prefix[|prefix| - 1];
  }

  /** On an import line without newlines the prefix is the run cut just
      after its last dot. */
  lemma ImportPrefixOfImportLine(text: string, ws: string, run: string, rest: string, prefix: string)
    requires ImportLine(text, ws, run, rest)
    requires CutAfterLastDot(run, prefix)
    requires '\n' !in rest
    ensures ImportPrefix(text) == prefix
  {
    var body := "import " + run + rest;
    assert text == ws + body;
    TrimStartPast(ws, body);
    MatchImportCut(run, rest, prefix);
  }

  lemma MatchImportCut(run: string, rest: string, prefix: string)
    requires NoSpace(run) && |run| > 0
    requires rest == "" || IsSpace(rest[0])
    requires CutAfterLastDot(run, prefix)
    requires '\n' !in rest
    ensures MatchImport("import " + run + rest) == Some(prefix)
  {
    var body := "import " + run + rest;
    assert body[..7] == "import ";
    assert body[7..] == run + rest;
    MatchRunCut(run, rest, prefix);
  }

  /** Conversely, a newline-free text whose prefix is not the text itself
      is such an import line (whose parts are returned), and the prefix is
      its cut run. */
  lemma ImportPrefixChanged(text: string) returns (ws: string, run: string, rest: string)
    requires '\n' !in text
    requires ImportPrefix(text) != text
    ensures ImportLine(text, ws, run, rest) && CutAfterLastDot(run, ImportPrefix(text))
  {
    var s;
    ws, s := SplitImportLine(text);
    run, rest := MatchRunSome(s);
    assert ws + ("import " + (run + rest)) == ws + "import " + run + rest;
  }

  /** A text whose prefix changed is whitespace, `import `, then text
      on which the group matched. */
  lemma SplitImportLine(text: string) returns (ws: string, s: string)
    requires '\n' !in text
    requires ImportPrefix(text) != text
    ensures text == ws + ("import " + s) && AllSpace(ws) && '\n' !in s
    ensures MatchRun(s).Some? && ImportPrefix(text) == MatchRun(s).value
  {
    var body := TrimStart(text);
    PrefixChangedMatched(text);
    ws := LeadingSpace(text);
    NoNewlineInSuffix(text, |ws|);
    s := ImportBody(body);
    NoNewlineInSuffix(body, 7);
  }

  /** The prefix differs from the text only when the pattern matched. */
  lemma PrefixChangedMatched(text: string)
    requires ImportPrefix(text) != text
    ensures MatchImport(TrimStart(text)).Some?
    ensures ImportPrefix(text) == MatchImport(TrimStart(text)).value
  {
  }

  /** The whitespace `TrimStart` removes. */
  lemma LeadingSpace(text: string) returns (ws: string)
    ensures text == ws + TrimStart(text) && AllSpace(ws) && TrimStart(text) == text[|ws|..]
  {
    TrimStartFacts(text);
    ws := text[..|text| - |TrimStart(text)|];
  }

  /** A text on which `import ` and the group matched. */
  lemma ImportBody(body: string) returns (s: string)
    requires MatchImport(body).Some?
    ensures body == "import " + s && s == body[7..] && MatchImport(body) == MatchRun(s)
  {
    s := body[7..];
    assert body == body[..7] + body[7..];
  }

  lemma NoNewlineInSuffix(s: string, i: nat)
    requires i <= |s| && ('\n' !in s || NoSpace(s))
    ensures '\n' !in s[i..]
  {
    forall j | 0 <= j < |s[i..]| ensures s[i..][j] != '\n' {
      assert s[i..][j] == s[i + j];
    }
  }

  lemma MatchRunSome(s: string) returns (run: string, rest: string)
    requires '\n' !in s
    requires MatchRun(s).Some?
    ensures s == run + rest && |run| > 0 && NoSpace(run) && (rest == "" || IsSpace(rest[0]))
    ensures CutAfterLastDot(run, MatchRun(s).value)
  {
    run := LeadingRun(s);
    rest := s[|run|..];
    assert s == run + rest;
    var k := LastDot(run).value;
    var after := s[k + 1..];
    NoNewlineInSuffix(s, k + 1);
    MatchEndNoNewline(run[..k + 1], after);
  }

  /** On an import line the output is `import `, the cut run, a dot and
      the term; the run already ends in a dot, so the dot is doubled. */
  lemma GenerateImportOfImportLine(term: string, text: string, ws: string, run: string, rest: string, prefix: string)
    requires ImportLine(text, ws, run, rest)
    requires CutAfterLastDot(run, prefix)
    requires '\n' !in rest
    ensures GenerateImport(term, text) == "import " + prefix + "." + term
    ensures GenerateImport(term, text)[6 + |prefix|..8 + |prefix|] == ".."
  {
    ImportPrefixOfImportLine(text, ws, run, rest, prefix);
    var r := GenerateImport(term, text);
    assert r[6 + |prefix|] == prefix[|prefix| - 1];
    assert r[7 + |prefix|] == '.';
  }

  /** The documented example: the prefix of `import com.foo.Bar` is
      `com.foo.`, so searching for `Baz` gives `import com.foo..Baz`. */
  lemma ImportPrefixExample()
    ensures ImportPrefix("import com.foo.Bar") == "com.foo."
  {
    var text, run, prefix := "import com.foo.Bar", "com.foo.Bar", "com.foo.";
    assert ImportLine(text, "", run, "");
    assert CutAfterLastDot(run, prefix);
    ImportPrefixOfImportLine(text, "", run, "", prefix);
  }

  /** Text that is not an import line (no `import ` after the leading
      whitespace) is its own prefix. */
  lemma ImportPrefixOfOtherText(term: string, text: string)
    requires |TrimStart(text)| < 7 || TrimStart(text)[..7] != "import "
    ensures GenerateImport(term, text) == "import " + text + "." + term
  {
    assert MatchImport(TrimStart(text)) == None;
    assert ImportPrefix(text) == text;
  }

  /** `x` reads `import `, something, a dot and then `term`. */
  predicate ImportOf(x: string, term: string) {
    |x| >= 8 + |term| && x[..7] == "import " && x[|x| - |term| - 1..] == "." + term
  }

  lemma GenerateImportShape(term: string, text: string)
    ensures ImportOf(GenerateImport(term, text), term)
  {
    var x := GenerateImport(term, text);
    var p := ImportPrefix(text);
    assert x == "import " + p + "." + term;
    assert x[|x| - |term| - 1..] == "." + term;
  }
}
