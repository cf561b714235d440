# quickfind, modelled in Dafny

quickfind is a small Python 2.7 front end to `ag` (the silver searcher).
It turns a term and a few flags into an `ag` command, splits what `ag`
prints into hits, renders each hit as a file name, a `file:line:col`
coordinate, a vim quickfix line or a rewritten import statement, and
prints the distinct renderings sorted. This project models that core
(all of it lives in `quickfind.py`):

- **Patterns** (`patterns.dfy`). The search pattern `search` builds for
  each mode, with the term between PCRE's `\Q`/`\E` quoting marks. Python's
  `template % arg` is modelled on strings.
- **AgOutput** (`ag_output.dfy`). `_call_ag` as a pure function of `ag`'s
  exit status and captured output: the error case, the "no results" case,
  and the stripped non-blank lines.
- **Hits** (`hits.dfy`). The `Hit` record, `_search_files`, and the parse
  of one `file:line:col:text` line. Also the parse of a whole content
  search as a specification function.
- **Imports** (`imports.dfy`). `_generate_import`, including an exact
  model of what `re.sub(r'^\s*import ([^\s]+\.).*$', r'\1', text)` does.
- **Sorting** (`sorting.dfy`). `sorted(list(set(xs)))` as a method that
  repeatedly takes the least remaining element.
- **QuickFinder** (`quickfind.dfy`). The `QuickFind` class: its fields are
  set once in the constructor. It holds `search`, `_search_content` (an
  imperative loop proved against the parse function), `format_hit` and
  `run`.
- **Cli** (`cli.dfy`). `main`'s resolution of the parsed flags into a mode,
  a format and a term: the two flag loops as a method, plus the rules that
  follow them.
- **PyStr** (`pystr.dfy`). The Python 2 string operations the code relies
  on: `strip` over Python 2's whitespace (space, `\t`, `\n`, `\r`, `\x0b`,
  `\x0c`), `split` and `join` on one character, and the ordering `sorted`
  uses.
- **Outcome** (`outcome.dfy`). `Option`, a `Result` whose error side names
  each exception the code raises, and the mode and format constants.

Every exception the Python code raises becomes an `Err` value, in the order
the code would raise it. Where a reader might expect otherwise, the model
follows the code:

- A classes search (`-c`) raises a TypeError while its pattern is being
  compiled, before `ag` runs (see "## Findings").
- The default format `raw` cannot format any hit.
- `--clean-import` produces a double dot (`import com.foo..Baz`).
- A malformed content line aborts the search instead of being skipped.
- `-1` fails.

## Model

| member | source | states |
|---|---|---|
| AgOutput.CallAg | quickfind.py:56-67 | fails exactly when `ag` exits non-zero with output, carrying status and output; a non-zero exit with no output is an empty result; otherwise the result is the cleaned output lines |
| AgOutput.CleanLines | quickfind.py:64-67 | the lines kept from `ag`'s output: each stripped, blank ones dropped, in their original order; never more lines than were given |
| AgOutput.CleanLinesClean | quickfind.py:64-67 | every line kept is non-empty and has no whitespace at either end |
| AgOutput.CleanLinesMembers | quickfind.py:64-67 | a string is kept exactly when it is the stripped form of some non-blank output line |
| AgOutput.CleanLinesAppend | quickfind.py:64-67 | cleaning works line by line and keeps order: cleaning a concatenation concatenates the cleaned parts |
| AgOutput.CleanLinesOne | quickfind.py:64-67 | a single line is dropped when it is all whitespace, and kept stripped otherwise |
| AgOutput.CleanLinesIdempotent | quickfind.py:64-67 | cleaning already-cleaned lines changes nothing |
| AgOutput.CallAgLinesHaveNoNewline | quickfind.py:64-67 | no returned line contains a newline |
| Hits.FileHits | quickfind.py:73-74 | one hit per result line, in order: the term, the line as filename, and no text, line or column |
| Hits.ParseContentLine | quickfind.py:88-95 | one content line: the first three colon-separated fields are filename, line and column, the rest rejoined with colons is the text; an index error when there are fewer than three fields |
| Hits.ParseContent | quickfind.py:83-96 | the content search's loop as a function: lines stripped, blank ones skipped, the first malformed line's error ending the search |
| Hits.QuickfixLine | quickfind.py:123-124 | the quickfix rendering `filename:line:col:text`, with an absent field shown as `None` |
| Hits.CoordsLine | quickfind.py:126-127 | the coords rendering `filename:line:col`, with an absent field shown as `None` |
| Hits.ParseContentLineOk | quickfind.py:88-95 | a content line parses exactly when it holds at least two colons, and then line, col and text are all present |
| Hits.ContentLineRoundTrip | quickfind.py:88-95 | with at least three colons, filename, line and col hold no colon, and the quickfix rendering gives back the line exactly |
| Hits.ContentLineTwoColons | quickfind.py:88-95 | with exactly two colons the text is empty and the quickfix rendering gains a trailing colon |
| Hits.QuickfixParses | quickfind.py:88-95 | a quickfix line built from colon-free filename, line and col parses back into exactly those fields and the text |
| Hits.ParseContentAppend | quickfind.py:83-96 | the parse of `a + b` is the parse of `a` followed by that of `b`, and the earlier failure wins |
| Hits.ParseContentStep | quickfind.py:83-96 | one loop step: a blank line adds nothing, a good line appends its hit, and a malformed line's error is the whole search's error |
| Hits.ParseContentFails | quickfind.py:83-95 | a content search fails exactly when some non-blank line has fewer than two colons, and then with an index error |
| Hits.ParseContentHits | quickfind.py:83-96 | a successful search yields one hit per cleaned output line, in order, each the parse of that line |
| Patterns.Quote | quickfind.py:102 | the term between PCRE's `\Q` and `\E` |
| Patterns.Template | quickfind.py:103-110 | each mode's template, with `%s` for any other mode |
| Patterns.Interpolate | quickfind.py:110 | Python's `template % arg` for a template whose one conversion is `%s` |
| Patterns.Compile | quickfind.py:102-110 | the pattern as evidently intended: every mode's template applied to the quoted term |
| Patterns.CompileAsWritten | quickfind.py:98-110 | the pattern as written: every mode but `classes` yields a pattern; `classes` raises a TypeError |
| Patterns.ClassesModeRaises | quickfind.py:105-110 | a classes search fails for every term |
| Patterns.CompileAgrees | quickfind.py:102-110 | outside `classes`, the code as written and the intended pattern agree |
| Patterns.CompileDefs | quickfind.py:102-104 | the defs pattern is `def \Q<term>\E[\[\(: ]` |
| Patterns.CompileClasses | quickfind.py:102-107 | the intended classes pattern is one of the keywords class, trait, object or type, then `\Q<term>\E` with no space before it, then one of `[`, `(`, `{`, a space or the end of the line |
| Patterns.CompileImports | quickfind.py:102-108 | the imports pattern is `import .*[\.\{, ]\Q<term>\E` |
| Patterns.CompileUsages | quickfind.py:102-110 | usages, and any unknown mode, search for `\Q<term>\E` alone |
| Patterns.CompileInjective | quickfind.py:102-110 | for a fixed mode, distinct terms give distinct patterns |
| Patterns.InterpolateSplit | quickfind.py:110 | in a template whose only `%` is one `%s`, `%` puts the argument where the `%s` stood |
| Imports.ImportPrefix | quickfind.py:116 | the `re.sub` of `_generate_import`: the group when the pattern matches after the leading whitespace, otherwise the text unchanged |
| Imports.GenerateImport | quickfind.py:114-117 | `import `, the prefix, a dot and the term |
| Imports.ImportPrefixOfImportLine | quickfind.py:116 | on an import line, the prefix is the non-whitespace run after `import `, cut just after its last dot |
| Imports.ImportPrefixChanged | quickfind.py:116 | conversely, a newline-free text whose prefix differs from itself is such an import line, and the prefix is its cut run |
| Imports.ImportPrefixOfOtherText | quickfind.py:116-117 | text with no `import ` after its leading whitespace is used whole as the prefix |
| Imports.GenerateImportOfImportLine | quickfind.py:114-117 | on an import line the output is `import `, the cut run, a dot and the term, so a dot is doubled |
| Imports.ImportPrefixExample | quickfind.py:116 | the prefix of `import com.foo.Bar` is `com.foo.` |
| Imports.LeadingRun | quickfind.py:116 | the longest prefix without whitespace, ending at the text's end or at whitespace |
| Imports.LastDot | quickfind.py:116 | the position of the last dot after the first character, or none |
| Imports.GenerateImportShape | quickfind.py:117 | the output always starts with `import ` and ends with a dot and the term |
| Sorting.SortSet | quickfind.py:137-138 | the result is strictly ascending and has exactly the set's elements |
| Sorting.StrictlySortedUnique | quickfind.py:137-138 | two strictly ascending lists with the same elements are equal, so the sorted result is determined |
| Sorting.LeastExists | quickfind.py:138 | every non-empty set of strings has a least element |
| PyStr.StripIsTrimmed | quickfind.py:65 | `strip` leaves no whitespace at either end |
| PyStr.StripIdempotent | quickfind.py:84 | stripping twice is stripping once, so the loop's second strip changes nothing |
| PyStr.StripEmpty | quickfind.py:222-223 | `strip` gives the empty string exactly when the string is all whitespace |
| PyStr.TrimStartFacts | quickfind.py:65 | `lstrip` removes only whitespace from the front and stops at a non-whitespace character |
| PyStr.TrimEndFacts | quickfind.py:65 | `rstrip` removes only whitespace from the end and stops at a non-whitespace character |
| PyStr.SplitJoin | quickfind.py:88 | `split` yields one piece more than there are separators, no piece holds the separator, and joining gives the string back |
| PyStr.JoinSplit | quickfind.py:92 | splitting a join of separator-free pieces gives the pieces back |
| PyStr.SplitAppend | quickfind.py:88 | splitting at the first separator yields the part before it and then the split of the rest |
| PyStr.LessIrreflexive | quickfind.py:138 | string order is irreflexive |
| PyStr.LessTransitive | quickfind.py:138 | string order is transitive |
| PyStr.LessTotal | quickfind.py:138 | any two distinct strings are ordered one way or the other |
| QuickFinder.QuickFind.constructor | quickfind.py:35-45 | the four fields hold the given values |
| QuickFinder.QuickFind.AgArgs | quickfind.py:73-110 | files mode passes `-g` and the raw term; a classes search raises a TypeError before any arguments are built; other modes pass `-s --column` and the compiled pattern |
| QuickFinder.QuickFind.AgArgsDetermineTerm | quickfind.py:73-110 | whenever arguments are built, the term can be read back from them |
| QuickFinder.QuickFind.SearchResult | quickfind.py:98-112 | `search` as a function: the filename hits in files mode; otherwise the pattern compiler's error, then `_call_ag`'s error, then the parse of its lines |
| QuickFinder.QuickFind.ClassesSearchRaises | quickfind.py:98-110 | a classes search raises a TypeError whatever `ag` would print |
| QuickFinder.QuickFind.SearchFileHits | quickfind.py:69-74 | fails exactly when `_call_ag` fails; otherwise one filename-only hit per line |
| QuickFinder.QuickFind.SearchContent | quickfind.py:76-96 | the error of `_call_ag`, or the parse of its lines |
| QuickFinder.QuickFind.ParseResults | quickfind.py:81-96 | the loop computes exactly the specified parse of the lines |
| QuickFinder.QuickFind.Search | quickfind.py:98-112 | the method computes the specified search result, compiling the pattern (and raising its error) before the content search |
| QuickFinder.QuickFind.FormatHit | quickfind.py:119-132 | fails exactly for formats other than file_list, quickfix and coords, and for clean_imports on a hit without text; otherwise each format gives its rendering |
| QuickFinder.QuickFind.FormatAll | quickfind.py:136 | succeeds exactly when every hit formats; then one rendering per hit, in order |
| QuickFinder.QuickFind.FormatAllFirstError | quickfind.py:136 | a failure is that of the first hit that cannot be formatted |
| QuickFinder.QuickFind.RawFormatFails | quickfind.py:119-132 | the default `raw` format fails on any non-empty list of hits |
| QuickFinder.QuickFind.Run | quickfind.py:134-144 | errors arise in order (search, classes pattern included, then format, then `-1`); otherwise the output is strictly ascending with exactly the formatted hits' values |
| QuickFinder.QuickFind.FileListGivesLines | quickfind.py:69-74 | a files search listed as file names yields exactly the cleaned lines `ag -g` printed |
| QuickFinder.QuickFind.QuickfixGivesLines | quickfind.py:76-96 | a content search other than classes, in quickfix format, yields exactly `ag`'s cleaned lines when each has three colons |
| QuickFinder.QuickFind.ContentParses | quickfind.py:83-95 | no line fails when every kept line has three colons |
| QuickFinder.QuickFind.CleanImportsShape | quickfind.py:114-136 | every line of a clean_imports content search is an import statement for the term |
| Cli.Chosen | quickfind.py:198-214 | a name is chosen exactly when it is among the names and its flag is set |
| Cli.Pick | quickfind.py:196-214 | fails with the given error exactly when several flags are set; otherwise the default when none is set, and the one set name when exactly one is |
| Cli.SelectFlag | quickfind.py:196-214 | the loop computes exactly the specified pick |
| Cli.Resolve | quickfind.py:196-230 | on success the term is stripped and non-empty, the mode is a known mode, files mode lists files, and `--clean-import` means imports with clean_imports |
| Cli.ResolveArgs | quickfind.py:196-230 | the method computes exactly the specified resolution |
| Cli.RunCommand | quickfind.py:196-238 | resolution errors come through unchanged, `-1` always fails, and any output is strictly ascending |
| Cli.NoFlagsDefaults | quickfind.py:196-230 | with no flags, a non-blank term gives a files search listed as file names |
| Cli.FlagConflicts | quickfind.py:196-214 | several mode flags are the first error, then several format flags, each exactly when it happens |
| Cli.CleanImportRule | quickfind.py:216-220 | `--clean-import` without `-i` fails; with `-i` it forces clean_imports whatever format flag was given |
| Cli.FilesFormatRule | quickfind.py:196-230 | a files search, chosen by `-f` or by default when no mode flag is set, succeeds exactly when neither `-x` nor `-q` is given |
| Cli.ContentModeResolves | quickfind.py:196-214 | one content-mode flag, at most one format flag, no `--clean-import` and a non-blank term give that mode and the format picked from the format flags |
| Cli.ContentModeDefaultsRaw | quickfind.py:196-214 | a content-mode flag without any format flag keeps the `raw` default |
| Cli.BlankTermRefused | quickfind.py:222-224 | a blank term is refused whenever at most one mode flag and one format flag are set and `--clean-import` comes with `-i` |

## Left out

- Running `ag` (quickfind.py:57) and printing the results (quickfind.py:143-144) are process I/O. `ag`'s exit status and captured output are a parameter, and the printed lines are the result of `Run`.
- `argparse` setup (quickfind.py:148-194) is library code. The parsed flags arrive as a map from destination name to boolean, read the way `getattr(args, name, None) is True` reads them.
- What the compiled patterns match depends on `ag`'s PCRE engine, which is not modelled. Only the pattern strings are. A term containing `\E` would end the quoting early; that too is beyond the strings.
- Unicode is not modelled. `strip` and `\s` use Python 2's byte-string whitespace set, the order of `sorted` is code-point order, and there is no encoding.
- The `-1` branch (quickfind.py:140-141) reads the missing attribute `self.results`. It is modelled as an `AttributeError` raised after the hits are formatted. What `results[0]` would print if the attribute existed is not modelled.
- Columns and line numbers stay the strings `ag` printed: the code parses no integers and corrects no column.
- Python's `sorted` of a set is modelled by the selection method `SortSet`. Its result is unique by `Sorting.StrictlySortedUnique`, but Python's own sorting algorithm is not modelled.
- Cli.RunCommand: states that a `-1` run fails and that any output is sorted. It does not restate `Run`'s full contract for the resolved configuration.
- QuickFinder.QuickFind.QuickfixGivesLines: stated only for lines with at least three colons, and not for classes, which raises (`QuickFinder.QuickFind.ClassesSearchRaises`). `Hits.ContentLineTwoColons` covers exactly two colons, and `Hits.ParseContentFails` covers fewer.
- Imports.ImportPrefixChanged: stated for text without a newline, which is what the content search passes (`AgOutput.CallAgLinesHaveNoNewline`). The model of `$` before a final newline is in `Imports.MatchEnd` but has no lemma of its own.

## Findings

| source | as written | input that shows it | evidently intended | confidence | as-written member | corrected member |
|---|---|---|---|---|---|---|
| quickfind.py:105-107 | the classes template is wrapped in parentheses with a trailing comma, so it is a one-element tuple, and `tuple % str` raises TypeError | any term with `-c`, e.g. `quickfind -c Foo` | the template string applied to the quoted term, like every other mode | not executed | Patterns.CompileAsWritten | Patterns.CompileClasses |
