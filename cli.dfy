/** What `main` (quickfind.py:196-230) makes of the parsed command line:
    a search mode, a format and a stripped term, or the exception it
    raises first. Argument parsing itself is not modelled: the flags come
    in already parsed. */
module Cli {
  import opened PyStr
  import opened Outcome
  import opened Names
  import opened QuickFinder
  import opened Sorting

  /** The parsed command line: the boolean flags by their destination
      names (`defs`, `files`, `file_list`, `coords`, ...), the
      `--clean-import` and `-1` switches, and the term. */
  datatype Args = Args(flags: map<string, bool>, cleanImport: bool, singleResult: bool, term: string)

  /** What quickfind runs with once the flags are resolved. */
  datatype Config = Config(term: string, searchType: string, format: string, singleResult: bool)

  /** `getattr(args, name, None) is True`: a name with no flag, such as
      `raw`, is not set. */
  predicate IsSet(args: Args, name: string) {
    name in args.flags && args.flags[name]
  }

  /** The names whose flags are set, in the order given. */
  function Chosen(args: Args, names: seq<string>): (r: seq<string>)
    ensures |r| <= |names|
    ensures forall x :: x in r <==> x in names && IsSet(args, x)
  {
    if |names| == 0 then []
    else
      var init, last := names[..|names| - 1], names[|names| - 1];
      assert names == init + [last];
      Chosen(args, init) + if IsSet(args, last) then [last] else []
  }

  /** Looking at one more name adds it when its flag is set. */
  lemma ChosenStep(args: Args, names: seq<string>, i: nat)
    requires i < |names|
    ensures Chosen(args, names[..i + 1]) == Chosen(args, names[..i]) + if IsSet(args, names[i]) then [names[i]] else []
  {
    assert names[..i + 1][..i] == names[..i];
  }

  /** The names chosen among the first `i` are among those chosen overall. */
  lemma {:induction false} ChosenPrefix(args: Args, names: seq<string>, i: nat)
    requires i <= |names|
    ensures |Chosen(args, names[..i])| <= |Chosen(args, names)|
    decreases |names|
  {
    if i < |names| {
      var init := names[..|names| - 1];
      assert init[..i] == names[..i];
      ChosenPrefix(args, init, i);
    } else {
      assert names[..i] == names;
    }
  }

  /** The name picked from `names`: the default when no flag is set, the
      one set flag's name, or `tooMany` when several are set. */
  function Pick(args: Args, names: seq<string>, default: string, tooMany: Error): (r: Result<string>)
    ensures r.Err? <==> |Chosen(args, names)| > 1
    ensures r.Err? ==> r.error == tooMany
    ensures r.Ok? ==> r.value == default || (r.value in names && IsSet(args, r.value))
    ensures (forall x :: x in names ==> !IsSet(args, x)) ==> r == Ok(default)
    ensures |Chosen(args, names)| == 1 ==> r == Ok(Chosen(args, names)[0])
  {
    var chosen := Chosen(args, names);
    assert |chosen| > 0 ==> chosen[0] in chosen;
    if |chosen| > 1 then Err(tooMany)
    else if |chosen| == 1 then
      assert chosen[0] in chosen;
      Ok(chosen[0])
    else Ok(default)
  }

  /** One of `main`'s two loops: walk the names, remember the one whose
      flag is set, and raise on a second. */
  method SelectFlag(args: Args, names: seq<string>, default: string, tooMany: Error) returns (r: Result<string>)
    ensures r == Pick(args, names, default, tooMany)
  {
    var selected := default;
    var found := false;
    var i := 0;
    while i < |names|
      invariant 0 <= i <= |names|
      invariant found <==> |Chosen(args, names[..i])| > 0
      invariant found ==> |Chosen(args, names[..i])| == 1 && selected == Chosen(args, names[..i])[0]
      invariant !found ==> selected == default
    {
      ChosenStep(args, names, i);
      if IsSet(args, names[i]) {
        if found {
          ChosenPrefix(args, names, i + 1);
          return Err(tooMany);
        }
        selected := names[i];
        found := true;
      }
      i := i + 1;
    }
    assert names[..i] == names;
    r := Ok(selected);
  }

  /** The resolution `main` performs, in its order: the mode flags, the
      format flags, `--clean-import`, the term, then the files-mode format. */
  function Resolve(args: Args): (r: Result<Config>)
    ensures r.Ok? ==> r.value.term == Strip(args.term) && r.value.term != ""
    ensures r.Ok? ==> r.value.searchType in SearchModes && r.value.singleResult == args.singleResult
    ensures r.Ok? && r.value.searchType == SearchFiles ==> r.value.format == FormatFiles
    ensures r.Ok? && args.cleanImport ==> r.value.searchType == SearchImports && r.value.format == FormatImport
    ensures r.Ok? ==> r.value.format in Formats || r.value.format == FormatImport
  {
    var mode :- Pick(args, SearchModes, SearchFiles, MultipleSearchTypes);
    var format :- Pick(args, Formats, FormatRaw, MultipleFormats);
    if args.cleanImport && mode != SearchImports then Err(CleanImportWithoutImport)
    else
      var format := if args.cleanImport then FormatImport else format;
      var term := Strip(args.term);
      if term == "" then Err(EmptyTerm)
      else if mode == SearchFiles && format != FormatRaw && format != FormatFiles then Err(BadFilesFormat)
      else Ok(Config(term, mode, if mode == SearchFiles then FormatFiles else format, args.singleResult))
  }

  /** `main` from the parsed flags on, up to building the finder. */
  method ResolveArgs(args: Args) returns (r: Result<Config>)
    ensures r == Resolve(args)
  {
    var searchMode :- SelectFlag(args, SearchModes, SearchFiles, MultipleSearchTypes);
    var format :- SelectFlag(args, Formats, FormatRaw, MultipleFormats);
    if args.cleanImport {
      if searchMode != SearchImports {
        return Err(CleanImportWithoutImport);
      }
      format := FormatImport;
    }
    var term := Strip(args.term);
    if term == "" {
      return Err(EmptyTerm);
    }
    if searchMode == SearchFiles {
      if format != FormatRaw && format != FormatFiles {
        return Err(BadFilesFormat);
      }
      format := FormatFiles;
    }
    r := Ok(Config(term, searchMode, format, args.singleResult));
  }

  /** The whole command: resolve the flags, then build and run the finder
      on what `ag` printed. */
  method RunCommand(args: Args, ag: AgRun) returns (r: Result<seq<string>>)
    ensures Resolve(args).Err? ==> r == Err(Resolve(args).error)
    ensures Resolve(args).Ok? && args.singleResult ==> r.Err?
    ensures r.Ok? ==> StrictlySorted(r.value)
  {
    var config :- ResolveArgs(args);
    var finder := new QuickFind(config.term, config.searchType, config.format, config.singleResult);
    r := finder.Run(ag);
  }

  /** A single set flag among `names` is the one picked. */
  lemma PickSingle(args: Args, names: seq<string>, default: string, tooMany: Error, x: string)
    requires x in names && IsSet(args, x) && |Chosen(args, names)| <= 1
    ensures Pick(args, names, default, tooMany) == Ok(x)
  {
    var chosen := Chosen(args, names);
    assert x in chosen;
    assert chosen == [chosen[0]];
  }

  /** No flag at all means a files search listing file names: the `raw`
      default is turned into `file_list`. */
  lemma NoFlagsDefaults(args: Args)
    requires forall x :: x in SearchModes ==> !IsSet(args, x)
    requires forall x :: x in Formats ==> !IsSet(args, x)
    requires !args.cleanImport && Strip(args.term) != ""
    ensures Resolve(args) == Ok(Config(Strip(args.term), SearchFiles, FormatFiles, args.singleResult))
  {
    assert Pick(args, SearchModes, SearchFiles, MultipleSearchTypes) == Ok(SearchFiles);
    assert Pick(args, Formats, FormatRaw, MultipleFormats) == Ok(FormatRaw);
  }

  /** Which error comes first: several mode flags, then several format
      flags, each exactly when more than one such flag is set. */
  lemma FlagConflicts(args: Args)
    ensures |Chosen(args, SearchModes)| > 1 <==> Resolve(args) == Err(MultipleSearchTypes)
    ensures |Chosen(args, SearchModes)| <= 1 ==>
              (|Chosen(args, Formats)| > 1 <==> Resolve(args) == Err(MultipleFormats))
  {
  }

  /** `--clean-import` is accepted only with `-i`, and then always yields
      `clean_imports`, whatever format flag was given. */
  lemma CleanImportRule(args: Args)
    requires args.cleanImport
    requires |Chosen(args, SearchModes)| <= 1 && |Chosen(args, Formats)| <= 1
    ensures !IsSet(args, SearchImports) ==> Resolve(args) == Err(CleanImportWithoutImport)
    ensures IsSet(args, SearchImports) && Strip(args.term) != "" ==>
              Resolve(args) == Ok(Config(Strip(args.term), SearchImports, FormatImport, args.singleResult))
  {
    if IsSet(args, SearchImports) {
      PickSingle(args, SearchModes, SearchFiles, MultipleSearchTypes, SearchImports);
    }
  }

  /** A files search, chosen by `-f` or by default, accepts no format
      flag but `-l`. */
  lemma FilesFormatRule(args: Args)
    requires forall m :: m in SearchModes && m != SearchFiles ==> !IsSet(args, m)
    requires |Chosen(args, SearchModes)| <= 1
    requires |Chosen(args, Formats)| <= 1
    requires !args.cleanImport && Strip(args.term) != ""
    ensures Resolve(args).Ok? <==> !IsSet(args, FormatCoords) && !IsSet(args, FormatQuickfix)
  {
    if IsSet(args, SearchFiles) {
      PickSingle(args, SearchModes, SearchFiles, MultipleSearchTypes, SearchFiles);
    } else {
      assert Pick(args, SearchModes, SearchFiles, MultipleSearchTypes) == Ok(SearchFiles);
    }
    var format := Pick(args, Formats, FormatRaw, MultipleFormats).value;
    if IsSet(args, FormatCoords) {
      PickSingle(args, Formats, FormatRaw, MultipleFormats, FormatCoords);
    } else if IsSet(args, FormatQuickfix) {
      PickSingle(args, Formats, FormatRaw, MultipleFormats, FormatQuickfix);
    } else {
      FilesFormatAllowed(args, format);
    }
  }

  /** Without `-x` or `-q` the picked format is `raw` or `file_list`. */
  lemma FilesFormatAllowed(args: Args, format: string)
    requires !IsSet(args, FormatCoords) && !IsSet(args, FormatQuickfix)
    requires Pick(args, Formats, FormatRaw, MultipleFormats) == Ok(format)
    ensures format == FormatRaw || format == FormatFiles
  {
  }

  /** One content-mode flag (`-d`, `-c`, `-i` or `-u`) without
      `--clean-import` gives that mode, with the format flag set or `raw`
      when there is none. */
  lemma ContentModeResolves(args: Args, m: string)
    requires m in SearchModes && m != SearchFiles && IsSet(args, m)
    requires |Chosen(args, SearchModes)| <= 1 && |Chosen(args, Formats)| <= 1
    requires !args.cleanImport && Strip(args.term) != ""
    ensures Pick(args, Formats, FormatRaw, MultipleFormats).Ok?
    ensures Resolve(args) == Ok(Config(Strip(args.term), m, Pick(args, Formats, FormatRaw, MultipleFormats).value, args.singleResult))
  {
    PickSingle(args, SearchModes, SearchFiles, MultipleSearchTypes, m);
  }

  /** With no format flag a content search keeps the `raw` default, which
      then cannot format any hit. */
  lemma ContentModeDefaultsRaw(args: Args, m: string)
    requires m in SearchModes && m != SearchFiles && IsSet(args, m)
    requires |Chosen(args, SearchModes)| <= 1
    requires forall f :: f in Formats ==> !IsSet(args, f)
    requires !args.cleanImport && Strip(args.term) != ""
    ensures Resolve(args) == Ok(Config(Strip(args.term), m, FormatRaw, args.singleResult))
  {
    assert Pick(args, Formats, FormatRaw, MultipleFormats) == Ok(FormatRaw);
    ContentModeResolves(args, m);
  }

  /** A term that is blank once stripped is refused once the flags agree. */
  lemma BlankTermRefused(args: Args)
    requires AllSpace(args.term)
    requires |Chosen(args, SearchModes)| <= 1 && |Chosen(args, Formats)| <= 1
    requires args.cleanImport ==> IsSet(args, SearchImports)
    ensures Resolve(args) == Err(EmptyTerm)
  {
    StripEmpty(args.term);
    if args.cleanImport {
      PickSingle(args, SearchModes, SearchFiles, MultipleSearchTypes, SearchImports);
    }
  }
}
