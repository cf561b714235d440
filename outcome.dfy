/** What a quickfind operation can come back with: a value, or the
    exception the Python code raises instead. */
module Outcome {

  datatype Option<+T> = None | Some(value: T)

  /** The exceptions quickfind.py raises or lets escape. */
  datatype Error =
    | AgFailed(status: int, output: string)  // `ag` exited non-zero and printed something
    | IndexError                             // a content line with fewer than two colons
    | TypeError                              // `%` on a tuple, or `re.sub` on a hit without text
    | AttributeError                         // `self.results` under `-1`
    | UnsupportedFormat(format: string)      // `format_hit` with an unknown format, `raw` included
    | MultipleSearchTypes
    | MultipleFormats
    | CleanImportWithoutImport
    | EmptyTerm
    | BadFilesFormat

  datatype Result<+T> = Ok(value: T) | Err(error: Error) {
    predicate IsFailure() {
      Err?
    }

    function PropagateFailure<U>(): Result<U>
      requires Err?
    {
      Err(error)
    }

    function Extract(): T
      requires Ok?
    {
      value
    }
  }
}

/** The mode and format names of quickfind.py (lines 6-22). */
module Names {
  const SearchDefs := "defs"
  const SearchFiles := "files"
  const SearchClasses := "classes"
  const SearchImports := "imports"
  const SearchUsages := "usages"

  /** The order in which the command line's mode flags are examined. */
  const SearchModes: seq<string> := [SearchDefs, SearchFiles, SearchClasses, SearchImports, SearchUsages]

  const FormatCoords := "coords"
  const FormatFiles := "file_list"
  const FormatImport := "clean_imports"
  const FormatQuickfix := "quickfix"
  const FormatRaw := "raw"

  /** The order in which the command line's format flags are examined;
      `clean_imports` is not among them. */
  const Formats: seq<string> := [FormatCoords, FormatFiles, FormatQuickfix, FormatRaw]
}
