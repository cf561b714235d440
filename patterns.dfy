/** The search patterns handed to `ag` for every mode but `files`
    (quickfind.py:98-110). What the patterns match is up to `ag`'s regular
    expression engine and is not modelled: only the strings are. */
module Patterns {
  import opened PyStr
  import opened Outcome
  import opened Names

  /** `r'\Q%s\E' % term`: the term between PCRE's literal-quoting marks. */
  function Quote(term: string): string
  {
    @"\Q" + term + @"\E"
  }

  /** The template for each mode; any other mode falls back to `%s`. */
  function Template(mode: string): string
  {
    if mode == SearchDefs then @"def %s[\[\(: ]"
    else if mode == SearchClasses then @"(?:class|trait|object|type)%s(?:[\[\(\{ ]|$)"
    else if mode == SearchImports then @"import .*[\.\{, ]%s"
    else "%s"
  }

  /** Python's `template % arg` for a template whose one conversion is the
      first `%s`. */
  function Interpolate(template: string, arg: string): string
  {
    if |template| < 2 then template
    else if template[..2] == "%s" then arg + template[2..]
    else [template[0]] + Interpolate(template[1..], arg)
  }

  /** Interpolating puts the argument where the `%s` stood, the only
      conversion in the template. */
  lemma {:induction false} InterpolateSplit(head: string, tail: string, arg: string)
    requires '%' !in head && '%' !in tail
    ensures Interpolate(head + "%s" + tail, arg) == head + arg + tail
  {
    if |head| > 0 {
      InterpolateSplit(head[1..], tail, arg);
      assert (head + "%s" + tail)[1..] == head[1..] + "%s" + tail;
      assert head == [head[0]] + head[1..];
    } else {
      assert head + "%s" + tail == "%s" + tail;
    }
  }

  /** `search` as written: the `classes` entry of the template dictionary
      is a one-element tuple, and `%` of a tuple by a string raises a
      TypeError. */
  function CompileAsWritten(mode: string, term: string): (r: Result<string>)
    ensures mode != SearchClasses ==> r.Ok?
  {
    if mode == SearchClasses then Err(TypeError)
    else Ok(Interpolate(Template(mode), Quote(term)))
  }

  /** Every classes search fails before `ag` is called. */
  lemma ClassesModeRaises(term: string)
    ensures CompileAsWritten(SearchClasses, term) == Err(TypeError)
  {
  }

  /** `search` as evidently intended: every mode's template is applied to
      the quoted term. */
  function Compile(mode: string, term: string): string
  {
    Interpolate(Template(mode), Quote(term))
  }

  /** Outside `classes` the written code and the intended one agree. */
  lemma CompileAgrees(mode: string, term: string)
    requires mode != SearchClasses
    ensures CompileAsWritten(mode, term) == Ok(Compile(mode, term))
  {
  }

  lemma QuoteBetween(head: string, term: string, tail: string)
    ensures head + Quote(term) + tail == (head + @"\Q") + term + (@"\E" + tail)
  {
  }

  /** Defs: `def ` right before the term, then one of `[`, `(`, `:` or a
      space. */
  lemma CompileDefs(term: string)
    ensures Compile(SearchDefs, term) == @"def \Q" + term + @"\E[\[\(: ]"
  {
    DefsTemplateParts();
    InterpolateSplit("def ", @"[\[\(: ]", Quote(term));
    QuoteBetween("def ", term, @"[\[\(: ]");
    DefsLiteralParts();
  }

  /** The defs template around its `%s`, apart for the same reason. */
  lemma DefsTemplateParts()
    ensures Template(SearchDefs) == "def " + "%s" + @"[\[\(: ]"
    ensures '%' !in "def " && '%' !in @"[\[\(: ]"
  {
  }

  lemma DefsLiteralParts()
    ensures "def " + @"\Q" == @"def \Q"
    ensures @"\E" + @"[\[\(: ]" == @"\E[\[\(: ]"
  {
  }

  /** Classes: one of the declaration keywords with no space before the
      term, then one of `[`, `(`, `{`, a space or the end of the line. */
  lemma CompileClasses(term: string)
    ensures Compile(SearchClasses, term) == @"(?:class|trait|object|type)\Q" + term + @"\E(?:[\[\(\{ ]|$)"
  {
    var head, tail := "(?:class|trait|object|type)", @"(?:[\[\(\{ ]|$)";
    ClassesTemplateParts();
    ClassesNoPercent();
    InterpolateSplit(head, tail, Quote(term));
    QuoteBetween(head, term, tail);
    ClassesLiteralParts();
  }

  /** The classes template around its `%s`. These facts about long string
      literals stay apart from `CompileClasses`, whose proof they would
      otherwise overload. */
  lemma ClassesTemplateParts()
    ensures Template(SearchClasses) == "(?:class|trait|object|type)" + "%s" + @"(?:[\[\(\{ ]|$)"
  {
  }

  lemma ClassesNoPercent()
    ensures '%' !in "(?:class|trait|object|type)"
    ensures '%' !in @"(?:[\[\(\{ ]|$)"
  {
  }

  lemma ClassesLiteralParts()
    ensures "(?:class|trait|object|type)" + @"\Q" == @"(?:class|trait|object|type)\Q"
    ensures @"\E" + @"(?:[\[\(\{ ]|$)" == @"\E(?:[\[\(\{ ]|$)"
  {
  }

  /** Imports: `import `, anything, one of `.`, `{`, `,` or a space, then
      the term, with nothing required after it. */
  lemma CompileImports(term: string)
    ensures Compile(SearchImports, term) == @"import .*[\.\{, ]\Q" + term + @"\E"
  {
    var head := @"import .*[\.\{, ]";
    ImportsTemplateParts();
    InterpolateSplit(head, "", Quote(term));
    QuoteBetween(head, term, "");
    ImportsLiteralParts();
  }

  /** The imports template around its `%s`, apart for the same reason. */
  lemma ImportsTemplateParts()
    ensures Template(SearchImports) == @"import .*[\.\{, ]" + "%s" + ""
    ensures '%' !in @"import .*[\.\{, ]" && '%' !in ""
  {
  }

  lemma ImportsLiteralParts()
    ensures @"import .*[\.\{, ]" + @"\Q" == @"import .*[\.\{, ]\Q"
    ensures @"\E" + "" == @"\E"
  {
  }

  /** Usages, and any mode without a template of its own, search for the
      quoted term alone. */
  lemma CompileUsages(mode: string, term: string)
    requires mode != SearchDefs && mode != SearchClasses && mode != SearchImports
    ensures Compile(mode, term) == @"\Q" + term + @"\E"
  {
    assert Template(mode) == "" + "%s" + "";
    InterpolateSplit("", "", Quote(term));
  }

  /** The term can be read back from the pattern: for a fixed mode, two
      terms give the same pattern only if they are equal. */
  lemma CompileInjective(mode: string, t1: string, t2: string)
    requires Compile(mode, t1) == Compile(mode, t2)
    ensures t1 == t2
  {
    var head := if mode == SearchDefs then @"def \Q"
                else if mode == SearchClasses then @"(?:class|trait|object|type)\Q"
                else if mode == SearchImports then @"import .*[\.\{, ]\Q"
                else @"\Q";
    if mode == SearchDefs {
      CompileDefs(t1); CompileDefs(t2);
    } else if mode == SearchClasses {
      CompileClasses(t1); CompileClasses(t2);
    } else if mode == SearchImports {
      CompileImports(t1); CompileImports(t2);
    } else {
      CompileUsages(mode, t1); CompileUsages(mode, t2);
    }
    var p1 := Compile(mode, t1);
    assert |t1| == |t2|;
    assert t1 == p1[|head|..|head| + |t1|];
  }
}
