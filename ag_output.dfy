/** What `_call_ag` makes of the captured output of an `ag` run
    (quickfind.py:47-67); the run itself is a parameter. */
module AgOutput {
  import opened PyStr
  import opened Outcome

  /** One output line as kept: stripped, or nothing when it is blank. */
  function CleanLine(line: string): (r: seq<string>)
    ensures |r| <= 1
    ensures |r| == 1 ==> r[0] != "" && Trimmed(r[0])
  {
    StripIsTrimmed(line);
    if Strip(line) == "" then [] else [Strip(line)]
  }

  /** The output lines kept: each stripped, the blank ones dropped, in
      their original order. */
  function CleanLines(lines: seq<string>): (r: seq<string>)
    ensures |r| <= |lines|
  {
    if |lines| == 0 then []
    else CleanLine(lines[0]) + CleanLines(lines[1..])
  }

  /** Every kept line is non-empty and has no whitespace at either end. */
  lemma {:induction false} CleanLinesClean(lines: seq<string>)
    ensures forall k :: 0 <= k < |CleanLines(lines)| ==> CleanLines(lines)[k] != "" && Trimmed(CleanLines(lines)[k])
  {
    if |lines| > 0 {
      CleanLinesClean(lines[1..]);
      var head, tail := CleanLine(lines[0]), CleanLines(lines[1..]);
      forall k | 0 <= k < |head + tail| ensures (head + tail)[k] != "" && Trimmed((head + tail)[k]) {
        if k >= |head| {
          assert (head + tail)[k] == tail[k - |head|];
        }
      }
    }
  }

  /** `_call_ag` given the exit status of `ag` and what it printed on
      stdout and stderr together. */
  function CallAg(status: int, output: string): (r: Result<seq<string>>)
    ensures r.Err? <==> status != 0 && output != ""
    ensures r.Err? ==> r.error == AgFailed(status, output)
    ensures status != 0 && output == "" ==> r == Ok([])
    ensures status == 0 ==> r == Ok(CleanLines(Split(output, '\n')))
  {
    if status != 0 && output != "" then Err(AgFailed(status, output))
    else
      var captured := if status != 0 then "" else output;
      assert Split("", '\n') == [""];
      assert CleanLines([""]) == [] by { assert [""][1..] == []; }
      Ok(CleanLines(Split(captured, '\n')))
  }

  /** Cleaning works line by line, so it keeps the lines' order: cleaning a
      concatenation is concatenating the cleaned parts. */
  lemma {:induction false} CleanLinesAppend(a: seq<string>, b: seq<string>)
    ensures CleanLines(a + b) == CleanLines(a) + CleanLines(b)
  {
    if |a| > 0 {
      CleanLinesAppend(a[1..], b);
      assert (a + b)[0] == a[0] && (a + b)[1..] == a[1..] + b;
      var x, y, z := CleanLine(a[0]), CleanLines(a[1..]), CleanLines(b);
      assert x + (y + z) == (x + y) + z;
    } else {
      assert a + b == b;
    }
  }

  /** One line is dropped when it is all whitespace and kept stripped
      otherwise. */
  lemma CleanLinesOne(line: string)
    ensures CleanLines([line]) == if AllSpace(line) then [] else [Strip(line)]
  {
    StripEmpty(line);
    assert [line][1..] == [];
  }

  /** A string is a kept line exactly when it is the stripped form of some
      line that is not blank. */
  lemma {:induction false} CleanLinesMembers(lines: seq<string>, x: string)
    ensures x in CleanLines(lines) <==> exists k :: 0 <= k < |lines| && !AllSpace(lines[k]) && Strip(lines[k]) == x
  {
    if |lines| > 0 {
      CleanLinesMembers(lines[1..], x);
      StripEmpty(lines[0]);
      if x in CleanLines(lines[1..]) {
        var k :| 0 <= k < |lines[1..]| && !AllSpace(lines[1..][k]) && Strip(lines[1..][k]) == x;
        assert lines[k + 1] == lines[1..][k];
      }
      if exists k :: 0 <= k < |lines| && !AllSpace(lines[k]) && Strip(lines[k]) == x {
        var k :| 0 <= k < |lines| && !AllSpace(lines[k]) && Strip(lines[k]) == x;
        if k > 0 {
          assert lines[1..][k - 1] == lines[k];
        }
      }
    }
  }

  /** Cleaning is idempotent: lines already stripped and non-blank are
      kept as they are. */
  lemma {:induction false} CleanLinesIdempotent(lines: seq<string>)
    ensures CleanLines(CleanLines(lines)) == CleanLines(lines)
  {
    if |lines| > 0 {
      CleanLinesIdempotent(lines[1..]);
      var head := if Strip(lines[0]) == "" then [] else [Strip(lines[0])];
      CleanLinesAppend(head, CleanLines(lines[1..]));
      if Strip(lines[0]) != "" {
        StripIdempotent(lines[0]);
        assert [Strip(lines[0])][1..] == [];
      }
    }
  }

  /** No line `_call_ag` returns holds a newline. */
  lemma CallAgLinesHaveNoNewline(status: int, output: string)
    requires CallAg(status, output).Ok?
    ensures forall k :: 0 <= k < |CallAg(status, output).value| ==> '\n' !in CallAg(status, output).value[k]
  {
    var captured := if status != 0 then "" else output;
    var lines := Split(captured, '\n');
    SplitJoin(captured, '\n');
    forall x | x in CleanLines(lines) ensures '\n' !in x {
      CleanLinesMembers(lines, x);
      var k :| 0 <= k < |lines| && !AllSpace(lines[k]) && Strip(lines[k]) == x;
      StripIsTrimmedInfix(lines[k]);
    }
  }
}
