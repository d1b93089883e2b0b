/**
 * comm (src/bin/comm.rs): the merge of two line streams into three columns —
 * lines only in the first input, lines only in the second, lines in both —
 * with per-column suppression, a configurable column delimiter, optional
 * lower-casing, and the refusal to read standard input twice.
 */
module Comm {
  import opened Wrappers
  import opened Text
  import opened Files

  // ------------------------------------------------------------------
  // Ordering of lines
  // ------------------------------------------------------------------

  datatype Ordering = Less | Equal | Greater

  /** `Ord for String`: lexicographic, character by character, a proper prefix
      coming first. Comparing UTF-8 bytes and comparing code points give the
      same order, so the model compares code points. */
  function Compare(a: string, b: string): (o: Ordering)
  {
    if a == [] && b == [] then Equal
    else if a == [] then Less
    else if b == [] then Greater
    else if a[0] < b[0] then Less
    else if a[0] > b[0] then Greater
    else Compare(a[1..], b[1..])
  }

  /** The comparison is a total order's: it says Equal exactly on equal lines and
      swapping the arguments swaps Less and Greater. */
  lemma {:induction false} CompareProperties(a: string, b: string)
    ensures Compare(a, b) == Equal <==> a == b
    ensures Compare(a, b) == Less <==> Compare(b, a) == Greater
  {
    if a != [] && b != [] && a[0] == b[0] {
      CompareProperties(a[1..], b[1..]);
      if a[1..] == b[1..] {
        assert a == [a[0]] + a[1..] && b == [b[0]] + b[1..];
      }
    }
  }

  lemma {:induction false} CompareTransitive(a: string, b: string, c: string)
    requires Compare(a, b) == Less && Compare(b, c) == Less
    ensures Compare(a, c) == Less
  {
    if a != [] && b != [] && c != [] && a[0] == b[0] && b[0] == c[0] {
      CompareTransitive(a[1..], b[1..], c[1..]);
    }
  }

  // ------------------------------------------------------------------
  // The merge
  // ------------------------------------------------------------------

  datatype Column = Only1 | Only2 | Both

  /** One step of the merge: a line and the column it goes to. */
  datatype Entry = Entry(column: Column, line: string)

  /** The merge loop of `run`, as a function of the two line sequences: the
      smaller head goes to its own column and only its side advances; equal
      heads go to the third column and both advance; once one side is
      exhausted, the rest of the other goes to its own column. */
  function Merge(xs: seq<string>, ys: seq<string>): (es: seq<Entry>)
    ensures |es| <= |xs| + |ys|
    decreases |xs| + |ys|
  {
    if xs == [] && ys == [] then []
    else if ys == [] then [Entry(Only1, xs[0])] + Merge(xs[1..], ys)
    else if xs == [] then [Entry(Only2, ys[0])] + Merge(xs, ys[1..])
    else
      match Compare(xs[0], ys[0])
      case Less => [Entry(Only1, xs[0])] + Merge(xs[1..], ys)
      case Greater => [Entry(Only2, ys[0])] + Merge(xs, ys[1..])
      case Equal => [Entry(Both, xs[0])] + Merge(xs[1..], ys[1..])
  }

  /** The lines a merge took from the first input (columns 1 and 3), in order. */
  function FromFirst(es: seq<Entry>): seq<string>
  {
    if es == [] then []
    else (if es[0].column != Only2 then [es[0].line] else []) + FromFirst(es[1..])
  }

  /** The lines a merge took from the second input (columns 2 and 3), in order. */
  function FromSecond(es: seq<Entry>): seq<string>
  {
    if es == [] then []
    else (if es[0].column != Only1 then [es[0].line] else []) + FromSecond(es[1..])
  }

  function CountColumn(es: seq<Entry>, c: Column): nat
  {
    if es == [] then 0 else (if es[0].column == c then 1 else 0) + CountColumn(es[1..], c)
  }

  lemma {:induction false} FromFirstLength(es: seq<Entry>)
    ensures |FromFirst(es)| == CountColumn(es, Only1) + CountColumn(es, Both)
    ensures |FromSecond(es)| == CountColumn(es, Only2) + CountColumn(es, Both)
  {
    if es != [] {
      FromFirstLength(es[1..]);
    }
  }

  /** Every line of each input is consumed exactly once and in order: the first
      input is what went to columns 1 and 3, the second what went to columns 2
      and 3. */
  lemma {:induction false} MergeConsumesBoth(xs: seq<string>, ys: seq<string>)
    ensures FromFirst(Merge(xs, ys)) == xs
    ensures FromSecond(Merge(xs, ys)) == ys
    decreases |xs| + |ys|
  {
    var es := Merge(xs, ys);
    if xs == [] && ys == [] {
    } else if ys == [] || (xs != [] && Compare(xs[0], ys[0]) == Less) {
      MergeConsumesBoth(xs[1..], ys);
      assert es[1..] == Merge(xs[1..], ys);
      assert xs == [xs[0]] + xs[1..];
    } else if xs == [] || Compare(xs[0], ys[0]) == Greater {
      MergeConsumesBoth(xs, ys[1..]);
      assert es[1..] == Merge(xs, ys[1..]);
      assert ys == [ys[0]] + ys[1..];
    } else {
      MergeConsumesBoth(xs[1..], ys[1..]);
      assert es[1..] == Merge(xs[1..], ys[1..]);
      CompareProperties(xs[0], ys[0]);
      assert xs == [xs[0]] + xs[1..] && ys == [ys[0]] + ys[1..];
    }
  }

  /** The column counts: |column 1| + |column 3| is the first input's length,
      |column 2| + |column 3| the second's. */
  lemma MergeCounts(xs: seq<string>, ys: seq<string>)
    ensures CountColumn(Merge(xs, ys), Only1) + CountColumn(Merge(xs, ys), Both) == |xs|
    ensures CountColumn(Merge(xs, ys), Only2) + CountColumn(Merge(xs, ys), Both) == |ys|
  {
    MergeConsumesBoth(xs, ys);
    FromFirstLength(Merge(xs, ys));
  }

  /** Lines in strictly increasing order, as comm expects its inputs. */
  predicate Sorted(xs: seq<string>)
  {
    forall i, j :: 0 <= i < j < |xs| ==> Compare(xs[i], xs[j]) == Less
  }

  /** A line below the head of a sorted sequence is below all of it, so it is
      not in it. */
  lemma BelowSorted(a: string, ys: seq<string>)
    requires Sorted(ys) && ys != [] && Compare(a, ys[0]) == Less
    ensures a !in ys
  {
    forall k | 0 <= k < |ys|
      ensures a != ys[k]
    {
      if k > 0 {
        CompareTransitive(a, ys[0], ys[k]);
      }
      CompareProperties(a, ys[k]);
    }
  }

  lemma HeadNotInTail(xs: seq<string>)
    requires Sorted(xs) && xs != []
    ensures xs[0] !in xs[1..]
  {
    forall k | 1 <= k < |xs|
      ensures xs[0] != xs[k]
    {
      CompareProperties(xs[0], xs[k]);
    }
  }

  /** On sorted inputs the merge does what comm is for: a line goes to column 3
      exactly when it is in both inputs, to column 1 exactly when it is only in
      the first, and to column 2 exactly when it is only in the second. */
  lemma {:induction false} MergeSortedColumns(xs: seq<string>, ys: seq<string>, s: string)
    requires Sorted(xs) && Sorted(ys)
    ensures Entry(Both, s) in Merge(xs, ys) <==> s in xs && s in ys
    ensures Entry(Only1, s) in Merge(xs, ys) <==> s in xs && s !in ys
    ensures Entry(Only2, s) in Merge(xs, ys) <==> s !in xs && s in ys
    decreases |xs| + |ys|
  {
    var es := Merge(xs, ys);
    if xs == [] && ys == [] {
    } else if ys == [] {
      MergeSortedColumns(xs[1..], ys, s);
      assert es == [Entry(Only1, xs[0])] + Merge(xs[1..], ys);
      assert xs == [xs[0]] + xs[1..];
    } else if xs == [] {
      MergeSortedColumns(xs, ys[1..], s);
      assert es == [Entry(Only2, ys[0])] + Merge(xs, ys[1..]);
      assert ys == [ys[0]] + ys[1..];
    } else {
      var x, y := xs[0], ys[0];
      assert xs == [x] + xs[1..] && ys == [y] + ys[1..];
      CompareProperties(x, y);
      match Compare(x, y)
      case Less =>
        MergeSortedColumns(xs[1..], ys, s);
        assert es == [Entry(Only1, x)] + Merge(xs[1..], ys);
        BelowSorted(x, ys);
        HeadNotInTail(xs);
      case Greater =>
        MergeSortedColumns(xs, ys[1..], s);
        assert es == [Entry(Only2, y)] + Merge(xs, ys[1..]);
        CompareProperties(y, x);
        BelowSorted(y, xs);
        HeadNotInTail(ys);
      case Equal =>
        MergeSortedColumns(xs[1..], ys[1..], s);
        assert es == [Entry(Both, x)] + Merge(xs[1..], ys[1..]);
        HeadNotInTail(xs);
        HeadNotInTail(ys);
    }
  }

  // ------------------------------------------------------------------
  // Printing
  // ------------------------------------------------------------------

  /** The command line's options: -i, -1, -2, -3 and -d (default a tab). */
  datatype Options = Options(ignoreCase: bool, suppress1: bool, suppress2: bool, suppress3: bool,
                             delimiter: string)

  predicate Suppressed(opts: Options, c: Column)
  {
    match c
    case Only1 => opts.suppress1
    case Only2 => opts.suppress2
    case Both => opts.suppress3
  }

  /** The printed form of an entry: no delimiter in column 1, one in column 2,
      two in column 3, whatever other columns are suppressed. */
  function Format(e: Entry, delimiter: string): (r: string)
    ensures |r| > 0 && r[|r| - 1] == NL
  {
    match e.column
    case Only1 => e.line + "\n"
    case Only2 => delimiter + e.line + "\n"
    case Both => delimiter + delimiter + e.line + "\n"
  }

  /** What one entry prints: nothing when its column is suppressed. */
  function Emit(e: Entry, opts: Options): string
  {
    if Suppressed(opts, e.column) then "" else Format(e, opts.delimiter)
  }

  /** What the merge loop prints for a sequence of entries. */
  function Printed(es: seq<Entry>, opts: Options): string
  {
    if es == [] then "" else Emit(es[0], opts) + Printed(es[1..], opts)
  }

  /** The entries of the columns that are not suppressed, in merge order. */
  function Shown(es: seq<Entry>, opts: Options): seq<Entry>
  {
    if es == [] then []
    else (if Suppressed(opts, es[0].column) then [] else [es[0]]) + Shown(es[1..], opts)
  }

  /** An entry is shown exactly when the merge produced it and its column is
      not suppressed. */
  lemma {:induction false} ShownMeaning(es: seq<Entry>, opts: Options, e: Entry)
    ensures e in Shown(es, opts) <==> e in es && !Suppressed(opts, e.column)
  {
    if es != [] {
      ShownMeaning(es[1..], opts, e);
      assert e in es <==> e == es[0] || e in es[1..];
    }
  }

  function FormatAll(es: seq<Entry>, delimiter: string): seq<string>
  {
    seq(|es|, k requires 0 <= k < |es| => Format(es[k], delimiter))
  }

  lemma FormatAllCons(e: Entry, rest: seq<Entry>, delimiter: string)
    ensures Flatten(FormatAll([e] + rest, delimiter)) == Format(e, delimiter) + Flatten(FormatAll(rest, delimiter))
  {
    var f := FormatAll([e] + rest, delimiter);
    assert f[1..] == FormatAll(rest, delimiter);
  }

  /** Suppressing a column hides its lines and changes nothing else: the output
      is the formatted entries of the other columns, one line each, in merge
      order (and the merge itself does not depend on the flags at all). */
  lemma {:induction false} PrintedIsShown(es: seq<Entry>, opts: Options)
    ensures Printed(es, opts) == Flatten(FormatAll(Shown(es, opts), opts.delimiter))
  {
    if es != [] {
      PrintedIsShown(es[1..], opts);
      var rest := Shown(es[1..], opts);
      assert Printed(es, opts) == Emit(es[0], opts) + Printed(es[1..], opts);
      if !Suppressed(opts, es[0].column) {
        assert Shown(es, opts) == [es[0]] + rest;
        FormatAllCons(es[0], rest, opts.delimiter);
      } else {
        assert Shown(es, opts) == [] + rest;
        assert [] + rest == rest;
      }
    }
  }

  // ------------------------------------------------------------------
  // The loop and the command
  // ------------------------------------------------------------------

  /** The optional lower-casing closure applied to every line read. */
  function Cased(lines: seq<string>, ignoreCase: bool, lower: string -> string): (r: seq<string>)
    ensures |r| == |lines|
    ensures forall k :: 0 <= k < |r| ==> r[k] == if ignoreCase then lower(lines[k]) else lines[k]
  {
    if ignoreCase then seq(|lines|, k requires 0 <= k < |lines| => lower(lines[k])) else lines
  }

  /** The merge's next entry when the first cursor's line goes to column 1. */
  lemma StepFirst(lines1: seq<string>, lines2: seq<string>, i: nat, j: nat, opts: Options)
    requires i < |lines1| && j <= |lines2|
    requires j == |lines2| || Compare(lines1[i], lines2[j]) == Less
    ensures Printed(Merge(lines1[i..], lines2[j..]), opts)
            == Emit(Entry(Only1, lines1[i]), opts) + Printed(Merge(lines1[i + 1..], lines2[j..]), opts)
  {
    var es := Merge(lines1[i..], lines2[j..]);
    assert lines1[i..][1..] == lines1[i + 1..];
    assert es[1..] == Merge(lines1[i + 1..], lines2[j..]);
  }

  /** The merge's next entry when the second cursor's line goes to column 2. */
  lemma StepSecond(lines1: seq<string>, lines2: seq<string>, i: nat, j: nat, opts: Options)
    requires i <= |lines1| && j < |lines2|
    requires i == |lines1| || Compare(lines1[i], lines2[j]) == Greater
    ensures Printed(Merge(lines1[i..], lines2[j..]), opts)
            == Emit(Entry(Only2, lines2[j]), opts) + Printed(Merge(lines1[i..], lines2[j + 1..]), opts)
  {
    var es := Merge(lines1[i..], lines2[j..]);
    assert lines2[j..][1..] == lines2[j + 1..];
    assert es[1..] == Merge(lines1[i..], lines2[j + 1..]);
  }

  /** The merge's next entry when both cursors' lines are equal: column 3. */
  lemma StepBoth(lines1: seq<string>, lines2: seq<string>, i: nat, j: nat, opts: Options)
    requires i < |lines1| && j < |lines2|
    requires Compare(lines1[i], lines2[j]) == Equal
    ensures Printed(Merge(lines1[i..], lines2[j..]), opts)
            == Emit(Entry(Both, lines1[i]), opts) + Printed(Merge(lines1[i + 1..], lines2[j + 1..]), opts)
  {
    var es := Merge(lines1[i..], lines2[j..]);
    assert lines1[i..][1..] == lines1[i + 1..];
    assert lines2[j..][1..] == lines2[j + 1..];
    assert es[1..] == Merge(lines1[i + 1..], lines2[j + 1..]);
  }

  lemma Regroup(printed: string, emitted: string, rest: string)
    ensures printed + (emitted + rest) == (printed + emitted) + rest
  {
  }

  /** One pass of the loop body: the `match` on the two current lines, which
      prints at most one line and advances one cursor or both. */
  method Step(lines1: seq<string>, lines2: seq<string>, i: nat, j: nat, opts: Options)
    returns (printed: string, i': nat, j': nat)
    requires i <= |lines1| && j <= |lines2| && (i < |lines1| || j < |lines2|)
    ensures i <= i' <= |lines1| && j <= j' <= |lines2| && i + j < i' + j'
    ensures Printed(Merge(lines1[i..], lines2[j..]), opts) == printed + Printed(Merge(lines1[i'..], lines2[j'..]), opts)
  {
    printed := "";
    if i < |lines1| && j < |lines2| {
      var a, b := lines1[i], lines2[j];
      match Compare(a, b) {
        case Less =>
          StepFirst(lines1, lines2, i, j, opts);
          if !opts.suppress1 {
            printed := a + "\n";
          }
          i', j' := i + 1, j;
        case Greater =>
          StepSecond(lines1, lines2, i, j, opts);
          if !opts.suppress2 {
            printed := opts.delimiter + b + "\n";
          }
          i', j' := i, j + 1;
        case Equal =>
          StepBoth(lines1, lines2, i, j, opts);
          if !opts.suppress3 {
            printed := opts.delimiter + opts.delimiter + a + "\n";
          }
          i', j' := i + 1, j + 1;
      }
    } else if i < |lines1| {
      StepFirst(lines1, lines2, i, j, opts);
      if !opts.suppress1 {
        printed := lines1[i] + "\n";
      }
      i', j' := i + 1, j;
    } else {
      StepSecond(lines1, lines2, i, j, opts);
      if !opts.suppress2 {
        printed := opts.delimiter + lines2[j] + "\n";
      }
      i', j' := i, j + 1;
    }
  }

  /** The `while` loop of `run`: two cursors, one per input, advanced by the
      comparison of the lines under them, until both inputs are exhausted; it
      prints what the merge prescribes. */
  method MergeLoop(lines1: seq<string>, lines2: seq<string>, opts: Options) returns (out: string)
    ensures out == Printed(Merge(lines1, lines2), opts)
  {
    var i, j := 0, 0;
    out := "";
    while i < |lines1| || j < |lines2|
      invariant 0 <= i <= |lines1| && 0 <= j <= |lines2|
      invariant out + Printed(Merge(lines1[i..], lines2[j..]), opts) == Printed(Merge(lines1, lines2), opts)
      decreases |lines1| - i + |lines2| - j
    {
      var printed, i', j' := Step(lines1, lines2, i, j, opts);
      Regroup(out, printed, Printed(Merge(lines1[i'..], lines2[j'..]), opts));
      out, i, j := out + printed, i', j';
    }
    assert lines1[i..] == [] && lines2[j..] == [];
  }

  const BOTH_STDIN := "both input files cannot be STDIN"

  /** The outcome of `run`: a refusal of two standard inputs comes before either
      file is opened; then the first file is opened, then the second, and the
      first that cannot be opened ends the run with nothing printed. */
  function Outcome(in1: Input, in2: Input, opts: Options, lower: string -> string): (r: Result<string, string>)
  {
    if in1.name == "-" && in2.name == "-" then Err(BOTH_STDIN)
    else if in1.Unopenable? then Err(OpenError(in1.name, in1.ioError))
    else if in2.Unopenable? then Err(OpenError(in2.name, in2.ioError))
    else Ok(Printed(Merge(Cased(Lines(in1.content), opts.ignoreCase, lower),
                          Cased(Lines(in2.content), opts.ignoreCase, lower)), opts))
  }

  /** `run`, with `main`'s reporting: standard output holds the merge's lines;
      an error goes to standard error on a line of its own and the exit status
      is 1. */
  method Run(in1: Input, in2: Input, opts: Options, lower: string -> string)
    returns (stdout: string, stderr: string, status: int)
    ensures Outcome(in1, in2, opts, lower).Ok? ==> stdout == Outcome(in1, in2, opts, lower).value && stderr == "" && status == 0
    ensures Outcome(in1, in2, opts, lower).Err? ==> stdout == "" && stderr == Outcome(in1, in2, opts, lower).error + "\n" && status == 1
  {
    stdout, stderr, status := "", "", 0;
    if in1.name == "-" && in2.name == "-" {
      stderr, status := BOTH_STDIN + "\n", 1;
      return;
    }
    if in1.Unopenable? {
      stderr, status := OpenError(in1.name, in1.ioError) + "\n", 1;
      return;
    }
    if in2.Unopenable? {
      stderr, status := OpenError(in2.name, in2.ioError) + "\n", 1;
      return;
    }
    var lines1 := Cased(Lines(in1.content), opts.ignoreCase, lower);
    var lines2 := Cased(Lines(in2.content), opts.ignoreCase, lower);
    stdout := MergeLoop(lines1, lines2, opts);
  }
}
