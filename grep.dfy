/**
 * grep (src/bin/grep.rs): the lines of each file that match a pattern (or,
 * with -v, that do not), or only their number (-c), prefixed with the file
 * name when more than one file is searched. The regular expression engine is
 * not modelled: matching is a predicate on lines given to the model.
 */
module Grep {
  import opened Wrappers
  import opened Text
  import opened Files

  // ------------------------------------------------------------------
  // find_lines
  // ------------------------------------------------------------------

  /** The lines `find_lines` keeps, in input order and with their terminators:
      those for which "matches" and "inverted" differ. */
  function Kept(lines: seq<string>, isMatch: string -> bool, invert: bool): (r: seq<string>)
    ensures |r| <= |lines|
  {
    if lines == [] then []
    else (if isMatch(lines[0]) != invert then [lines[0]] else []) + Kept(lines[1..], isMatch, invert)
  }

  lemma {:induction false} KeptAppend(lines: seq<string>, line: string, isMatch: string -> bool, invert: bool)
    ensures Kept(lines + [line], isMatch, invert)
            == Kept(lines, isMatch, invert) + (if isMatch(line) != invert then [line] else [])
  {
    var tail := if isMatch(line) != invert then [line] else [];
    if lines != [] {
      var head := if isMatch(lines[0]) != invert then [lines[0]] else [];
      assert (lines + [line])[0] == lines[0];
      assert (lines + [line])[1..] == lines[1..] + [line];
      KeptAppend(lines[1..], line, isMatch, invert);
      assert Kept(lines + [line], isMatch, invert) == head + (Kept(lines[1..], isMatch, invert) + tail);
      assert head + (Kept(lines[1..], isMatch, invert) + tail) == (head + Kept(lines[1..], isMatch, invert)) + tail;
    } else {
      assert Kept([line], isMatch, invert) == tail + Kept([], isMatch, invert);
    }
  }

  /** `find_lines`: read line by line into a buffer; a kept line is moved out
      of the buffer into the result, and the buffer is cleared either way. */
  method FindLines(content: string, isMatch: string -> bool, invert: bool) returns (found: seq<string>)
    ensures found == Kept(Chunks(content, NL), isMatch, invert)
  {
    var chunks := Chunks(content, NL);
    found := [];
    var i := 0;
    while i < |chunks|
      invariant 0 <= i <= |chunks|
      invariant found == Kept(chunks[..i], isMatch, invert)
    {
      var line := chunks[i];
      assert chunks[..i + 1] == chunks[..i] + [line];
      KeptAppend(chunks[..i], line, isMatch, invert);
      if isMatch(line) != invert {
        found := found + [line];
      }
      i := i + 1;
    }
    assert chunks[..i] == chunks;
  }

  /** A line is kept exactly when it is one of the input's lines and its match
      differs from the inversion flag. */
  lemma {:induction false} KeptMeaning(lines: seq<string>, isMatch: string -> bool, invert: bool, x: string)
    ensures x in Kept(lines, isMatch, invert) <==> x in lines && isMatch(x) != invert
  {
    if lines != [] {
      KeptMeaning(lines[1..], isMatch, invert, x);
      assert x in lines <==> x == lines[0] || x in lines[1..];
    }
  }

  /** Searching with and without -v splits the lines between the two results:
      together they hold every line exactly as often as the input does. */
  lemma {:induction false} InvertPartitions(lines: seq<string>, isMatch: string -> bool)
    ensures multiset(Kept(lines, isMatch, false)) + multiset(Kept(lines, isMatch, true)) == multiset(lines)
    ensures |Kept(lines, isMatch, false)| + |Kept(lines, isMatch, true)| == |lines|
  {
    if lines != [] {
      InvertPartitions(lines[1..], isMatch);
      assert lines == [lines[0]] + lines[1..];
    }
  }

  /** When every line is kept, the kept lines put together give back the
      whole text: nothing is reordered and no terminator is lost. */
  lemma {:induction false} KeptAll(lines: seq<string>, isMatch: string -> bool, invert: bool)
    requires forall k :: 0 <= k < |lines| ==> isMatch(lines[k]) != invert
    ensures Kept(lines, isMatch, invert) == lines
  {
    if lines != [] {
      KeptAll(lines[1..], isMatch, invert);
      assert [lines[0]] + lines[1..] == lines;
    }
  }

  /** Kept lines come out in input order: the result is the input with some
      lines left out. */
  predicate Subsequence(xs: seq<string>, ys: seq<string>)
    decreases |ys|
  {
    if xs == [] then true
    else if ys == [] then false
    else if xs[0] == ys[0] then Subsequence(xs[1..], ys[1..])
    else Subsequence(xs, ys[1..])
  }

  lemma {:induction false} KeptInOrder(lines: seq<string>, isMatch: string -> bool, invert: bool)
    ensures Subsequence(Kept(lines, isMatch, invert), lines)
  {
    if lines != [] {
      KeptInOrder(lines[1..], isMatch, invert);
      var rest := Kept(lines[1..], isMatch, invert);
      if isMatch(lines[0]) != invert {
        assert ([lines[0]] + rest)[1..] == rest;
      } else {
        assert [] + rest == rest;
        SubsequenceSkip(rest, lines);
      }
    }
  }

  /** Putting one more element in front of the longer sequence keeps it a
      subsequence. */
  lemma {:induction false} SubsequenceSkip(xs: seq<string>, ys: seq<string>)
    requires ys != [] && Subsequence(xs, ys[1..])
    ensures Subsequence(xs, ys)
    decreases |ys|, |xs|, 0
  {
    if xs != [] && xs[0] == ys[0] {
      SubsequenceTail(xs, ys[1..]);
    }
  }

  lemma {:induction false} SubsequenceTail(xs: seq<string>, ys: seq<string>)
    requires xs != [] && Subsequence(xs, ys)
    ensures Subsequence(xs[1..], ys)
    decreases |ys|, |xs|, 1
  {
    if xs[0] == ys[0] {
      SubsequenceSkip(xs[1..], ys);
    } else {
      SubsequenceTail(xs, ys[1..]);
      SubsequenceSkip(xs[1..], ys);
    }
  }

  // ------------------------------------------------------------------
  // find_files
  // ------------------------------------------------------------------

  /** What `fs::metadata` says about a path, with, for a directory, the files a
      walk of it finds. */
  datatype PathInfo = RegularFile | Directory(walk: seq<string>) | OtherKind | MetadataError(ioError: string)

  /** The entries one path contributes: "-" as it is; a file by its name; a
      directory by the files under it with -r and as an error otherwise; a
      path whose metadata cannot be read as an error; anything else (neither
      file nor directory) not at all. */
  function Resolve(path: string, info: string -> PathInfo, recursive: bool): (r: seq<Result<string, string>>)
  {
    if path == "-" then [Ok(path)]
    else
      match info(path)
      case RegularFile => [Ok(path)]
      case Directory(walk) =>
        if recursive then seq(|walk|, k requires 0 <= k < |walk| => Ok(walk[k]))
        else [Err(path + " is a directory")]
      case OtherKind => []
      case MetadataError(e) => [Err(path + ": " + e)]
  }

  function ResolveAll(paths: seq<string>, info: string -> PathInfo, recursive: bool): seq<Result<string, string>>
  {
    if paths == [] then [] else Resolve(paths[0], info, recursive) + ResolveAll(paths[1..], info, recursive)
  }

  lemma ResolveAllAppend(paths: seq<string>, path: string, info: string -> PathInfo, recursive: bool)
    ensures ResolveAll(paths + [path], info, recursive) == ResolveAll(paths, info, recursive) + Resolve(path, info, recursive)
  {
    if paths != [] {
      assert (paths + [path])[1..] == paths[1..] + [path];
      ResolveAllAppend(paths[1..], path, info, recursive);
    } else {
      assert ResolveAll([path], info, recursive) == Resolve(path, info, recursive) + ResolveAll([], info, recursive);
    }
  }

  /** One turn of `find_files`: what one path pushes onto the result. */
  method ResolvePath(path: string, info: string -> PathInfo, recursive: bool)
    returns (found: seq<Result<string, string>>)
    ensures found == Resolve(path, info, recursive)
  {
    found := [];
    if path == "-" {
      found := found + [Ok(path)];
    } else {
      match info(path) {
        case RegularFile =>
          found := found + [Ok(path)];
        case Directory(walk) =>
          if recursive {
            ghost var all := seq(|walk|, j requires 0 <= j < |walk| => Ok(walk[j]));
            var k := 0;
            while k < |walk|
              invariant 0 <= k <= |walk|
              invariant found == all[..k]
            {
              assert all[..k + 1] == all[..k] + [Ok(walk[k])];
              found := found + [Ok(walk[k])];
              k := k + 1;
            }
            assert all[..k] == all;
          } else {
            found := found + [Err(path + " is a directory")];
          }
        case OtherKind =>
        case MetadataError(e) =>
          found := found + [Err(path + ": " + e)];
      }
    }
  }

  /** `find_files`: one pass over the paths, pushing what each contributes. */
  method FindFiles(paths: seq<string>, info: string -> PathInfo, recursive: bool)
    returns (files: seq<Result<string, string>>)
    ensures files == ResolveAll(paths, info, recursive)
  {
    files := [];
    var i := 0;
    while i < |paths|
      invariant 0 <= i <= |paths|
      invariant files == ResolveAll(paths[..i], info, recursive)
    {
      assert paths[..i + 1] == paths[..i] + [paths[i]];
      ResolveAllAppend(paths[..i], paths[i], info, recursive);
      var found := ResolvePath(paths[i], info, recursive);
      files := files + found;
      i := i + 1;
    }
    assert paths[..i] == paths;
  }

  /** Without -r, every path that is "-", a file, a directory or unreadable
      gives exactly one entry, a directory the error naming it, and a path of
      any other kind none. */
  lemma NonRecursiveEntries(path: string, info: string -> PathInfo)
    ensures path == "-" ==> Resolve(path, info, false) == [Ok(path)]
    ensures path != "-" && info(path).RegularFile? ==> Resolve(path, info, false) == [Ok(path)]
    ensures path != "-" && info(path).Directory? ==> Resolve(path, info, false) == [Err(path + " is a directory")]
    ensures path != "-" && info(path).MetadataError? ==>
      Resolve(path, info, false) == [Err(path + ": " + info(path).ioError)]
    ensures path != "-" && info(path).OtherKind? ==> Resolve(path, info, false) == []
  {
  }

  // ------------------------------------------------------------------
  // run
  // ------------------------------------------------------------------

  /** The print closure: "name:" before the text exactly when more than one
      entry was resolved. */
  function Emit(withName: bool, name: string, text: string): (r: string)
    ensures withName ==> r == name + ":" + text
    ensures !withName ==> r == text
  {
    if withName then name + ":" + text else text
  }

  /** What one searched file prints: its kept lines, or their number and a
      newline with -c. */
  function Report(withName: bool, name: string, found: seq<string>, count: bool): string
  {
    if count then Emit(withName, name, NatToString(|found|) + "\n")
    else Flatten(seq(|found|, k requires 0 <= k < |found| => Emit(withName, name, found[k])))
  }

  /** One resolved entry, opened or not: an entry for a file name, with what
      `open_file` makes of it, or an error from `find_files`. */
  datatype Entry = Searched(input: Input) | Unresolved(error: string)

  function Stdout(e: Entry, withName: bool, isMatch: string -> bool, invert: bool, count: bool): string
  {
    match e
    case Searched(Opened(name, content)) => Report(withName, name, Kept(Chunks(content, NL), isMatch, invert), count)
    case Searched(Unopenable(_, _)) => ""
    case Unresolved(_) => ""
  }

  function Stderr(e: Entry): string
  {
    match e
    case Searched(Unopenable(name, ioError)) => OpenError(name, ioError) + "\n"
    case Searched(Opened(_, _)) => ""
    case Unresolved(error) => error + "\n"
  }

  function AllStdout(entries: seq<Entry>, isMatch: string -> bool, invert: bool, count: bool, i: nat): seq<string>
    requires i <= |entries|
  {
    seq(i, k requires 0 <= k < i => Stdout(entries[k], |entries| > 1, isMatch, invert, count))
  }

  function AllStderr(entries: seq<Entry>, i: nat): seq<string>
    requires i <= |entries|
  {
    seq(i, k requires 0 <= k < i => Stderr(entries[k]))
  }

  /** Prints the kept lines of one file, each through the print closure. */
  method PrintFound(withName: bool, name: string, found: seq<string>) returns (out: string)
    ensures out == Report(withName, name, found, false)
  {
    ghost var all := seq(|found|, k requires 0 <= k < |found| => Emit(withName, name, found[k]));
    out := "";
    var k := 0;
    while k < |found|
      invariant 0 <= k <= |found|
      invariant out == Flatten(all[..k])
    {
      FlattenPrefixStep(all, k);
      if withName {
        out := out + (name + ":" + found[k]);
      } else {
        out := out + found[k];
      }
      k := k + 1;
    }
    assert all[..k] == all;
  }

  /** One turn of the loop over entries: an error from `find_files` or from
      `open_file` goes to standard error; an opened file is searched and its
      count or its kept lines are printed. */
  method SearchEntry(e: Entry, withName: bool, isMatch: string -> bool, invert: bool, count: bool)
    returns (out: string, err: string)
    ensures out == Stdout(e, withName, isMatch, invert, count)
    ensures err == Stderr(e)
  {
    out, err := "", "";
    match e {
      case Searched(input) =>
        match input {
          case Opened(name, content) =>
            var found := FindLines(content, isMatch, invert);
            if count {
              out := Emit(withName, name, NatToString(|found|) + "\n");
            } else {
              out := PrintFound(withName, name, found);
            }
          case Unopenable(name, ioError) =>
            err := OpenError(name, ioError) + "\n";
        }
      case Unresolved(error) =>
        err := error + "\n";
    }
  }

  /** `run`: the name prefix is chosen once from the number of entries; each
      entry is searched, or its error reported, and the run always goes on to
      the next entry. */
  method Run(entries: seq<Entry>, isMatch: string -> bool, invert: bool, count: bool)
    returns (stdout: string, stderr: string)
    ensures stdout == Flatten(AllStdout(entries, isMatch, invert, count, |entries|))
    ensures stderr == Flatten(AllStderr(entries, |entries|))
  {
    var withName := |entries| > 1;
    ghost var outs := AllStdout(entries, isMatch, invert, count, |entries|);
    ghost var errs := AllStderr(entries, |entries|);
    stdout, stderr := "", "";
    var i := 0;
    while i < |entries|
      invariant 0 <= i <= |entries|
      invariant stdout == Flatten(outs[..i])
      invariant stderr == Flatten(errs[..i])
    {
      FlattenPrefixStep(outs, i);
      FlattenPrefixStep(errs, i);
      var out, err := SearchEntry(entries[i], withName, isMatch, invert, count);
      stdout, stderr := stdout + out, stderr + err;
      i := i + 1;
    }
    assert outs[..i] == outs;
    assert errs[..i] == errs;
  }

  /** With -c a file prints one line: the number of kept lines. */
  lemma CountLine(name: string, content: string, isMatch: string -> bool, invert: bool)
    ensures Stdout(Searched(Opened(name, content)), false, isMatch, invert, true)
            == NatToString(|Kept(Chunks(content, NL), isMatch, invert)|) + "\n"
    ensures IsNumeral(NatToString(|Kept(Chunks(content, NL), isMatch, invert)|))
  {
  }

  /** A result before position k names standard input. */
  predicate StdinReadBefore(found: seq<Result<string, string>>, k: nat)
    requires k <= |found|
  {
    exists j :: 0 <= j < k && found[j] == Ok("-")
  }

  /** What is left of standard input for the result at position k:
      `find_lines` reads the first "-" to its end, so every later "-" opens an
      input that is already used up. */
  function StdinLeftAt(found: seq<Result<string, string>>, k: nat, stdin: string): (r: string)
    requires k <= |found|
    ensures !StdinReadBefore(found, k) ==> r == stdin
    ensures StdinReadBefore(found, k) ==> r == ""
    decreases k
  {
    if k == 0 then stdin
    else if found[k - 1] == Ok("-") then ""
    else
      var r := StdinLeftAt(found, k - 1, stdin);
      assert StdinReadBefore(found, k) <==> StdinReadBefore(found, k - 1) by {
        if StdinReadBefore(found, k) {
          var j :| 0 <= j < k && found[j] == Ok("-");
          assert j < k - 1;
        }
      }
      r
  }

  /** The loop's view of `find_files`' result: a name is opened with
      `open_file`, with what is left of standard input for "-"; an error stays
      an error; nothing is added or dropped. */
  function Entries(found: seq<Result<string, string>>, stdin: string, fs: string -> Result<string, string>): (r: seq<Entry>)
    ensures |r| == |found|
    ensures forall k :: 0 <= k < |found| && found[k].Err? ==> r[k] == Unresolved(found[k].error)
    ensures forall k :: 0 <= k < |found| && found[k].Ok? && found[k].value != "-" ==>
      r[k] == Searched(OpenFile(found[k].value, stdin, fs))
    ensures forall k :: 0 <= k < |found| && found[k] == Ok("-") ==>
      r[k] == Searched(Opened("-", if StdinReadBefore(found, k) then "" else stdin))
  {
    seq(|found|, k requires 0 <= k < |found| =>
      match found[k]
      case Ok(name) => Searched(OpenFile(name, StdinLeftAt(found, k, stdin), fs))
      case Err(e) => Unresolved(e))
  }

  /** A "-" after an earlier "-" finds standard input used up: it prints no
      line, and with -c a count of zero. */
  lemma LaterStdinFindsNothing(found: seq<Result<string, string>>, stdin: string, fs: string -> Result<string, string>,
                               k: nat, withName: bool, isMatch: string -> bool, invert: bool)
    requires k < |found| && found[k] == Ok("-") && StdinReadBefore(found, k)
    ensures Entries(found, stdin, fs)[k] == Searched(Opened("-", ""))
    ensures Stdout(Entries(found, stdin, fs)[k], withName, isMatch, invert, false) == ""
    ensures Stdout(Entries(found, stdin, fs)[k], withName, isMatch, invert, true) == Emit(withName, "-", "0\n")
  {
    assert Entries(found, stdin, fs)[k] == Searched(Opened("-", ""));
    EmptyInputKeepsNothing(isMatch, invert);
  }

  lemma EmptyInputKeepsNothing(isMatch: string -> bool, invert: bool)
    ensures Kept(Chunks("", NL), isMatch, invert) == []
    ensures NatToString(|Kept(Chunks("", NL), isMatch, invert)|) == "0"
  {
    assert Chunks("", NL) == [];
    assert Kept([], isMatch, invert) == [];
    assert NatToString(0) == "0";
  }

  /** The whole of `run`: the paths are resolved by `find_files`, and every
      result, opened with `open_file` when it names a file, is searched or
      reported in turn; standard input is read once, by the first "-". */
  method SearchPaths(paths: seq<string>, info: string -> PathInfo, recursive: bool,
                     stdin: string, fs: string -> Result<string, string>,
                     isMatch: string -> bool, invert: bool, count: bool)
    returns (stdout: string, stderr: string)
    ensures var entries := Entries(ResolveAll(paths, info, recursive), stdin, fs);
      && stdout == Flatten(AllStdout(entries, isMatch, invert, count, |entries|))
      && stderr == Flatten(AllStderr(entries, |entries|))
  {
    var files := FindFiles(paths, info, recursive);
    stdout, stderr := Run(Entries(files, stdin, fs), isMatch, invert, count);
  }

  /** Whether names are printed depends on the entries, not on the paths: with
      -r one directory holding two files gives two entries, and so names. */
  lemma OneDirectoryTwoEntries(p: string, a: string, b: string, info: string -> PathInfo,
                               stdin: string, fs: string -> Result<string, string>)
    requires p != "-" && info(p) == Directory([a, b])
    ensures ResolveAll([p], info, true) == [Ok(a), Ok(b)]
    ensures |Entries(ResolveAll([p], info, true), stdin, fs)| > 1
  {
    assert ResolveAll([p], info, true) == Resolve(p, info, true) + ResolveAll([], info, true);
  }

  /** `grep -c` with the pattern matching "a\n", the paths "-" and "-", and
      "a\n" on standard input prints "-:1\n-:0\n": the second "-" finds
      nothing left to read. */
  lemma CountStdinTwice(info: string -> PathInfo, fs: string -> Result<string, string>, isMatch: string -> bool)
    requires isMatch("a\n")
    ensures var entries := Entries(ResolveAll(["-", "-"], info, false), "a\n", fs);
      Flatten(AllStdout(entries, isMatch, false, true, |entries|)) == "-:1\n-:0\n"
  {
    var found := ResolveAll(["-", "-"], info, false);
    assert found == [Ok("-"), Ok("-")] by {
      assert ["-", "-"][1..] == ["-"] && ["-"][1..] == [];
    }
    var entries := Entries(found, "a\n", fs);
    TwoStdinEntries(found, "a\n", fs);
    OneMatchingLine(isMatch);
    LaterStdinFindsNothing(found, "a\n", fs, 1, true, isMatch, false);
    var outs := AllStdout(entries, isMatch, false, true, |entries|);
    assert |outs| == 2;
    assert outs[0] == Stdout(entries[0], true, isMatch, false, true) == "-:1\n";
    assert outs[1] == Stdout(entries[1], true, isMatch, false, true) == "-:0\n";
    assert outs[1..][1..] == [];
    assert Flatten(outs[1..]) == outs[1] + Flatten(outs[1..][1..]);
  }

  lemma OneMatchingLine(isMatch: string -> bool)
    requires isMatch("a\n")
    ensures Stdout(Searched(Opened("-", "a\n")), true, isMatch, false, true) == "-:1\n"
  {
    assert Chunks("a\n", NL) == ["a\n"] by {
      var t: string := "a\n";
      assert t[0] != NL && t[1] == NL && t[1..] == "\n";
      assert ChunkLen(t[1..], NL) == 1;
      assert ChunkLen(t, NL) == 2;
      assert t[..2] == t && t[2..] == [];
      assert Chunks(t[2..], NL) == [];
    }
    assert Kept(["a\n"], isMatch, false) == ["a\n"];
    assert NatToString(1) == "1";
  }

  lemma TwoStdinEntries(found: seq<Result<string, string>>, stdin: string, fs: string -> Result<string, string>)
    requires found == [Ok("-"), Ok("-")]
    ensures Entries(found, stdin, fs) == [Searched(Opened("-", stdin)), Searched(Opened("-", ""))]
  {
    assert !StdinReadBefore(found, 0);
    assert StdinReadBefore(found, 1) by {
      assert found[0] == Ok("-");
    }
    var r := Entries(found, stdin, fs);
    assert |r| == 2 && r[0] == Searched(Opened("-", stdin)) && r[1] == Searched(Opened("-", ""));
  }
}
