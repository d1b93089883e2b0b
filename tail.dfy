/**
 * tail (src/bin/tail.rs): the signed count argument, the index the output
 * starts at, counting lines and bytes, and printing the selected part.
 *
 * Files are read as bytes and printed through lossy UTF-8 decoding. The text
 * is opened with `File::open`, so "-" names a file called "-"; the totals are
 * counted through `open_file`, for which "-" is standard input.
 */
module Tail {
  import opened Wrappers
  import opened Text
  import Utf8

  const I64_MIN: int := -0x8000_0000_0000_0000
  const I64_MAX: int := 0x7FFF_FFFF_FFFF_FFFF

  /** `TakeSize`: "+0" (everything), or a signed count. A negative count selects
      the last |n| items; a positive one starts at the n-th item. */
  datatype TakeSize = PlusZero | Num(n: int)

  /** `s.parse::<i64>()`. */
  function ParseI64(s: string): (r: Option<int>)
    ensures r.Some? ==> I64_MIN <= r.value <= I64_MAX
    ensures r.Some? ==> r == ParseInt(s)
    ensures ParseInt(s).Some? && I64_MIN <= ParseInt(s).value <= I64_MAX ==> r.Some?
  {
    match ParseInt(s)
    case Some(n) => if I64_MIN <= n <= I64_MAX then Some(n) else None
    case None => None
  }

  /** `TakeSize::from_str`: a count written without '+' is made negative. */
  function FromStr(s: string): Option<TakeSize>
  {
    if s == "+0" then Some(PlusZero)
    else match ParseI64(s)
      case None => None
      case Some(n) => Some(Num(if !(|s| > 0 && s[0] == '+') && n > 0 then -n else n))
  }

  /** `impl Display for TakeSize`. */
  function Display(t: TakeSize): string
  {
    match t
    case PlusZero => "+0"
    case Num(n) => IntToString(n)
  }

  function Abs(n: int): nat
  {
    if n < 0 then -n else n
  }

  /** What a count means: "+0" is the only spelling of PlusZero; a count with '+'
      keeps its value; any other count, signed or not, becomes minus its magnitude. */
  lemma FromStrMeaning(s: string)
    ensures FromStr(s).Some? <==> s == "+0" || ParseI64(s).Some?
    ensures FromStr(s) == Some(PlusZero) <==> s == "+0"
    ensures s != "+0" && ParseI64(s).Some? ==>
      FromStr(s) == Some(Num(if s[0] == '+' then ParseI64(s).value else -(Abs(ParseI64(s).value) as int)))
  {
    if s != "+0" && ParseI64(s).Some? && s[0] == '+' {
      assert ParseI64(s).value >= 0;
    }
  }

  /** Rendering and parsing again keeps "+0", zero and negative counts, and turns
      a positive count into its negation. */
  lemma DisplayRoundTrip(t: TakeSize)
    requires t.Num? ==> I64_MIN <= t.n <= I64_MAX
    ensures FromStr(Display(t)) == Some(if t.Num? && t.n > 0 then Num(-t.n) else t)
  {
    if t.Num? {
      var s := IntToString(t.n);
      ParseIntRoundTrip(t.n);
      if t.n >= 0 {
        assert IsDigit(s[0]);
      }
      assert s != "+0" && s[0] != '+';
    }
  }

  /** The default count `Num(10)` passes through its rendering "10" before use,
      so by default tail prints the last ten lines. */
  lemma DefaultIsLastTen()
    ensures FromStr(Display(Num(10))) == Some(Num(-10))
  {
    DisplayRoundTrip(Num(10));
  }

  // ------------------------------------------------------------------
  // get_start_index
  // ------------------------------------------------------------------

  /** `get_start_index`: the index of the first item to print out of `total`,
      or None when nothing is printed. */
  function GetStartIndex(take: TakeSize, total: nat): (r: Option<nat>)
    ensures r.Some? ==> r.value < total
  {
    match take
    case PlusZero => if total > 0 then Some(0) else None
    case Num(n) =>
      if n == 0 || total == 0 || n > total then None
      else
        var start := if n < 0 then total + n else n - 1;
        Some(if start < 0 then 0 else start)
  }

  /** How many of `total` items are printed. */
  function Taken(take: TakeSize, total: nat): nat
  {
    match GetStartIndex(take, total)
    case None => 0
    case Some(start) => total - start
  }

  /** "+0" takes everything, -n the last n items (or all when fewer), +n every
      item from the n-th on, and 0 nothing. */
  lemma TakenMeaning(take: TakeSize, total: nat)
    ensures take.PlusZero? ==> Taken(take, total) == total
    ensures take.Num? && take.n < 0 ==> Taken(take, total) == if -take.n < total then -take.n else total
    ensures take.Num? && take.n > 0 ==> Taken(take, total) == if take.n <= total then total - take.n + 1 else 0
    ensures take == Num(0) ==> Taken(take, total) == 0
  {
  }

  lemma GetStartIndexExamples()
    ensures GetStartIndex(PlusZero, 0) == None
    ensures GetStartIndex(PlusZero, 10) == Some(0)
    ensures GetStartIndex(Num(0), 0) == None
    ensures GetStartIndex(Num(-10), 100) == Some(90)
    ensures GetStartIndex(Num(10), 100) == Some(9)
  {
  }

  // ------------------------------------------------------------------
  // get_lines_bytes, print_lines, print_bytes
  // ------------------------------------------------------------------

  /** `get_lines_bytes`: one line per `read_until` piece, so a final line without
      a newline still counts; every byte counts once. */
  method GetLinesBytes(content: seq<byte>) returns (lines: nat, bytes: nat)
    ensures lines == |Chunks(content, NL_BYTE)|
    ensures lines == Count(content, NL_BYTE) + (if |content| > 0 && content[|content| - 1] != NL_BYTE then 1 else 0)
    ensures bytes == |content|
  {
    var chunks := Chunks(content, NL_BYTE);
    lines, bytes := 0, 0;
    var i := 0;
    while i < |chunks|
      invariant 0 <= i <= |chunks|
      invariant lines == i
      invariant bytes == |Flatten(chunks[..i])|
    {
      FlattenPrefixStep(chunks, i);
      lines := lines + 1;
      bytes := bytes + |chunks[i]|;
      i := i + 1;
    }
    assert chunks[..i] == chunks;
    FlattenChunks(content, NL_BYTE);
    ChunkCount(content, NL_BYTE);
  }

  /** Each piece from `from` on, decoded on its own. */
  function DecodedFrom(chunks: seq<seq<byte>>, from: nat): seq<string>
  {
    if from >= |chunks| then []
    else seq(|chunks| - from, j requires 0 <= j < |chunks| - from => Utf8.DecodeLossy(chunks[from + j]))
  }

  /** What `print_lines` writes. */
  function LinesOutput(content: seq<byte>, count: TakeSize, totalLines: nat): seq<string>
  {
    match GetStartIndex(count, totalLines)
    case None => []
    case Some(start) => DecodedFrom(Chunks(content, NL_BYTE), start)
  }

  /** `print_lines`: prints every piece whose position is at least the start index. */
  method PrintLines(content: seq<byte>, count: TakeSize, totalLines: nat) returns (out: seq<string>)
    ensures out == LinesOutput(content, count, totalLines)
  {
    out := [];
    var start := GetStartIndex(count, totalLines);
    if start.Some? {
      var chunks := Chunks(content, NL_BYTE);
      out := PrintFrom(chunks, start.value);
    }
  }

  lemma DecodedFromStep(chunks: seq<seq<byte>>, k: nat, from: nat)
    requires k < |chunks|
    ensures DecodedFrom(chunks[..k + 1], from)
         == DecodedFrom(chunks[..k], from) + (if k >= from then [Utf8.DecodeLossy(chunks[k])] else [])
  {
    var a, b := chunks[..k + 1], chunks[..k];
    if k >= from {
      assert forall i :: from <= i < |b| ==> a[i] == b[i];
      assert DecodedFrom(a, from)[..|a| - from - 1] == DecodedFrom(b, from);
    }
  }

  /** The read loop of `print_lines`: the running line number decides whether
      each piece is printed. */
  method PrintFrom(chunks: seq<seq<byte>>, start: nat) returns (out: seq<string>)
    ensures out == DecodedFrom(chunks, start)
  {
    out := [];
    var lines := 0;
    while lines < |chunks|
      invariant 0 <= lines <= |chunks|
      invariant out == DecodedFrom(chunks[..lines], start)
    {
      DecodedFromStep(chunks, lines, start);
      if lines >= start {
        out := out + [Utf8.DecodeLossy(chunks[lines])];
      }
      lines := lines + 1;
    }
    assert chunks[..lines] == chunks;
  }


  /** With the totals taken from the same text, `-n` prints its last n lines
      (all of them when there are fewer), each decoded on its own. */
  lemma LastLines(content: seq<byte>, n: nat)
    requires n > 0
    ensures var cs := Chunks(content, NL_BYTE);
      var m := if n < |cs| then n else |cs|;
      LinesOutput(content, Num(-(n as int)), |cs|) == DecodedFrom(cs, |cs| - m)
  {
  }

  /** With the totals taken from the same text, `+n` prints from the n-th line on. */
  lemma FromLine(content: seq<byte>, n: nat)
    requires n > 0
    ensures var cs := Chunks(content, NL_BYTE);
      LinesOutput(content, Num(n), |cs|) == DecodedFrom(cs, n - 1)
  {
  }

  /** `print_bytes`: seek to the start index and print the rest, if any; a seek
      past the end reads nothing. */
  function PrintBytes(content: seq<byte>, count: TakeSize, totalBytes: nat): (out: seq<string>)
    ensures |out| <= 1
    ensures totalBytes == |content| ==> (out == [] <==> Taken(count, totalBytes) == 0)
    ensures count.Num? && 0 < count.n <= |content| && totalBytes == |content| ==>
      out == [Utf8.DecodeLossy(content[count.n - 1..])]
    ensures count.PlusZero? && |content| > 0 && totalBytes == |content| ==>
      out == [Utf8.DecodeLossy(content)]
  {
    match GetStartIndex(count, totalBytes)
    case None => []
    case Some(start) =>
      var rest := if start <= |content| then content[start..] else [];
      if rest == [] then [] else [Utf8.DecodeLossy(rest)]
  }

  /** With the total taken from the same bytes, `-c -n` prints the last n bytes
      (all of them when there are fewer), decoded together. */
  lemma LastBytes(content: seq<byte>, n: nat)
    requires n > 0 && |content| > 0
    ensures var m := if n < |content| then n else |content|;
      PrintBytes(content, Num(-(n as int)), |content|) == [Utf8.DecodeLossy(content[|content| - m..])]
  {
  }

  // ------------------------------------------------------------------
  // run
  // ------------------------------------------------------------------

  /** A file named on the command line, as `File::open` finds it. */
  datatype TailInput = Missing(name: string, ioError: string) | Present(name: string, content: seq<byte>)

  function Header(name: string): string
  {
    "==> " + (if name == "-" then "standard input" else name) + " <==\n"
  }

  /** What `print_bytes` or `print_lines` writes for one file. The totals come
      from what is left of standard input when the name is "-", and from the
      file otherwise; the printed bytes always come from the file. */
  function Body(name: string, content: seq<byte>, stdin: seq<byte>, lines: TakeSize, bytes: Option<TakeSize>): seq<string>
  {
    var counted := if name == "-" then stdin else content;
    if bytes.Some? then PrintBytes(content, bytes.value, |counted|)
    else LinesOutput(content, lines, |Chunks(counted, NL_BYTE)|)
  }

  /** The output for the file at position i: a blank line before every file
      but the first, the header, then the selected part. */
  function Block(i: nat, input: TailInput, printHeader: bool, stdin: seq<byte>,
                 lines: TakeSize, bytes: Option<TakeSize>): seq<string>
  {
    match input
    case Missing(_, _) => []
    case Present(name, content) =>
      (if i > 0 then ["\n"] else [])
      + (if printHeader then [Header(name)] else [])
      + Body(name, content, stdin, lines, bytes)
  }

  /** A file named "-" before position i. */
  predicate StdinCountedBefore(inputs: seq<TailInput>, i: nat)
    requires i <= |inputs|
  {
    exists j :: 0 <= j < i && inputs[j].Present? && inputs[j].name == "-"
  }

  /** What is left of standard input when the file at position i is counted:
      `get_lines_bytes` reads standard input to its end for the first "-", so
      every later "-" finds it empty. */
  function StdinLeft(inputs: seq<TailInput>, i: nat, stdin: seq<byte>): (r: seq<byte>)
    requires i <= |inputs|
    ensures !StdinCountedBefore(inputs, i) ==> r == stdin
    ensures StdinCountedBefore(inputs, i) ==> r == []
    decreases i
  {
    if i == 0 then stdin
    else if inputs[i - 1].Present? && inputs[i - 1].name == "-" then []
    else
      var r := StdinLeft(inputs, i - 1, stdin);
      assert StdinCountedBefore(inputs, i) <==> StdinCountedBefore(inputs, i - 1) by {
        if StdinCountedBefore(inputs, i) {
          var j :| 0 <= j < i && inputs[j].Present? && inputs[j].name == "-";
          assert j < i - 1;
        }
      }
      r
  }

  function Blocks(inputs: seq<TailInput>, printHeader: bool, stdin: seq<byte>,
                  lines: TakeSize, bytes: Option<TakeSize>): seq<seq<string>>
  {
    seq(|inputs|, i requires 0 <= i < |inputs| =>
      Block(i, inputs[i], printHeader, StdinLeft(inputs, i, stdin), lines, bytes))
  }

  /** A "-" after an earlier "-" counts no lines and no bytes, so apart from its
      separator and header it prints nothing, whatever the file "-" holds. */
  lemma LaterStdinPrintsNothing(inputs: seq<TailInput>, k: nat, printHeader: bool, stdin: seq<byte>,
                                lines: TakeSize, bytes: Option<TakeSize>)
    requires k < |inputs| && inputs[k].Present? && inputs[k].name == "-"
    requires StdinCountedBefore(inputs, k)
    ensures Blocks(inputs, printHeader, stdin, lines, bytes)[k]
            == ["\n"] + (if printHeader then [Header("-")] else [])
  {
    var j :| 0 <= j < k && inputs[j].Present? && inputs[j].name == "-";
    assert StdinLeft(inputs, k, stdin) == [];
    assert Chunks([], NL_BYTE) == [];
    assert Body("-", inputs[k].content, [], lines, bytes) == [];
  }

  /** Headers are printed for several files, unless -q is given. */
  function PrintHeader(inputs: seq<TailInput>, quiet: bool): bool
  {
    |inputs| > 1 && !quiet
  }

  /** One iteration of `run` for a file that opened. */
  method TailFile(i: nat, input: TailInput, printHeader: bool, stdin: seq<byte>,
                  lines: TakeSize, bytes: Option<TakeSize>) returns (out: seq<string>)
    requires input.Present?
    ensures out == Block(i, input, printHeader, stdin, lines, bytes)
  {
    var name, content := input.name, input.content;
    var separator: seq<string> := if i > 0 then ["\n"] else [];
    var header: seq<string> := if printHeader then [Header(name)] else [];
    var counted := if name == "-" then stdin else content;
    var totalLines, totalBytes := GetLinesBytes(counted);
    var body;
    if bytes.Some? {
      body := PrintBytes(content, bytes.value, totalBytes);
    } else {
      body := PrintLines(content, lines, totalLines);
    }
    out := separator + header + body;
  }

  /** The position of the first file that cannot be opened, from position k on,
      or the number of files when every one opens. */
  function FirstMissing(inputs: seq<TailInput>, k: nat): (a: nat)
    requires k <= |inputs|
    ensures k <= a <= |inputs|
    ensures forall j :: k <= j < a ==> inputs[j].Present?
    ensures a < |inputs| ==> inputs[a].Missing?
    decreases |inputs| - k
  {
    if k == |inputs| || inputs[k].Missing? then k else FirstMissing(inputs, k + 1)
  }

  /** `run`: headers only for several files and without -q; the first file that
      cannot be opened ends the run with its error, after the output of the
      files before it; standard input is used up by the first "-". */
  method Run(inputs: seq<TailInput>, quiet: bool, stdin: seq<byte>, lines: TakeSize, bytes: Option<TakeSize>)
    returns (stdout: seq<string>, status: Result<(), string>)
    ensures var a := FirstMissing(inputs, 0);
      && (status.Ok? <==> a == |inputs|)
      && (status.Err? ==> status.error == inputs[a].ioError)
      && stdout == Flatten(Blocks(inputs, PrintHeader(inputs, quiet), stdin, lines, bytes)[..a])
  {
    var blocks := Blocks(inputs, PrintHeader(inputs, quiet), stdin, lines, bytes);
    var printHeader := PrintHeader(inputs, quiet);
    var left := stdin;
    stdout := [];
    var i := 0;
    while i < |inputs|
      invariant 0 <= i <= |inputs|
      invariant FirstMissing(inputs, i) == FirstMissing(inputs, 0)
      invariant left == StdinLeft(inputs, i, stdin)
      invariant stdout == Flatten(blocks[..i])
    {
      if inputs[i].Missing? {
        status := Err(inputs[i].ioError);
        return;
      }
      FlattenPrefixStep(blocks, i);
      var out := TailFile(i, inputs[i], printHeader, left, lines, bytes);
      assert out == blocks[i];
      stdout := stdout + out;
      if inputs[i].name == "-" {
        left := [];
      }
      i := i + 1;
    }
    status := Ok(());
  }
}
