/**
 * cat (src/bin/cat.rs): every line of every file, each on its own output line,
 * optionally numbered (-n) or numbered when not empty (-b), the counter
 * starting afresh with each file; a file that cannot be opened is reported and
 * skipped.
 */
module Cat {
  import opened Text
  import opened Files

  /** -n and -b exclude each other on the command line, so a run uses one of
      three numberings. */
  datatype Numbering = Plain | NumberAll | NumberNonBlank

  /** `{:6}\t{}`: the number right-aligned in six columns, a tab, the line. */
  function Numbered(n: nat, line: string): (r: string)
    ensures |r| == (if |NatToString(n)| >= 6 then |NatToString(n)| else 6) + 1 + |line| + 1
    ensures r[|r| - |line| - 2..] == "\t" + line + "\n"
    ensures var d, w := NatToString(n), |r| - |line| - 2;
      && |d| <= w
      && r[w - |d|..w] == d
      && forall i :: 0 <= i < w - |d| ==> r[i] == ' '
  {
    var pad := PadLeft(NatToString(n), 6);
    assert (pad + "\t" + line + "\n")[..|pad|] == pad;
    pad + "\t" + line + "\n"
  }

  /** How many of the first `k` lines are not empty: none exactly when all of
      them are empty, all exactly when none of them is. */
  function NonBlankBefore(lines: seq<string>, k: nat): (c: nat)
    requires k <= |lines|
    ensures c <= k
    ensures c == 0 <==> forall j :: 0 <= j < k ==> lines[j] == ""
    ensures c == k <==> forall j :: 0 <= j < k ==> lines[j] != ""
  {
    if k == 0 then 0 else NonBlankBefore(lines, k - 1) + (if lines[k - 1] != "" then 1 else 0)
  }

  /** What line `k` of a file prints: unchanged; numbered with its position; or,
      when not empty, numbered with its position among the non-empty lines. */
  function Rendered(mode: Numbering, lines: seq<string>, k: nat): string
    requires k < |lines|
  {
    match mode
    case Plain => lines[k] + "\n"
    case NumberAll => Numbered(k + 1, lines[k])
    case NumberNonBlank => if lines[k] == "" then "\n" else Numbered(NonBlankBefore(lines, k) + 1, lines[k])
  }

  function RenderedPrefix(mode: Numbering, lines: seq<string>, i: nat): seq<string>
    requires i <= |lines|
  {
    seq(i, k requires 0 <= k < i => Rendered(mode, lines, k))
  }

  /** Everything one file prints. */
  function CatText(mode: Numbering, content: string): string
  {
    var lines := Lines(content);
    Flatten(RenderedPrefix(mode, lines, |lines|))
  }

  /** The counter of the loop: lines numbered so far. */
  function Counter(mode: Numbering, lines: seq<string>, i: nat): nat
    requires i <= |lines|
  {
    match mode
    case Plain => 0
    case NumberAll => i
    case NumberNonBlank => NonBlankBefore(lines, i)
  }

  /** Line `i` as the per-file loop of `run` prints it from the counter `n` of
      lines numbered so far, and the counter after it: -n prints and counts
      every line, -b prints an empty line bare and counts only the others, and
      the default prints the line as it is. */
  lemma RenderStep(mode: Numbering, lines: seq<string>, i: nat)
    requires i < |lines|
    ensures var n := Counter(mode, lines, i);
      && Rendered(mode, lines, i)
         == (if mode == NumberAll || (mode == NumberNonBlank && lines[i] != "") then Numbered(n + 1, lines[i])
             else if mode == NumberNonBlank then "\n"
             else lines[i] + "\n")
      && Counter(mode, lines, i + 1)
         == (if mode == NumberAll || (mode == NumberNonBlank && lines[i] != "") then n + 1 else n)
  {
    match mode
    case Plain =>
    case NumberAll =>
    case NumberNonBlank =>
      assert Counter(mode, lines, i + 1) == NonBlankBefore(lines, i + 1)
          == NonBlankBefore(lines, i) + (if lines[i] != "" then 1 else 0);
  }

  method CatFile(mode: Numbering, content: string) returns (out: string)
    ensures out == CatText(mode, content)
  {
    var lines := Lines(content);
    out := NumberLines(mode, lines);
  }

  /** The loop over one file's lines, with the counter `n` starting at 0. */
  method NumberLines(mode: Numbering, lines: seq<string>) returns (out: string)
    ensures out == Flatten(RenderedPrefix(mode, lines, |lines|))
  {
    ghost var rendered := RenderedPrefix(mode, lines, |lines|);
    var n := 0;
    out := "";
    var i := 0;
    while i < |lines|
      invariant 0 <= i <= |lines|
      invariant n == Counter(mode, lines, i)
      invariant out == Flatten(rendered[..i])
    {
      var line := lines[i];
      FlattenPrefixStep(rendered, i);
      RenderStep(mode, lines, i);
      if mode == NumberAll {
        out := out + Numbered(n + 1, line);
        n := n + 1;
      } else if mode == NumberNonBlank {
        if line == "" {
          out := out + "\n";
        } else {
          out := out + Numbered(n + 1, line);
          n := n + 1;
        }
      } else {
        out := out + (line + "\n");
      }
      i := i + 1;
    }
    assert rendered[..i] == rendered;
  }

  // ------------------------------------------------------------------
  // Properties of one file's output
  // ------------------------------------------------------------------

  lemma {:induction false} AllNonBlank(lines: seq<string>, k: nat)
    requires k <= |lines|
    requires forall j :: 0 <= j < |lines| ==> lines[j] != ""
    ensures NonBlankBefore(lines, k) == k
  {
    if k > 0 {
      AllNonBlank(lines, k - 1);
    }
  }

  /** Without empty lines, -b numbers exactly as -n does. */
  lemma NonBlankWithoutBlanks(content: string)
    requires forall j :: 0 <= j < |Lines(content)| ==> Lines(content)[j] != ""
    ensures CatText(NumberNonBlank, content) == CatText(NumberAll, content)
  {
    var lines := Lines(content);
    forall k | 0 <= k < |lines|
      ensures Rendered(NumberNonBlank, lines, k) == Rendered(NumberAll, lines, k)
    {
      AllNonBlank(lines, k);
    }
    assert RenderedPrefix(NumberNonBlank, lines, |lines|) == RenderedPrefix(NumberAll, lines, |lines|);
  }

  /** Under -b the numbers run 1, 2, 3, ... over the non-empty lines: the next
      non-empty line after line `k` gets the number after line `k`'s. */
  lemma NonBlankConsecutive(lines: seq<string>, k: nat)
    requires k + 1 < |lines|
    ensures NonBlankBefore(lines, k + 1) == NonBlankBefore(lines, k) + (if lines[k] != "" then 1 else 0)
    ensures lines[k + 1] != "" && lines[k] != "" ==>
            Rendered(NumberNonBlank, lines, k + 1) == Numbered(NonBlankBefore(lines, k) + 2, lines[k + 1])
  {
  }

  /** Each piece with its terminator replaced by a single "\n". */
  function Terminated(cs: seq<string>): seq<string>
  {
    seq(|cs|, k requires 0 <= k < |cs| => StripNewline(cs[k]) + "\n")
  }

  lemma TerminatedCons(h: string, rs: seq<string>)
    ensures Terminated([h] + rs) == [StripNewline(h) + "\n"] + Terminated(rs)
  {
  }

  /** The first piece of a text without "\r" that ends in "\n" gets back its
      own terminator. */
  lemma HeadRoundTrip(s: string, n: nat)
    requires forall i :: 0 <= i < |s| ==> s[i] != '\r'
    requires 0 < n <= |s| && s[n - 1] == NL
    ensures StripNewline(s[..n]) + "\n" == s[..n]
  {
    var head := s[..n];
    assert head[|head| - 1] == NL;
    if n >= 2 {
      assert head[|head| - 2] == s[n - 2] != '\r';
    }
    assert StripNewline(head) == head[..|head| - 1];
  }

  /** A file whose lines end in "\n" alone (no "\r") is rebuilt by giving
      every line back a single "\n". */
  lemma {:induction false} PlainChunks(s: string)
    requires forall i :: 0 <= i < |s| ==> s[i] != '\r'
    requires s == [] || s[|s| - 1] == NL
    ensures Flatten(Terminated(Chunks(s, NL))) == s
    decreases |s|
  {
    if s != [] {
      var n := ChunkLen(s, NL);
      var rest := s[n..];
      assert s[..n] + rest == s;
      assert s[n - 1] == NL;
      assert rest != [] ==> rest[|rest| - 1] == s[|s| - 1];
      assert forall i :: 0 <= i < |rest| ==> rest[i] == s[n + i];
      PlainChunks(rest);
      HeadRoundTrip(s, n);
      var h, rs := s[..n], Chunks(rest, NL);
      assert Chunks(s, NL) == [h] + rs;
      TerminatedCons(h, rs);
      var t := [StripNewline(h) + "\n"] + Terminated(rs);
      assert t[1..] == Terminated(rs);
      assert Flatten(t) == h + Flatten(Terminated(rs));
    }
  }

  /** Plain cat of such a file gives back the file. */
  lemma PlainRoundTrip(content: string)
    requires forall i :: 0 <= i < |content| ==> content[i] != '\r'
    requires content == [] || content[|content| - 1] == NL
    ensures CatText(Plain, content) == content
  {
    PlainChunks(content);
    var lines := Lines(content);
    var cs := Chunks(content, NL);
    assert RenderedPrefix(Plain, lines, |lines|) == Terminated(cs);
  }

  /** An unterminated last line still gets its newline: "test" prints as
      "test\n". */
  lemma UnterminatedLine(s: string)
    requires s == "test"
    ensures CatText(Plain, s) == "test\n"
  {
    assert forall i :: 0 <= i < |s| ==> s[i] != NL;
    ChunksWithoutSeparator(s, NL);
    assert StripNewline(s) == s;
    assert Lines(s) == [s];
    assert RenderedPrefix(Plain, [s], 1) == [s + "\n"];
    assert Flatten([s + "\n"]) == s + "\n" + Flatten([]);
  }

  /** An empty file prints nothing, whatever the numbering. */
  lemma EmptyFile(mode: Numbering)
    ensures CatText(mode, "") == ""
  {
    assert Lines("") == [];
  }

  // ------------------------------------------------------------------
  // The command
  // ------------------------------------------------------------------

  function Printed(mode: Numbering, input: Input): string
  {
    if input.Opened? then CatText(mode, input.content) else ""
  }

  function Complaint(input: Input): string
  {
    if input.Unopenable? then OpenError(input.name, input.ioError) + "\n" else ""
  }

  function AllPrinted(mode: Numbering, inputs: seq<Input>, i: nat): seq<string>
    requires i <= |inputs|
  {
    seq(i, k requires 0 <= k < i => Printed(mode, inputs[k]))
  }

  function AllComplaints(inputs: seq<Input>, i: nat): seq<string>
    requires i <= |inputs|
  {
    seq(i, k requires 0 <= k < i => Complaint(inputs[k]))
  }

  /** One turn of `run`: an unopenable file is reported, an opened one printed. */
  method CatInput(mode: Numbering, input: Input) returns (out: string, err: string)
    ensures out == Printed(mode, input)
    ensures err == Complaint(input)
  {
    out, err := "", "";
    if input.Unopenable? {
      err := OpenError(input.name, input.ioError) + "\n";
      return;
    }
    out := CatFile(mode, input.content);
  }

  /** `run`: each file in turn; one that cannot be opened is reported on
      standard error and the run goes on with the next; each file is numbered
      from 1 again. */
  method Run(mode: Numbering, inputs: seq<Input>) returns (stdout: string, stderr: string)
    ensures stdout == Flatten(AllPrinted(mode, inputs, |inputs|))
    ensures stderr == Flatten(AllComplaints(inputs, |inputs|))
  {
    ghost var printed := AllPrinted(mode, inputs, |inputs|);
    ghost var complaints := AllComplaints(inputs, |inputs|);
    stdout, stderr := "", "";
    var i := 0;
    while i < |inputs|
      invariant 0 <= i <= |inputs|
      invariant stdout == Flatten(printed[..i])
      invariant stderr == Flatten(complaints[..i])
    {
      FlattenPrefixStep(printed, i);
      FlattenPrefixStep(complaints, i);
      var out, err := CatInput(mode, inputs[i]);
      stdout, stderr := stdout + out, stderr + err;
      i := i + 1;
    }
    assert printed[..i] == printed;
    assert complaints[..i] == complaints;
  }
}
