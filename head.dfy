/**
 * head (src/bin/head.rs): the first lines (-n, 10 by default) or the first
 * bytes (-c) of each file, with a "==> name <==" header when several files are
 * named and a blank line before every file after the first.
 */
module Head {
  import opened Wrappers
  import opened Text
  import opened Files
  import Utf8
  import Tail

  /** -n and -c exclude each other on the command line. */
  datatype Mode = FirstLines(n: nat) | FirstBytes(count: nat)

  const DEFAULT_MODE: Mode := FirstLines(10)

  /** The message of `read_exact` when the input ends before the buffer is full. */
  const SHORT_READ := "failed to fill whole buffer"

  // ------------------------------------------------------------------
  // One file
  // ------------------------------------------------------------------

  function Min(a: nat, b: nat): nat
  {
    if a <= b then a else b
  }

  /** What the line loop prints: the first `n` pieces `read_line` hands out,
      each with its terminator, or all of them when there are fewer. */
  function LinesBody(n: nat, content: string): string
  {
    var chunks := Chunks(content, NL);
    Flatten(chunks[..Min(n, |chunks|)])
  }

  /** What byte mode prints: the lossy decoding of exactly `count` bytes and a
      newline, or the error `read_exact` reports when there are fewer. */
  function BytesBody(count: nat, content: string): Result<string, string>
  {
    var bytes := Utf8.EncodeString(content);
    if count <= |bytes| then Ok(Utf8.DecodeLossy(bytes[..count]) + "\n") else Err(SHORT_READ)
  }

  function Body(mode: Mode, content: string): Result<string, string>
  {
    match mode
    case FirstLines(n) => Ok(LinesBody(n, content))
    case FirstBytes(count) => BytesBody(count, content)
  }

  /** The `for _ in 0..n` loop: at most `n` calls of `read_line`, stopping at
      the first that reads nothing, each piece printed as read. */
  method PrintLines(n: nat, content: string) returns (out: string)
    ensures out == LinesBody(n, content)
  {
    var chunks := Chunks(content, NL);
    out := "";
    var k := 0;
    while k < n
      invariant k <= n && k <= |chunks|
      invariant out == Flatten(chunks[..k])
    {
      if k == |chunks| {
        break;
      }
      FlattenPrefixStep(chunks, k);
      out := out + chunks[k];
      k := k + 1;
    }
    assert k == Min(n, |chunks|);
  }

  // ------------------------------------------------------------------
  // Properties of one file's output
  // ------------------------------------------------------------------

  lemma {:induction false} FlattenPrefixIsPrefix(chunks: seq<string>, k: nat)
    requires k <= |chunks|
    ensures Flatten(chunks[..k]) <= Flatten(chunks)
  {
    assert chunks == chunks[..k] + chunks[k..];
    FlattenConcat(chunks[..k], chunks[k..]);
  }

  lemma {:induction false} TerminatedCount(content: string, k: nat)
    requires k < |Chunks(content, NL)|
    ensures Text.Count(Flatten(Chunks(content, NL)[..k]), NL) == k
  {
    var chunks := Chunks(content, NL);
    if k > 0 {
      TerminatedCount(content, k - 1);
      FlattenPrefixStep(chunks, k - 1);
      CountAppend(Flatten(chunks[..k - 1]), chunks[k - 1], NL);
      var c := chunks[k - 1];
      ChunkShape(content, NL, k - 1);
      assert c == c[..|c| - 1] + [NL];
      CountAppend(c[..|c| - 1], [NL], NL);
      CountAbsent(c[..|c| - 1], NL);
      assert Text.Count([NL], NL) == 1;
    }
  }

  lemma LastTerminated(content: string, n: nat)
    requires 0 < n < |Chunks(content, NL)|
    ensures var f := Flatten(Chunks(content, NL)[..n]); |f| > 0 && f[|f| - 1] == NL
  {
    var chunks := Chunks(content, NL);
    FlattenPrefixStep(chunks, n - 1);
    ChunkShape(content, NL, n - 1);
  }

  /** Line mode prints a prefix of the file: the whole file when it has at most
      `n` lines, and otherwise the shortest prefix holding `n` newlines. */
  lemma LinesBodyMeaning(n: nat, content: string)
    ensures LinesBody(n, content) <= content
    ensures n >= |Chunks(content, NL)| ==> LinesBody(n, content) == content
    ensures n < |Chunks(content, NL)| ==>
              Text.Count(LinesBody(n, content), NL) == n
              && (n > 0 ==> LinesBody(n, content)[|LinesBody(n, content)| - 1] == NL)
  {
    var chunks := Chunks(content, NL);
    FlattenChunks(content, NL);
    if n >= |chunks| {
      assert chunks[..Min(n, |chunks|)] == chunks;
    } else {
      assert LinesBody(n, content) == Flatten(chunks[..n]);
      FlattenPrefixIsPrefix(chunks, n);
      TerminatedCount(content, n);
      if n > 0 {
        LastTerminated(content, n);
      }
    }
  }

  /** Byte mode cut at a character boundary prints those characters unchanged;
      the lossy decoding only shows where a character is cut. */
  lemma BytesOnCharBoundary(content: string, m: nat)
    requires m <= |content|
    ensures BytesBody(|Utf8.EncodeString(content[..m])|, content) == Ok(content[..m] + "\n")
  {
    assert content == content[..m] + content[m..];
    Utf8.EncodeStringAppend(content[..m], content[m..]);
    var bytes := Utf8.EncodeString(content);
    assert bytes[..|Utf8.EncodeString(content[..m])|] == Utf8.EncodeString(content[..m]);
    Utf8.DecodeEncode(content[..m]);
  }

  /** Asking for more bytes than the file has is an error, not a short read. */
  lemma BytesPastEnd(count: nat, content: string)
    requires count > |Utf8.EncodeString(content)|
    ensures BytesBody(count, content) == Err("failed to fill whole buffer")
  {
  }

  // ------------------------------------------------------------------
  // The command
  // ------------------------------------------------------------------

  /** What precedes a file's body: a blank line for every file after the
      first, then the header when headers are on. */
  function Prefix(i: nat, name: string, printHeader: bool): string
  {
    (if i > 0 then "\n" else "") + (if printHeader then Tail.Header(name) else "")
  }

  /** Whether file `i` stops the run: it opened, byte mode asks for more bytes
      than it holds. */
  predicate Aborts(mode: Mode, input: Input)
  {
    input.Opened? && Body(mode, input.content).Err?
  }

  /** What file `i` prints when it does not stop the run. */
  function Block(i: nat, input: Input, printHeader: bool, mode: Mode): string
  {
    if input.Unopenable? then ""
    else
      match Body(mode, input.content)
      case Ok(body) => Prefix(i, input.name, printHeader) + body
      case Err(_) => Prefix(i, input.name, printHeader)
  }

  function Complaint(input: Input): string
  {
    if input.Unopenable? then
      "head: cannot open '" + input.name + "' for reading: " + OpenError(input.name, input.ioError) + "\n"
    else ""
  }

  function Blocks(inputs: seq<Input>, printHeader: bool, mode: Mode): (bs: seq<string>)
    ensures |bs| == |inputs|
  {
    seq(|inputs|, i requires 0 <= i < |inputs| => Block(i, inputs[i], printHeader, mode))
  }

  function Complaints(inputs: seq<Input>): (cs: seq<string>)
    ensures |cs| == |inputs|
  {
    seq(|inputs|, i requires 0 <= i < |inputs| => Complaint(inputs[i]))
  }

  /** The first file from `k` on that stops the run, or |inputs|. */
  function FirstAbort(inputs: seq<Input>, mode: Mode, k: nat): (a: nat)
    requires k <= |inputs|
    ensures k <= a <= |inputs|
    ensures forall j :: k <= j < a ==> !Aborts(mode, inputs[j])
    ensures a < |inputs| ==> Aborts(mode, inputs[a])
    decreases |inputs| - k
  {
    if k == |inputs| || Aborts(mode, inputs[k]) then k else FirstAbort(inputs, mode, k + 1)
  }

  /** The body of an opened file: byte mode's `read_exact` and lossy decoding,
      or the line loop. */
  method PrintBody(mode: Mode, content: string) returns (body: string, failure: Option<string>)
    ensures failure.None? <==> Body(mode, content).Ok?
    ensures failure.None? ==> body == Body(mode, content).value
    ensures failure.Some? ==> failure.value == SHORT_READ && body == ""
  {
    body, failure := "", None;
    match mode {
      case FirstBytes(count) =>
        var bytes := Utf8.EncodeString(content);
        if count > |bytes| {
          failure := Some(SHORT_READ);
          return;
        }
        body := Utf8.DecodeLossy(bytes[..count]) + "\n";
      case FirstLines(n) =>
        body := PrintLines(n, content);
    }
  }

  /** One turn of the per-file loop: an unopenable file is reported; an opened
      one gets its blank line and header, then its lines or bytes. */
  method HeadFile(i: nat, input: Input, printHeader: bool, mode: Mode)
    returns (out: string, err: string, failure: Option<string>)
    ensures out == Block(i, input, printHeader, mode)
    ensures err == Complaint(input)
    ensures failure.Some? <==> Aborts(mode, input)
    ensures failure.Some? ==> failure.value == SHORT_READ
  {
    out, err, failure := "", "", None;
    if input.Unopenable? {
      err := "head: cannot open '" + input.name + "' for reading: " + OpenError(input.name, input.ioError) + "\n";
      return;
    }
    if i > 0 {
      out := out + "\n";
    }
    if printHeader {
      out := out + Tail.Header(input.name);
    }
    assert out == Prefix(i, input.name, printHeader);
    var body;
    body, failure := PrintBody(mode, input.content);
    out := out + body;
    assert failure.Some? ==> out == Prefix(i, input.name, printHeader);
  }

  /** `run`: headers when more than one file is named; unopenable files are
      reported and skipped; a short read in byte mode ends the run with an
      error after whatever that file had printed. */
  method Run(inputs: seq<Input>, mode: Mode)
    returns (stdout: string, stderr: string, status: Result<(), string>)
    ensures var a := FirstAbort(inputs, mode, 0);
      var end := if a < |inputs| then a + 1 else a;
      && (status.Ok? <==> a == |inputs|)
      && (status.Err? ==> status.error == SHORT_READ)
      && stdout == Flatten(Blocks(inputs, |inputs| > 1, mode)[..end])
      && stderr == Flatten(Complaints(inputs)[..end])
  {
    var printHeader := |inputs| > 1;
    ghost var blocks := Blocks(inputs, printHeader, mode);
    ghost var complaints := Complaints(inputs);
    stdout, stderr := "", "";
    var i := 0;
    while i < |inputs|
      invariant 0 <= i <= |inputs|
      invariant FirstAbort(inputs, mode, i) == FirstAbort(inputs, mode, 0)
      invariant stdout == Flatten(blocks[..i])
      invariant stderr == Flatten(complaints[..i])
    {
      FlattenPrefixStep(blocks, i);
      FlattenPrefixStep(complaints, i);
      var out, err, failure := HeadFile(i, inputs[i], printHeader, mode);
      stdout, stderr := stdout + out, stderr + err;
      if failure.Some? {
        assert FirstAbort(inputs, mode, i) == i;
        status := Err(failure.value);
        return;
      }
      i := i + 1;
    }
    status := Ok(());
  }
}
