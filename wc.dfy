/**
 * wc (src/bin/wc.rs): counting lines, words, bytes and characters, the
 * fixed-width columns, the default columns, and the totals line.
 */
module Wc {
  import opened Text
  import opened Files
  import Utf8

  datatype FileInfo = FileInfo(bytes: nat, chars: nat, lines: nat, words: nat)

  /** The four measures of a whole text: its UTF-8 length, its number of
      characters, its number of `read_line` pieces and its number of words. */
  function Measure(content: string): FileInfo
  {
    FileInfo(|Utf8.EncodeString(content)|, |content|, |Chunks(content, NL)|, CountWords(content))
  }

  lemma {:induction false} FlattenEndsWithNewline(chunks: seq<string>, content: string, i: nat)
    requires chunks == Chunks(content, NL)
    requires 0 < i < |chunks|
    ensures |Flatten(chunks[..i])| > 0 && Flatten(chunks[..i])[|Flatten(chunks[..i])| - 1] == NL
  {
    FlattenPrefixStep(chunks, i - 1);
    ChunkShape(content, NL, i - 1);
  }

  /** Reading one more piece adds its bytes, characters and words to those of
      the text read so far. */
  lemma CountStep(chunks: seq<string>, content: string, i: nat)
    requires chunks == Chunks(content, NL)
    requires i < |chunks|
    ensures var read, next := Flatten(chunks[..i]), Flatten(chunks[..i + 1]);
      && |Utf8.EncodeString(next)| == |Utf8.EncodeString(read)| + |Utf8.EncodeString(chunks[i])|
      && |next| == |read| + |chunks[i]|
      && CountWords(next) == CountWords(read) + CountWords(chunks[i])
  {
    var read := Flatten(chunks[..i]);
    FlattenPrefixStep(chunks, i);
    Utf8.EncodeStringAppend(read, chunks[i]);
    if i > 0 {
      FlattenEndsWithNewline(chunks, content, i);
    }
    CountWordsAppend(read, chunks[i]);
  }

  /** `count`: line by line, adding each line's bytes, characters and words. A
      word never spans two pieces, because every piece but the last ends with
      the newline, so the sums are the measures of the whole text. */
  method Count(content: string) returns (info: FileInfo)
    ensures info == Measure(content)
    ensures info.lines == Text.Count(content, NL) + (if |content| > 0 && content[|content| - 1] != NL then 1 else 0)
  {
    var chunks := Chunks(content, NL);
    info := FileInfo(0, 0, 0, 0);
    var i := 0;
    while i < |chunks|
      invariant 0 <= i <= |chunks|
      invariant info.bytes == |Utf8.EncodeString(Flatten(chunks[..i]))|
      invariant info.chars == |Flatten(chunks[..i])|
      invariant info.lines == i
      invariant info.words == CountWords(Flatten(chunks[..i]))
    {
      CountStep(chunks, content, i);
      var line := chunks[i];
      info := FileInfo(info.bytes + |Utf8.EncodeString(line)|, info.chars + |line|,
                       info.lines + 1, info.words + CountWords(line));
      i := i + 1;
    }
    assert chunks[..i] == chunks;
    FlattenChunks(content, NL);
    ChunkCount(content, NL);
  }

  /** The measures of five pieces, each of the first four ending in a space
      and the last in a newline, add up. */
  lemma FivePieces(a: string, b: string, c: string, d: string, e: string)
    requires a != [] && a[|a| - 1] == ' ' && b != [] && b[|b| - 1] == ' '
    requires c != [] && c[|c| - 1] == ' ' && d != [] && d[|d| - 1] == ' '
    requires e != [] && e[|e| - 1] == NL
    ensures Measure(a + (b + (c + (d + e))))
         == FileInfo(|Utf8.EncodeString(a)| + |Utf8.EncodeString(b)| + |Utf8.EncodeString(c)|
                       + |Utf8.EncodeString(d)| + |Utf8.EncodeString(e)|,
                     |a| + |b| + |c| + |d| + |e|,
                     Text.Count(a, NL) + Text.Count(b, NL) + Text.Count(c, NL) + Text.Count(d, NL) + Text.Count(e, NL),
                     CountWords(a) + CountWords(b) + CountWords(c) + CountWords(d) + CountWords(e))
  {
    var de := d + e;
    var cde := c + de;
    var bcde := b + cde;
    var s := a + bcde;
    assert s[|s| - 1] == NL by {
      assert de[|de| - 1] == NL;
      assert cde[|cde| - 1] == NL;
      assert bcde[|bcde| - 1] == NL;
    }
    assert |Chunks(s, NL)| == Text.Count(s, NL) by {
      ChunkCount(s, NL);
    }
    FiveBytes(a, b, c, d, e);
    FiveNewlines(a, b, c, d, e);
    FiveWords(a, b, c, d, e);
    assert Measure(s) == FileInfo(|Utf8.EncodeString(s)|, |s|, Text.Count(s, NL), CountWords(s));
  }

  lemma FiveBytes(a: string, b: string, c: string, d: string, e: string)
    ensures |Utf8.EncodeString(a + (b + (c + (d + e))))|
         == |Utf8.EncodeString(a)| + |Utf8.EncodeString(b)| + |Utf8.EncodeString(c)|
            + |Utf8.EncodeString(d)| + |Utf8.EncodeString(e)|
  {
    Utf8.EncodeStringAppend(d, e);
    Utf8.EncodeStringAppend(c, d + e);
    Utf8.EncodeStringAppend(b, c + (d + e));
    Utf8.EncodeStringAppend(a, b + (c + (d + e)));
  }

  lemma FiveNewlines(a: string, b: string, c: string, d: string, e: string)
    ensures Text.Count(a + (b + (c + (d + e))), NL)
         == Text.Count(a, NL) + Text.Count(b, NL) + Text.Count(c, NL) + Text.Count(d, NL) + Text.Count(e, NL)
  {
    CountAppend(d, e, NL);
    CountAppend(c, d + e, NL);
    CountAppend(b, c + (d + e), NL);
    CountAppend(a, b + (c + (d + e)), NL);
  }

  lemma FiveWords(a: string, b: string, c: string, d: string, e: string)
    requires a != [] && a[|a| - 1] == ' ' && b != [] && b[|b| - 1] == ' '
    requires c != [] && c[|c| - 1] == ' ' && d != [] && d[|d| - 1] == ' '
    ensures CountWords(a + (b + (c + (d + e))))
         == CountWords(a) + CountWords(b) + CountWords(c) + CountWords(d) + CountWords(e)
  {
    assert IsWhitespace(' ');
    CountWordsAppend(d, e);
    CountWordsAppend(c, d + e);
    CountWordsAppend(b, c + (d + e));
    CountWordsAppend(a, b + (c + (d + e)));
  }

  lemma ShortWordsBytes()
    ensures |Utf8.EncodeString("Join ")| == 5 && |Utf8.EncodeString("the ")| == 4
    ensures |Utf8.EncodeString("dark ")| == 5 && |Utf8.EncodeString("side ")| == 5
  {
  }

  lemma ShortWordsLines()
    ensures Text.Count("Join ", NL) == 0 && Text.Count("the ", NL) == 0
    ensures Text.Count("dark ", NL) == 0 && Text.Count("side ", NL) == 0
  {
  }

  lemma ShortWordsWords()
    ensures CountWords("Join ") == 1 && CountWords("the ") == 1
    ensures CountWords("dark ") == 1 && CountWords("side ") == 1
  {
  }

  lemma MoonWord(moon: string)
    requires moon == ['\U{1F315}'] + ".\r\n"
    ensures CountWords(moon) == 1
    ensures |Utf8.EncodeString(moon)| == 7
    ensures Text.Count(moon, NL) == 1 && moon[|moon| - 1] == NL
  {
    assert !IsWhitespace('\U{1F315}') && moon[0] == '\U{1F315}' && moon[1..] == ".\r\n";
    assert WordsFrom(".\r\n", true) == 0;
  }

  /** The example of the source's unit test: one line, five words, 23 characters
      in 26 bytes (the moon emoji takes four bytes). */
  lemma MeasureExample(s: string)
    requires s == "Join the dark side \U{1F315}.\r\n"
    ensures Measure(s) == FileInfo(26, 23, 1, 5)
  {
    var moon := ['\U{1F315}'] + ".\r\n";
    assert s == "Join " + ("the " + ("dark " + ("side " + moon)));
    MeasurePieces(moon);
  }

  lemma MeasurePieces(moon: string)
    requires moon == ['\U{1F315}'] + ".\r\n"
    ensures Measure("Join " + ("the " + ("dark " + ("side " + moon)))) == FileInfo(26, 23, 1, 5)
  {
    MoonWord(moon);
    FivePieces("Join ", "the ", "dark ", "side ", moon);
    ShortWordsBytes();
    ShortWordsLines();
    ShortWordsWords();
  }

  // ------------------------------------------------------------------
  // Columns
  // ------------------------------------------------------------------

  /** `format_info`: a selected value right-aligned in five columns (wider when
      it has more digits); an unselected one takes no room at all. */
  function FormatInfo(flag: bool, value: nat): (r: string)
    ensures !flag ==> r == ""
    ensures flag ==> |r| == (if |NatToString(value)| >= 5 then |NatToString(value)| else 5)
    ensures flag ==> r[|r| - |NatToString(value)|..] == NatToString(value)
    ensures flag ==> forall i :: 0 <= i < |r| - |NatToString(value)| ==> r[i] == ' '
  {
    if flag then PadLeft(NatToString(value), 5) else ""
  }

  /** Which columns are printed. */
  datatype Flags = Flags(bytes: bool, chars: bool, lines: bool, words: bool)

  /** `get_args`: with no column chosen, lines, words and bytes are shown. */
  function WithDefaults(f: Flags): (r: Flags)
    ensures r.bytes || r.chars || r.lines || r.words
    ensures (f.bytes || f.chars || f.lines || f.words) ==> r == f
    ensures !(f.bytes || f.chars || f.lines || f.words) ==> r == Flags(true, false, true, true)
  {
    if !f.lines && !f.chars && !f.bytes && !f.words then Flags(true, false, true, true) else f
  }

  /** The columns in their fixed order: lines, words, bytes, characters. */
  function Columns(flags: Flags, info: FileInfo): string
  {
    FormatInfo(flags.lines, info.lines) + FormatInfo(flags.words, info.words)
    + FormatInfo(flags.bytes, info.bytes) + FormatInfo(flags.chars, info.chars)
  }

  /** Every selected column takes at least five characters, and the columns
      appear in the order lines, words, bytes, characters. The case with all
      four columns cannot come from the command line, which refuses -c
      together with -m; it shows the order of all four. */
  lemma ColumnsLayout(flags: Flags, info: FileInfo)
    ensures |Columns(flags, info)| >= 5 * ((if flags.lines then 1 else 0) + (if flags.words then 1 else 0)
                                          + (if flags.bytes then 1 else 0) + (if flags.chars then 1 else 0))
    ensures flags == Flags(false, false, true, false) ==> Columns(flags, info) == PadLeft(NatToString(info.lines), 5)
    ensures flags == Flags(true, false, false, false) ==> Columns(flags, info) == PadLeft(NatToString(info.bytes), 5)
    ensures WithDefaults(flags) == Flags(true, false, true, true) ==>
      Columns(WithDefaults(flags), info)
      == PadLeft(NatToString(info.lines), 5) + PadLeft(NatToString(info.words), 5) + PadLeft(NatToString(info.bytes), 5)
    ensures flags == Flags(true, true, true, true) ==>
      Columns(flags, info)
      == PadLeft(NatToString(info.lines), 5) + PadLeft(NatToString(info.words), 5)
         + PadLeft(NatToString(info.bytes), 5) + PadLeft(NatToString(info.chars), 5)
  {
    if WithDefaults(flags) == Flags(true, false, true, true) {
      var d := WithDefaults(flags);
      assert FormatInfo(d.chars, info.chars) == "";
      assert Columns(d, info) == FormatInfo(true, info.lines) + FormatInfo(true, info.words) + FormatInfo(true, info.bytes) + "";
    }
    var l, w := FormatInfo(flags.lines, info.lines), FormatInfo(flags.words, info.words);
    var b, c := FormatInfo(flags.bytes, info.bytes), FormatInfo(flags.chars, info.chars);
    assert Columns(flags, info) == l + w + b + c;
    assert |l| >= (if flags.lines then 5 else 0) && |w| >= (if flags.words then 5 else 0);
    assert |b| >= (if flags.bytes then 5 else 0) && |c| >= (if flags.chars then 5 else 0);
    if flags == Flags(false, false, true, false) {
      assert w == b == c == "";
      assert l + w == l;
      assert l + w + b == l;
    }
    if flags == Flags(true, false, false, false) {
      assert l == w == c == "";
      assert l + w == "";
      assert l + w + b == b;
    }
  }

  // ------------------------------------------------------------------
  // run
  // ------------------------------------------------------------------

  function Add(a: FileInfo, b: FileInfo): FileInfo
  {
    FileInfo(a.bytes + b.bytes, a.chars + b.chars, a.lines + b.lines, a.words + b.words)
  }

  /** The sum of the measures of the files that could be opened. */
  function Total(inputs: seq<Input>): FileInfo
  {
    if inputs == [] then FileInfo(0, 0, 0, 0)
    else
      var last := inputs[|inputs| - 1];
      var rest := Total(inputs[..|inputs| - 1]);
      if last.Opened? then Add(rest, Measure(last.content)) else rest
  }

  /** The contents of the files that could be opened, one after the other. */
  function Concatenation(inputs: seq<Input>): string
  {
    if inputs == [] then ""
    else
      var last := inputs[|inputs| - 1];
      var rest := Concatenation(inputs[..|inputs| - 1]);
      if last.Opened? then rest + last.content else rest
  }

  predicate EndsWithNewline(s: string)
  {
    s == [] || s[|s| - 1] == NL
  }

  lemma ChunksAppend(a: string, b: string)
    requires EndsWithNewline(a)
    ensures |Chunks(a + b, NL)| == |Chunks(a, NL)| + |Chunks(b, NL)|
  {
    ChunkCount(a + b, NL);
    ChunkCount(a, NL);
    ChunkCount(b, NL);
    CountAppend(a, b, NL);
    if b == [] {
      assert a + b == a;
    } else {
      assert (a + b)[|a + b| - 1] == b[|b| - 1];
    }
  }

  /** Measures add up across a newline: no line and no word is split there. */
  lemma MeasureAppend(a: string, b: string)
    requires EndsWithNewline(a)
    ensures Measure(a + b) == Add(Measure(a), Measure(b))
    ensures EndsWithNewline(b) ==> EndsWithNewline(a + b)
  {
    Utf8.EncodeStringAppend(a, b);
    CountWordsAppend(a, b);
    ChunksAppend(a, b);
    if b != [] {
      assert (a + b)[|a + b| - 1] == b[|b| - 1];
    } else {
      assert a + b == a;
    }
  }

  /** When every file ends with a newline, the totals line reports exactly the
      measures of all the files read as one text. */
  lemma {:induction false} TotalIsConcatenation(inputs: seq<Input>)
    requires forall i :: 0 <= i < |inputs| && inputs[i].Opened? ==> EndsWithNewline(inputs[i].content)
    ensures Total(inputs) == Measure(Concatenation(inputs))
    ensures EndsWithNewline(Concatenation(inputs))
  {
    if inputs == [] {
      assert Measure("") == FileInfo(0, 0, 0, 0);
    } else {
      var init := inputs[..|inputs| - 1];
      var last := inputs[|inputs| - 1];
      assert forall i :: 0 <= i < |init| ==> init[i] == inputs[i];
      TotalIsConcatenation(init);
      if last.Opened? {
        MeasureAppend(Concatenation(init), last.content);
      }
    }
  }

  /** The line printed for one file; standard input is shown without a name. */
  function Report(flags: Flags, input: Input): seq<string>
  {
    match input
    case Unopenable(_, _) => []
    case Opened(name, content) =>
      [Columns(flags, Measure(content)) + " " + (if name == "-" then "" else name) + "\n"]
  }

  function Complaint(input: Input): seq<string>
  {
    match input
    case Unopenable(name, io) => ["wc: '" + name + "': " + OpenError(name, io) + "\n"]
    case Opened(_, _) => []
  }

  /** The totals line, printed only when more than one file was named. */
  function TotalLine(flags: Flags, inputs: seq<Input>): seq<string>
  {
    if |inputs| > 1 then [Columns(flags, Total(inputs)) + " total\n"] else []
  }

  /** `run`: one line per file that opens, a complaint for each that does not,
      and the totals of the opened files when several files were named. */
  method Run(flags: Flags, inputs: seq<Input>) returns (stdout: seq<string>, stderr: seq<string>)
    ensures stdout == Flatten(seq(|inputs|, i requires 0 <= i < |inputs| => Report(flags, inputs[i])))
                      + TotalLine(flags, inputs)
    ensures stderr == Flatten(seq(|inputs|, i requires 0 <= i < |inputs| => Complaint(inputs[i])))
  {
    var reports := seq(|inputs|, i requires 0 <= i < |inputs| => Report(flags, inputs[i]));
    var complaints := seq(|inputs|, i requires 0 <= i < |inputs| => Complaint(inputs[i]));
    var total := FileInfo(0, 0, 0, 0);
    stdout, stderr := [], [];
    var i := 0;
    while i < |inputs|
      invariant 0 <= i <= |inputs|
      invariant stdout == Flatten(reports[..i])
      invariant stderr == Flatten(complaints[..i])
      invariant total == Total(inputs[..i])
    {
      FlattenPrefixStep(reports, i);
      FlattenPrefixStep(complaints, i);
      assert inputs[..i + 1][..i] == inputs[..i];
      match inputs[i] {
        case Unopenable(name, io) =>
          stderr := stderr + ["wc: '" + name + "': " + OpenError(name, io) + "\n"];
        case Opened(name, content) =>
          var info := Count(content);
          stdout := stdout + [Columns(flags, info) + " " + (if name == "-" then "" else name) + "\n"];
          total := Add(total, info);
      }
      i := i + 1;
    }
    assert reports[..i] == reports && complaints[..i] == complaints && inputs[..i] == inputs;
    if |inputs| > 1 {
      stdout := stdout + [Columns(flags, total) + " total\n"];
    }
  }
}
