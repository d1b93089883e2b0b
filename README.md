# Text utilities: cut, tail, wc, comm, uniq, cat, head, grep

A Dafny model of the text-processing core of a small Rust reimplementation of
Unix utilities. Each program under `src/bin/` is one Dafny module with the same
name (`Cut`, `Tail`, `Wc`, `Comm`, `Uniq`, `Cat`, `Head`, `Grep`). The shared
`open_file` helper of `src/lib.rs` is the module `Files`.

Three support modules hold what the programs share:

- `Text` models `read_line` and `read_until`. Both hand out the pieces of a
  text up to and including each separator (`Chunks`). `Lines` models
  `BufRead::lines`, which drops "\n" or "\r\n". `Text` also holds `split`,
  decimal rendering and parsing, padding, `trim_end` and `split_whitespace`.
- `Utf8` models `str::as_bytes` and `String::from_utf8_lossy`. The encoder
  follows RFC 3629. The decoder replaces each maximal invalid subpart with
  U+FFFD.
- `Wrappers` holds `Option` and `Result`.

## How the model works

- Files are values. An `Input` is either a name the operating system refused
  to open, with the text of its error, or the name and content of a file
  that opened.
- For cat, wc, uniq, head and cut, the caller supplies what each "-" reads,
  as the content of its `Input`. Each "-" after the first reads what is left
  of standard input, which is nothing once an earlier one has read to the
  end; a caller modelling that passes an empty content. tail and grep
  derive this themselves from one standard input.
- Standard output and standard error are the text the program writes, or
  the sequence of its writes.
- The exit status, or the error `run` returns, is part of the result.
- Most loops of the source are methods with `while` loops. Each method is
  proved equal to a function that says what the loop computes. Lemmas then
  state what that function means.

### Behaviour of the source, modelled as written

- `cut` never clears its line buffer in the byte and character loops. Line
  k therefore prints the selection applied to the first k lines joined
  together. `CutRepeatsFirstLine` shows the consequence.
- `cut` and `head` print the blank separator line before every file at a
  position after the first, whether or not the earlier files could be
  opened.
- `uniq` starts with an empty "previous" line. Its first flush is an empty
  group, which prints nothing. When the input begins with blank lines,
  their trimmed form equals the empty previous line, so they join that
  first group. It then prints no line text: nothing by default, and with -c
  only its count and a space. So "\n\na\n" prints "a\n", and with -c
  "      2       1 a\n" (`LeadingBlankLines`, `BlankLinesVanish`).
- In `comm`, the column for lines in both files always carries two
  delimiters, even when column 1 or column 2 is suppressed.
- `tail` opens each file with `File::open`, for which "-" is an ordinary
  file name. It counts the totals through `open_file`, for which "-" is
  standard input. Counting reads standard input to its end, so every "-"
  after the first counts no lines and no bytes and prints nothing but its
  separator and header (`StdinLeft`, `LaterStdinPrintsNothing`).
- In `cut`, a bare numeral equal to the largest usize makes `first + 1`
  overflow. The model follows a release build, where the sum wraps to 0:
  the range is [usize::MAX, 0), which selects nothing (`WRAPPED`,
  `WrappedSelectsNothing`).
- In `grep`, `find_lines` reads a "-" to the end of standard input, so a
  later "-" finds nothing: no lines, and a count of 0 with -c
  (`LaterStdinFindsNothing`, `CountStdinTwice`).
- `tail`'s default count `Num(10)` reaches the program through its
  rendering "10", so it becomes -10, the last ten lines
  (`DefaultIsLastTen`).
- `head -c n` uses `read_exact`. On a shorter file the run ends with "failed
  to fill whole buffer", after that file's separator and header.

### Parameters of the model

- Regular-expression matching in `grep` is a predicate on lines. The `-i`
  flag only changes the regular expression, so it is part of that
  predicate.
- `to_lowercase` in `comm` is a function on strings.
- The CSV reader in `cut` is a function from text and delimiter to records
  or malformed rows.
- For `grep`, what `fs::metadata` and the directory walk report for a path
  is a function from path to `PathInfo`.

## Model

| member | source | states |
|---|---|---|
| Files.OpenFile | src/lib.rs:8-19 | "-" always opens as standard input; any other name opens exactly when the file system gives its text, and a refusal keeps the name |
| Files.OpenError | src/lib.rs:8-19 | the error for a file that cannot be opened is its name, ": ", then the system's message, and nothing else |
| Utf8.EncodeChar | src/bin/cut.rs:137-138 | a character encodes to 1 to 4 bytes, and to a single byte exactly when it is ASCII |
| Utf8.EncodeStringAppend | src/bin/cut.rs:137-138 | the byte form of a concatenation is the concatenation of the byte forms |
| Utf8.EncodeStringLength | src/bin/wc.rs:69-70 | a text has at least as many bytes as characters |
| Utf8.EncodeAscii | src/bin/cut.rs:137-138 | an ASCII text's bytes are its character codes, one per character |
| Utf8.SingleByte | src/bin/cut.rs:78-85 | a text is one byte long exactly when it is one ASCII character |
| Utf8.ValidTail | src/bin/cut.rs:149 | the continuation bytes the decoder accepts after a lead byte are fewer than the sequence needs and fit in the input |
| Utf8.DecodeEncodedChar | src/bin/cut.rs:149 | lossy decoding reads an encoded character back as that character, then goes on with what follows |
| Utf8.DecodeEncode | src/bin/cut.rs:149 | lossy decoding of a valid encoding returns the text unchanged, with no replacement character |
| Text.ChunkLen | src/bin/wc.rs:63-67 | one `read_line` reads at least one byte, and stops early only just after a separator |
| Text.ChunkLenNoSeparator | src/bin/wc.rs:63-67 | a piece read by `read_line` holds no separator before its last element |
| Text.FlattenChunks | src/bin/wc.rs:63-74 | the pieces handed out, joined, are the whole input |
| Text.ChunkShape | src/bin/wc.rs:63-74 | every piece is non-empty, holds a separator only at its end, and every piece but the last ends in one |
| Text.ChunkCount | src/bin/tail.rs:104-121 | the number of pieces is the number of separators, plus one when the input ends without one |
| Text.FirstChunkCount | src/bin/tail.rs:110 | the first piece holds one separator when it ends in one, and none otherwise |
| Text.ChunksWithoutSeparator | src/bin/cat.rs:44 | a non-empty text without a separator is read as one piece |
| Text.CountAppend | src/bin/wc.rs:68-71 | counting occurrences adds up over a concatenation |
| Text.CountAbsent | src/bin/wc.rs:68 | a text without the item counts zero of it |
| Text.LinesShape | src/bin/cat.rs:44 | `lines()` yields one line per piece, and no line contains "\n" |
| Text.IndexOf | src/bin/cut.rs:105-106 | the position found is the first occurrence of the character, or the length when it is absent |
| Text.Split | src/bin/cut.rs:89-90 | `split` always yields at least one part |
| Text.SplitJoin | src/bin/cut.rs:89-90 | the parts joined with the separator give back the text, no part contains the separator, and there is one more part than separators |
| Text.Digit | src/bin/wc.rs:81 | a digit value renders as a decimal digit character |
| Text.NatToString | src/bin/wc.rs:81 | rendering a count gives a numeral |
| Text.NatToStringRoundTrip | src/bin/cut.rs:97-98 | the value of a rendered numeral is the number rendered |
| Text.ParseIntRoundTrip | src/bin/tail.rs:25 | parsing the rendering of any integer gives it back |
| Text.PadLeft | src/bin/wc.rs:81 | right alignment in a width: the text at the end, spaces before it, length the larger of width and text length |
| Text.TrimEndMeaning | src/bin/uniq.rs:96 | `trim_end` gives a prefix that does not end in whitespace, and everything it cuts off is whitespace |
| Text.WordsFromAppend | src/bin/wc.rs:71 | word starts in a concatenation are those of each part, with the second part's scan continuing the first's state |
| Text.CountWordsAppend | src/bin/wc.rs:71 | after text ending in whitespace, word counts add up |
| Cut.ParseTokenGrammar | src/bin/cut.rs:88-114 | a token gives the "invalid list value" error exactly when it does not match `^(\d+)(-\d+)?$`; otherwise it gives a non-empty range, an overflow error or the ordering error, except that the numeral usize::MAX alone, and only it, gives the wrapped-around range [usize::MAX, 0) |
| Cut.ParseSingle | src/bin/cut.rs:96-103 | a numeral n gives [n, n+1) below usize::MAX, the wrapped-around [usize::MAX, 0) at usize::MAX, and otherwise the "invalid value" error naming it |
| Cut.ParsePair | src/bin/cut.rs:101-114 | "a-b" gives [a, b) when a < b and the ordering error otherwise, "1-1" included |
| Cut.DashAfterNumeral | src/bin/cut.rs:88 | in a token that starts with digits, a dash right after them is the first dash |
| Cut.ParseAll | src/bin/cut.rs:89-118 | a successful parse gives one range per token, in order; a failure is the error of a token all of whose predecessors parsed |
| Cut.ParsedRangesNonEmpty | src/bin/cut.rs:96-114 | every range of a successful parse is non-empty, except the wrapped-around range of a token that is the numeral usize::MAX |
| Cut.WrappedSelectsNothing | src/bin/cut.rs:101-102 | the wrapped-around range of usize::MAX adds nothing to any selection |
| Cut.ParseRangesRejects | src/bin/cut.rs:256-260 | "" and "+1" are rejected as invalid list values naming the token |
| Cut.SelectFrom | src/bin/cut.rs:121-134 | a selection is never longer than what it selects from |
| Cut.SelectedShape | src/bin/cut.rs:127 | the chosen indices are strictly ascending, lie in bounds, and are exactly those some range contains |
| Cut.SelectFromPicks | src/bin/cut.rs:125-133 | the selection lists the elements at the chosen indices, in order |
| Cut.SelectMeaning | src/bin/cut.rs:121-134 | selection keeps element i exactly when some range contains i, each once, in index order |
| Cut.SelectFromSameMembership | src/bin/cut.rs:127 | two range lists that contain the same indices select the same elements |
| Cut.SelectIgnoresDeclarationOrder | src/bin/cut.rs:285 | reordering or repeating the ranges changes neither what is selected nor its order |
| Cut.SelectFromAll | src/bin/cut.rs:127 | ranges covering every index from i on select the whole rest |
| Cut.SelectAll | src/bin/cut.rs:284 | ranges covering every index select everything |
| Cut.SelectFromBeyond | src/bin/cut.rs:121-134 | no range beyond an index selects nothing from there on |
| Cut.SelectFromPrefix | src/bin/cut.rs:127 | text after the last range's end does not change the selection |
| Cut.SelectPrefixStable | src/bin/cut.rs:121-134 | when every range ends within s, whatever follows s changes nothing |
| Cut.ExtractCharsMeaning | src/bin/cut.rs:121-134 | the characters kept are exactly those at indices some range contains, in line order, never more than the line has and none the line lacks |
| Cut.ExtractFieldsMeaning | src/bin/cut.rs:152-164 | the fields kept are exactly those at indices some range contains, in record order, each once |
| Cut.ExtractBytesWhole | src/bin/cut.rs:136-150 | selecting every byte gives the line back unchanged |
| Cut.SelectFromAscii | src/bin/cut.rs:136-147 | on ASCII text, selecting bytes is the encoding of selecting characters |
| Cut.ExtractBytesAscii | src/bin/cut.rs:121-150 | on ASCII text byte and character selection agree |
| Cut.ExtractFieldsExample | src/bin/cut.rs:307 | fields come out in record order, not range order |
| Cut.ExtractBytesSplitsCharacter | src/bin/cut.rs:291 | cutting a two-byte character in half yields U+FFFD |
| Cut.ExtractBytesWholeCharacter | src/bin/cut.rs:293 | a byte range ending on a character boundary keeps whole characters |
| Cut.ParseDelimiterMeaning | src/bin/cut.rs:78-85 | a delimiter is accepted exactly when it is a single ASCII character, its code is the byte, and otherwise the error says it must be a single byte |
| Cut.CutLines | src/bin/cut.rs:190-211 | the byte or character loop prints, for the k-th line read, the selection of the never-cleared buffer holding lines 1..k, then a newline |
| Cut.FlattenChunksPrefix | src/bin/cut.rs:193 | the first line read is a prefix of the buffer after any number of reads |
| Cut.CutRepeatsFirstLine | src/bin/cut.rs:201-211 | when every range ends within the first line, every line printed for a file repeats the first |
| Cut.CutRecords | src/bin/cut.rs:212-226 | the field loop writes each record's selected fields with the delimiter, up to the first malformed row, whose error it returns |
| Cut.CutInput | src/bin/cut.rs:177-227 | one file: an open failure is reported on standard error and the file skipped; otherwise the separator when its position is not the first, then its output; a CSV error stops the run |
| Cut.FirstAbort | src/bin/cut.rs:222-223 | the position of the first file whose CSV error stops the run, every file before it not stopping it |
| Cut.Run | src/bin/cut.rs:166-231 | without a CSV error the run succeeds with every file's output and complaint; otherwise it fails with the first CSV error, after the output up to and including that file |
| Tail.ParseI64 | src/bin/tail.rs:25 | a count parses exactly when it is an integer within the i64 range |
| Tail.FromStrMeaning | src/bin/tail.rs:17-31 | "+0" and only "+0" is PlusZero; a count written with '+' keeps its value; any other count becomes minus its magnitude |
| Tail.DisplayRoundTrip | src/bin/tail.rs:17-40 | rendering and parsing again keeps "+0", zero and negative counts, and negates positive ones |
| Tail.DefaultIsLastTen | src/bin/tail.rs:63 | the default count, passed through its rendering, selects the last ten items |
| Tail.GetStartIndex | src/bin/tail.rs:123-143 | a start index, when there is one, lies inside the text |
| Tail.TakenMeaning | src/bin/tail.rs:123-143 | "+0" takes everything; -n the last n items, or all when fewer; +n every item from the n-th on, or nothing past the end; 0 nothing |
| Tail.GetStartIndexExamples | src/bin/tail.rs:196-202 | the start indices of the unit test |
| Tail.GetLinesBytes | src/bin/tail.rs:104-121 | the line total counts newlines plus an unterminated last line, and the byte total is the length |
| Tail.PrintLines | src/bin/tail.rs:145-165 | print_lines prints each piece from the start index on, decoded on its own, and nothing when there is no start index |
| Tail.PrintFrom | src/bin/tail.rs:147-161 | the read loop prints exactly the pieces at positions from the start on, in order |
| Tail.DecodedFromStep | src/bin/tail.rs:155-159 | reading one more piece adds its decoding exactly when its position is at least the start |
| Tail.LastLines | src/bin/tail.rs:139 | with totals counted from the same text, -n prints the last n lines, or all when fewer |
| Tail.FromLine | src/bin/tail.rs:139 | with totals counted from the same text, +n prints from the n-th line on |
| Tail.PrintBytes | src/bin/tail.rs:167-178 | print_bytes writes at most once, and nothing exactly when no byte is taken; -c +n prints the bytes from the n-th on and -c +0 every byte, decoded together |
| Tail.LastBytes | src/bin/tail.rs:167-178 | with the total counted from the same bytes, -c -n prints the last n bytes decoded together |
| Tail.TailFile | src/bin/tail.rs:84-98 | one opened file prints the separator for a position after the first, the header when headers are on, then its lines or bytes |
| Tail.FirstMissing | src/bin/tail.rs:84 | the position of the first file that cannot be opened, every file before it present |
| Tail.StdinLeft | src/bin/tail.rs:104-121 | each "-" counts the standard input left by the files before it: all of it for the first "-", nothing for a later one |
| Tail.LaterStdinPrintsNothing | src/bin/tail.rs:92-135 | a "-" after an earlier "-" prints only its separator and header |
| Tail.Run | src/bin/tail.rs:81-102 | the first file that cannot be opened ends the run with its error, after the output of the files before it; headers appear only for several files without -q; standard input is used up by the first "-" |
| Wc.Count | src/bin/wc.rs:54-77 | the counts are the byte length, character length, words and lines of the text; lines are newlines plus an unterminated last line |
| Wc.CountStep | src/bin/wc.rs:68-71 | each line read adds its own bytes, characters and words |
| Wc.FlattenEndsWithNewline | src/bin/wc.rs:64 | the text read before a later line ends in a newline |
| Wc.FiveBytes | src/bin/wc.rs:69 | bytes add up over five pieces |
| Wc.FiveNewlines | src/bin/wc.rs:68 | newlines add up over five pieces |
| Wc.FiveWords | src/bin/wc.rs:71 | words add up over pieces that end in whitespace |
| Wc.MeasurePieces | src/bin/wc.rs:153-167 | the unit test's text, as five pieces, counts 26 bytes, 23 characters, 1 line and 5 words |
| Wc.MeasureExample | src/bin/wc.rs:153-167 | the unit test: "Join the dark side 🌕.\r\n" counts 26 bytes, 23 characters, 1 line and 5 words |
| Wc.FormatInfo | src/bin/wc.rs:79-85 | a shown count is right-aligned in five columns, and a hidden one prints nothing |
| Wc.WithDefaults | src/bin/wc.rs:128-139 | without -l, -w, -c or -m the counts shown are lines, words and bytes; otherwise the flags are kept |
| Wc.ColumnsLayout | src/bin/wc.rs:98-101 | every shown count takes at least five columns; the default columns are lines, words, bytes, and all four are lines, words, bytes, characters, each count right-aligned in five columns |
| Wc.ChunksAppend | src/bin/wc.rs:63-74 | after a text ending in a newline, the lines of the concatenation are those of each part |
| Wc.MeasureAppend | src/bin/wc.rs:109-112 | the counts of two texts, the first ending in a newline, add up to the counts of their concatenation |
| Wc.TotalIsConcatenation | src/bin/wc.rs:109-123 | the total line counts the concatenation of all files that opened, when each ends in a newline |
| Wc.Run | src/bin/wc.rs:87-126 | each opened file prints its counts and its name (none for "-"); each unopenable one is reported; the total line follows for several files |
| Comm.CompareProperties | src/bin/comm.rs:86 | the comparison says Equal exactly on equal lines, and swapping its arguments swaps Less and Greater |
| Comm.CompareTransitive | src/bin/comm.rs:86 | the comparison is transitive |
| Comm.Merge | src/bin/comm.rs:84-124 | the merge has no more entries than the two inputs have lines |
| Comm.FromFirstLength | src/bin/comm.rs:84-124 | the lines taken from each input are those of its own column plus the shared column |
| Comm.MergeConsumesBoth | src/bin/comm.rs:84-124 | the merge reads every line of both inputs once and in order |
| Comm.MergeCounts | src/bin/comm.rs:84-124 | each input's line count equals its column's entries plus the shared entries |
| Comm.BelowSorted | src/bin/comm.rs:87-92 | a line below the head of a sorted input is not in it |
| Comm.HeadNotInTail | src/bin/comm.rs:99-105 | a sorted input has no repeated head |
| Comm.MergeSortedColumns | src/bin/comm.rs:84-124 | for sorted inputs, a line is in column 3 iff it is in both, column 1 iff only in the first, column 2 iff only in the second |
| Comm.Format | src/bin/comm.rs:89-117 | each entry prints as one line ending in a newline |
| Comm.ShownMeaning | src/bin/comm.rs:88-116 | an entry is printed exactly when its column is not suppressed |
| Comm.FormatAllCons | src/bin/comm.rs:84-124 | the printed text of entries is the first entry's line before the rest's |
| Comm.PrintedIsShown | src/bin/comm.rs:88-116 | the output is the formatted entries of the columns that are not suppressed, in merge order |
| Comm.Cased | src/bin/comm.rs:64-79 | with -i every line is lower-cased and otherwise left alone, one for one |
| Comm.StepFirst | src/bin/comm.rs:87-92 | a smaller line from the first input prints in column 1 and only that input advances |
| Comm.StepSecond | src/bin/comm.rs:93-98 | a smaller line from the second input prints in column 2 and only that input advances |
| Comm.StepBoth | src/bin/comm.rs:99-105 | equal lines print once in column 3 and both inputs advance |
| Comm.Step | src/bin/comm.rs:85-123 | one turn of the loop advances at least one input and prints what the merge puts first |
| Comm.MergeLoop | src/bin/comm.rs:81-124 | the loop prints the merge of the two inputs with suppressed columns left out |
| Comm.Run | src/bin/comm.rs:57-138 | two standard inputs are refused, then the first and second files must open; errors go to standard error with status 1, and otherwise the merge is printed |
| Uniq.GroupsFrom | src/bin/uniq.rs:90-106 | the groups start with the current one, which has at least its count so far |
| Uniq.TilesCons | src/bin/uniq.rs:96-102 | a run of lines with one key, followed by a tiling with a different key, tiles the whole |
| Uniq.GroupsFromTile | src/bin/uniq.rs:90-106 | the groups after lines already grouped tile those lines and the rest |
| Uniq.NewGroupTiles | src/bin/uniq.rs:96-100 | a line with a new key starts a new group and the tiling continues |
| Uniq.SameGroupTiles | src/bin/uniq.rs:102 | a line with the same key joins the current group and the tiling continues |
| Uniq.FlushesTile | src/bin/uniq.rs:90-106 | the groups flushed cover the input exactly, as maximal runs of lines equal after `trim_end` |
| Uniq.TilesCount | src/bin/uniq.rs:102 | the counts of a tiling add up to its number of lines |
| Uniq.CountsAddUp | src/bin/uniq.rs:90-106 | the counts of the groups add up to the number of lines |
| Uniq.LeadingBlankLines | src/bin/uniq.rs:76-100 | leading blank lines join the empty starting group, which prints no line text: nothing by default, only its count and a space with -c |
| Uniq.BlankGroups | src/bin/uniq.rs:76-106 | "\n\na\n" flushes a group of the two blank lines under the empty line, then "a\n" once |
| Uniq.BlankLinesVanish | src/bin/uniq.rs:76-106 | "\n\na\n" prints "a\n", and with -c "      2       1 a\n" |
| Uniq.ChoosePrinter | src/bin/uniq.rs:83-88 | -c wins over -d, which wins over -u; without any of them the default printer is used |
| Uniq.Print | src/bin/uniq.rs:43-71 | an empty group prints nothing, and whatever is printed ends with the group's line |
| Uniq.RepeatedUniquePartition | src/bin/uniq.rs:51-71 | the default output of a group is its -d output or its -u output, never both |
| Uniq.CountPrefix | src/bin/uniq.rs:43-49 | -c prints the count's digits right-aligned in seven columns, with spaces before them, and a space before the line |
| Uniq.EmptyInput | src/bin/uniq.rs:106 | an empty input prints nothing |
| Uniq.ExampleGroups | src/bin/uniq.rs:90-106 | "a a b b b" gives the empty starting group, then two a's and three b's |
| Uniq.RunsOfTwoAndThree | src/bin/uniq.rs:90-106 | "a a b b b" prints "a" and "b" once each |
| Uniq.WrittenAppend | src/bin/uniq.rs:97 | what groups print adds up over a concatenation |
| Uniq.GroupStep | src/bin/uniq.rs:96-102 | one line either flushes the current group and starts a new one, or adds one to its count |
| Uniq.WrittenSnoc | src/bin/uniq.rs:97 | flushing one more group appends its printed form |
| Uniq.NewKeyStep | src/bin/uniq.rs:96-100 | a line with a new key flushes exactly the current group |
| Uniq.SameKeyStep | src/bin/uniq.rs:102 | a line with the same key keeps the decomposition with the count one higher |
| Uniq.Feed | src/bin/uniq.rs:91-103 | one turn of the loop keeps the decomposition of the input into flushed groups and prints what it flushes |
| Uniq.GroupLoop | src/bin/uniq.rs:90-106 | the loop and the final flush print exactly the groups, each through the chosen printer |
| Uniq.GroupLines | src/bin/uniq.rs:90-106 | reading a text prints the output of its groups |
| Uniq.Run | src/bin/uniq.rs:73-119 | an input that cannot be opened is reported with status 1; otherwise the groups are printed with the chosen printer |
| Cat.Numbered | src/bin/cat.rs:47 | a numbered line is the number's digits right-aligned in six columns, with spaces before them, then a tab, the line and a newline |
| Cat.NonBlankBefore | src/bin/cat.rs:49-55 | no more lines are counted as non-empty than there are; none exactly when all are empty, all exactly when none is |
| Cat.RenderStep | src/bin/cat.rs:46-58 | each line prints numbered from the counter (-n, or -b when not empty), bare, or as it is, and the counter rises exactly for numbered lines |
| Cat.NumberLines | src/bin/cat.rs:43-59 | the line loop prints each line as numbering renders it, with the counter starting at 0 |
| Cat.CatFile | src/bin/cat.rs:42-59 | one opened file prints its lines as numbering renders them |
| Cat.AllNonBlank | src/bin/cat.rs:49-55 | when no line is empty, every line is counted |
| Cat.NonBlankWithoutBlanks | src/bin/cat.rs:46-55 | without empty lines -b numbers exactly as -n does |
| Cat.NonBlankConsecutive | src/bin/cat.rs:49-55 | under -b consecutive non-empty lines get consecutive numbers |
| Cat.TerminatedCons | src/bin/cat.rs:57 | terminating lines one by one is the first line's form before the rest |
| Cat.HeadRoundTrip | src/bin/cat.rs:44 | a line ending in "\n" without "\r" prints back as it was read |
| Cat.PlainChunks | src/bin/cat.rs:44-57 | a text without "\r" whose lines all end in "\n" is rebuilt by printing each line with a newline |
| Cat.PlainRoundTrip | src/bin/cat.rs:56-58 | plain cat of such a text prints the text unchanged |
| Cat.UnterminatedLine | src/bin/cat.rs:57 | an unterminated last line gets a newline: "test" prints "test\n" |
| Cat.EmptyFile | src/bin/cat.rs:44 | an empty file prints nothing under any numbering |
| Cat.CatInput | src/bin/cat.rs:36-59 | a file that cannot be opened is reported on standard error; an opened one is printed |
| Cat.Run | src/bin/cat.rs:35-63 | every file in turn is printed or reported, numbering starting afresh with each file |
| Head.PrintLines | src/bin/head.rs:61-70 | the line loop prints the first n pieces read, or all when there are fewer |
| Head.FlattenPrefixIsPrefix | src/bin/head.rs:61-70 | the first k pieces, joined, are a prefix of the text |
| Head.TerminatedCount | src/bin/head.rs:63 | the first k pieces, when more follow, hold exactly k newlines |
| Head.LastTerminated | src/bin/head.rs:63 | the first n pieces, when more follow, end in a newline |
| Head.LinesBodyMeaning | src/bin/head.rs:61-70 | line mode prints a prefix of the file: all of it when it has at most n lines, and otherwise the prefix holding exactly n newlines and ending in one |
| Head.BytesOnCharBoundary | src/bin/head.rs:54-58 | a byte count ending on a character boundary prints those characters unchanged and a newline |
| Head.BytesPastEnd | src/bin/head.rs:55-56 | asking for more bytes than the file holds fails with "failed to fill whole buffer" |
| Head.FirstAbort | src/bin/head.rs:56 | the position of the first file whose short read stops the run, every file before it not stopping it |
| Head.PrintBody | src/bin/head.rs:54-70 | an opened file's body: the decoded bytes and a newline, the short-read error, or the line loop's output |
| Head.HeadFile | src/bin/head.rs:39-70 | one file: an open failure is reported; otherwise the separator when its position is not the first, the header when headers are on, then its body; a short read stops the run |
| Head.Run | src/bin/head.rs:36-74 | headers appear for several files; the first short read ends the run with its error, after the output up to and including that file |
| Grep.Kept | src/bin/grep.rs:106-127 | no more lines are kept than are read |
| Grep.KeptAppend | src/bin/grep.rs:119-120 | a line read is kept exactly when matching and inverting differ |
| Grep.FindLines | src/bin/grep.rs:106-127 | find_lines returns, with their terminators, the lines for which matching and -v differ |
| Grep.KeptMeaning | src/bin/grep.rs:119 | a line is kept exactly when it is in the input and matching and inverting differ |
| Grep.InvertPartitions | src/bin/grep.rs:119 | the lines kept with and without -v together are the input, as a multiset and in number |
| Grep.KeptAll | src/bin/grep.rs:119 | when every line passes, every line is kept |
| Grep.KeptInOrder | src/bin/grep.rs:113-124 | the kept lines are a subsequence of the input, in input order |
| Grep.SubsequenceSkip | src/bin/grep.rs:113-124 | skipping an input line keeps the subsequence relation |
| Grep.SubsequenceTail | src/bin/grep.rs:113-124 | the rest of a subsequence is a subsequence |
| Grep.ResolveAllAppend | src/bin/grep.rs:131-161 | the entries of a list of paths are each path's entries in order |
| Grep.ResolvePath | src/bin/grep.rs:132-160 | one path: "-" and files as they are; a directory by its walk with -r or as an error without it; a metadata error as an error; anything else nothing |
| Grep.FindFiles | src/bin/grep.rs:129-164 | find_files gives every path's entries in command-line order |
| Grep.NonRecursiveEntries | src/bin/grep.rs:131-160 | without -r "-" and a file give themselves, a directory only "<path> is a directory", an unreadable path its error, and any other kind nothing |
| Grep.Emit | src/bin/grep.rs:67-75 | with several entries the file name and ":" come before the text, and otherwise the text alone |
| Grep.PrintFound | src/bin/grep.rs:91-93 | each kept line is printed through the print closure, in order |
| Grep.SearchEntry | src/bin/grep.rs:78-100 | one entry: an opened file's kept lines or their count, and an open or resolution error on standard error |
| Grep.Run | src/bin/grep.rs:65-104 | every entry is searched or reported in turn, with file names when more than one entry was resolved |
| Grep.StdinLeftAt | src/bin/grep.rs:77-85 | each "-" opens what is left of standard input: all of it for the first, nothing once an earlier "-" was searched |
| Grep.Entries | src/bin/grep.rs:77-100 | each result of find_files gives one entry, in order: a name is opened with open_file, the first "-" with all of standard input and every later "-" with nothing left, and an error stays that error |
| Grep.SearchPaths | src/bin/grep.rs:65-104 | run prints what the entries of the resolved paths, opened in turn, print and report, with standard input read once |
| Grep.LaterStdinFindsNothing | src/bin/grep.rs:106-127 | a "-" after an earlier "-" prints no line, and with -c a count of zero |
| Grep.CountStdinTwice | src/bin/grep.rs:65-127 | `grep -c` on "-" "-" with "a\n" on standard input prints "-:1\n-:0\n" |
| Grep.OneDirectoryTwoEntries | src/bin/grep.rs:144-151 | with -r one directory holding two files gives two entries, so names are printed |
| Grep.CountLine | src/bin/grep.rs:88-89 | -c prints the number of kept lines as a numeral and a newline |

## Left out

- Command-line parsing by clap is not modelled: conflicting flags, required
  arguments and help text. Each run takes its options already parsed. The
  exception is the parsers the programs write themselves: `parse_ranges`,
  `parse_delimiter`, `TakeSize::from_str` and wc's defaults.
- Read errors are not modelled, and neither is invalid UTF-8 in the
  line-reading tools. Contents are Dafny strings, so `read_line` never fails
  on them. tail reads bytes and decodes them lossily, and it is modelled on
  bytes. `head -c` also reads raw bytes and decodes them lossily, but its
  input is the UTF-8 encoding of a string, so it never sees bytes that are
  not valid UTF-8 as a whole; only a cut through a character is lossy.
- The CSV reader is a parameter of `Cut.Run`. It gives the rows, or a
  malformed row with its error text. Quoting and escaping are not modelled.
- The regular-expression engine in grep and in cut's token grammar is not
  modelled. The grammar `^(\d+)(-\d+)?$` is written out with ASCII digits.
  A Unicode decimal digit outside ASCII matches `\d`, and would reach the
  "invalid value" error instead; that path is not modelled.
- `to_lowercase` in comm is a parameter, so Unicode case mapping is not
  modelled.
- Directory walking in grep is a parameter giving the files found. The
  order and filtering of WalkDir are not modelled.
- `Grep.ResolvePath`: a path that exists but is neither a regular file nor a
  directory contributes nothing, as in the source.
- uniq's output file (`File::create`) is not modelled. Output goes to
  standard output only.
- The debug quoting of `{:?}` in cut's "invalid list value" message is not
  modelled. The error carries the token, and the message wraps it in
  double quotes, which matches the escaping only for tokens without quotes
  or backslashes.
- Counters are unbounded integers. wc's and uniq's counts are usize, and
  their overflow is not modelled, because it needs more than 2^64 lines.
- `Cat.Numbered`: cat's line counter `n` has no declared type, so it is an
  i32, and `n + 1` overflows after 2^31 - 1 numbered lines of one file (a
  panic in a debug build, a negative number in a release build). The model
  numbers with unbounded naturals and does not capture that bound; the
  same holds for `Cat.Counter` and `Cat.NonBlankBefore`.
- The usize bound of cut's range numerals is modelled: larger numerals are
  errors, and usize::MAX itself overflows as in a release build (see
  `Cut.ParseToken` below). The i64 bound of tail's counts is modelled.
- `Cut.ParseToken`: at usize::MAX, `first + 1` overflows. The model gives
  the release build's wrapped range [usize::MAX, 0). A debug build panics
  instead, and that panic is not modelled.
- `Tail.PrintBytes`: seeking to the start index and reading to the end is
  modelled as taking the bytes from that position. Seek errors are not
  modelled.
- find.rs and echo.rs are not part of this model.
- Process exit is modelled as a status value or an error result, and
  writes to standard output and standard error are modelled as separate
  texts. How the two streams interleave is not modelled.
