/**
 * uniq (src/bin/uniq.rs): adjacent lines whose `trim_end` forms are equal make
 * one group, represented by its first line and counted; each group goes to one
 * of four printers, chosen once from the flags.
 */
module Uniq {
  import opened Text
  import opened Files

  // ------------------------------------------------------------------
  // Grouping
  // ------------------------------------------------------------------

  /** What one call of the printer receives: the remembered `previous` line
      (terminator included) and the running `count`. */
  datatype Group = Group(line: string, count: nat)

  /** The printer calls of the read loop, from a state where `previous` is `p`
      and `count` is `c`: a line whose trimmed form differs from the trimmed
      `previous` flushes the current group and starts a new one with itself;
      the end of input flushes the last group. */
  function GroupsFrom(lines: seq<string>, p: string, c: nat): (gs: seq<Group>)
    ensures |gs| >= 1 && gs[0].line == p && gs[0].count >= c
  {
    if lines == [] then [Group(p, c)]
    else if TrimEnd(lines[0]) != TrimEnd(p) then [Group(p, c)] + GroupsFrom(lines[1..], lines[0], 1)
    else GroupsFrom(lines[1..], p, c + 1)
  }

  /** All printer calls of a run: the loop starts from an empty `previous` and
      a zero count, so the first call always concerns the empty string. */
  function Flushes(lines: seq<string>): seq<Group>
  {
    GroupsFrom(lines, "", 0)
  }

  predicate SameKey(part: seq<string>, line: string)
  {
    forall x :: x in part ==> TrimEnd(x) == TrimEnd(line)
  }

  /** The groups cut the lines into consecutive runs: each group covers `count`
      lines sharing its trimmed form; every group after the first is non-empty,
      is represented by its run's first line verbatim, and differs in trimmed
      form from the group before it, so runs are maximal. */
  predicate Tiles(gs: seq<Group>, lines: seq<string>)
    decreases |gs|
  {
    if gs == [] then lines == []
    else
      var g := gs[0];
      && g.count <= |lines|
      && SameKey(lines[..g.count], g.line)
      && (|gs| > 1 ==> g.count < |lines| && gs[1].count > 0 && lines[g.count] == gs[1].line
                       && TrimEnd(gs[1].line) != TrimEnd(g.line))
      && Tiles(gs[1..], lines[g.count..])
  }

  /** A group over a run of `count` lines with its trimmed form, in front of a
      tiling that starts with a different, non-empty run, extends the tiling. */
  lemma TilesCons(g: Group, rest: seq<Group>, run: seq<string>, others: seq<string>)
    requires |run| == g.count && SameKey(run, g.line)
    requires rest != [] ==> others != [] && rest[0].count > 0 && others[0] == rest[0].line
                            && TrimEnd(rest[0].line) != TrimEnd(g.line)
    requires Tiles(rest, others)
    ensures Tiles([g] + rest, run + others)
  {
    var all := run + others;
    assert all[..g.count] == run && all[g.count..] == others;
    assert ([g] + rest)[1..] == rest;
  }

  lemma {:induction false} GroupsFromTile(lines: seq<string>, p: string, c: nat, pre: seq<string>)
    requires |pre| == c && SameKey(pre, p)
    ensures Tiles(GroupsFrom(lines, p, c), pre + lines)
    decreases |lines|, 1
  {
    if lines == [] {
      TilesCons(Group(p, c), [], pre, []);
      assert pre + lines == pre + [];
    } else if TrimEnd(lines[0]) != TrimEnd(p) {
      NewGroupTiles(lines, p, c, pre);
    } else {
      SameGroupTiles(lines, p, c, pre);
    }
  }

  /** A line with another trimmed form closes the group and opens its own. */
  lemma {:induction false} NewGroupTiles(lines: seq<string>, p: string, c: nat, pre: seq<string>)
    requires |pre| == c && SameKey(pre, p)
    requires lines != [] && TrimEnd(lines[0]) != TrimEnd(p)
    ensures Tiles(GroupsFrom(lines, p, c), pre + lines)
    decreases |lines|, 0
  {
    GroupsFromTile(lines[1..], lines[0], 1, [lines[0]]);
    assert [lines[0]] + lines[1..] == lines;
    TilesCons(Group(p, c), GroupsFrom(lines[1..], lines[0], 1), pre, lines);
  }

  /** A line with the same trimmed form joins the current group. */
  lemma {:induction false} SameGroupTiles(lines: seq<string>, p: string, c: nat, pre: seq<string>)
    requires |pre| == c && SameKey(pre, p)
    requires lines != [] && TrimEnd(lines[0]) == TrimEnd(p)
    ensures Tiles(GroupsFrom(lines, p, c), pre + lines)
    decreases |lines|, 0
  {
    var pre' := pre + [lines[0]];
    assert SameKey(pre', p);
    GroupsFromTile(lines[1..], p, c + 1, pre');
    assert pre' + lines[1..] == pre + lines;
  }

  /** The read loop groups exactly the maximal runs of lines with equal trimmed
      forms (the first group being the one the initial empty `previous` opens). */
  lemma FlushesTile(lines: seq<string>)
    ensures Tiles(Flushes(lines), lines)
  {
    GroupsFromTile(lines, "", 0, []);
    assert [] + lines == lines;
  }

  function SumCounts(gs: seq<Group>): nat
  {
    if gs == [] then 0 else gs[0].count + SumCounts(gs[1..])
  }

  lemma {:induction false} TilesCount(gs: seq<Group>, lines: seq<string>)
    requires Tiles(gs, lines)
    ensures SumCounts(gs) == |lines|
    decreases |gs|
  {
    if gs != [] {
      TilesCount(gs[1..], lines[gs[0].count..]);
    }
  }

  /** Every line read is counted in exactly one group. */
  lemma CountsAddUp(lines: seq<string>)
    ensures SumCounts(Flushes(lines)) == |lines|
  {
    FlushesTile(lines);
    TilesCount(Flushes(lines), lines);
  }

  /** Leading blank lines trim to the empty string, like the initial `previous`,
      so they are counted in the first group, whose line is the empty string:
      the default printers write nothing for them, and -c writes their count
      and a space with no newline, running into the next group's output. */
  lemma LeadingBlankLines(lines: seq<string>)
    requires lines != [] && TrimEnd(lines[0]) == ""
    ensures Flushes(lines)[0] == Group("", Flushes(lines)[0].count)
    ensures Flushes(lines)[0].count >= 1
    ensures Print(PrintDefault, Flushes(lines)[0]) == ""
    ensures Print(PrintRepeated, Flushes(lines)[0]) == "" && Print(PrintUnique, Flushes(lines)[0]) == ""
    ensures Print(PrintCount, Flushes(lines)[0]) == PadLeft(NatToString(Flushes(lines)[0].count), 7) + " "
  {
    assert TrimEnd("") == "";
    assert Flushes(lines) == GroupsFrom(lines[1..], "", 1);
  }

  /** Two blank lines before "a" form the empty starting group, of count 2. */
  lemma BlankGroups(lines: seq<string>)
    requires lines == ["\n", "\n", "a\n"]
    ensures Flushes(lines) == [Group("", 2), Group("a\n", 1)]
  {
    assert IsWhitespace('\n');
    assert TrimEnd("\n") == "" && TrimEnd("a\n") == "a" && TrimEnd("") == "";
    assert GroupsFrom(lines[3..], "a\n", 1) == [Group("a\n", 1)];
    assert GroupsFrom(lines[2..], "", 2) == [Group("", 2), Group("a\n", 1)];
    assert GroupsFrom(lines[1..], "", 1) == [Group("", 2), Group("a\n", 1)];
  }

  // ------------------------------------------------------------------
  // Printers
  // ------------------------------------------------------------------

  datatype Printer = PrintCount | PrintRepeated | PrintUnique | PrintDefault

  /** The printer chosen from -c, -d and -u: count wins over repeated, which
      wins over unique; with none of them, the default printer. */
  function ChoosePrinter(count: bool, repeated: bool, unique: bool): (p: Printer)
    ensures p == PrintCount <==> count
    ensures p == PrintRepeated <==> !count && repeated
    ensures p == PrintUnique <==> !count && !repeated && unique
    ensures p == PrintDefault <==> !count && !repeated && !unique
  {
    if count then PrintCount
    else if repeated then PrintRepeated
    else if unique then PrintUnique
    else PrintDefault
  }

  /** `print_count`, `print_repeated`, `print_unique` and `print_default`: what
      one call writes. A group of zero lines never prints. */
  function Print(p: Printer, g: Group): (r: string)
    ensures g.count == 0 ==> r == ""
    ensures r == "" || (|g.line| <= |r| && r[|r| - |g.line|..] == g.line)
  {
    match p
    case PrintCount => if g.count > 0 then PadLeft(NatToString(g.count), 7) + " " + g.line else ""
    case PrintRepeated => if g.count > 1 then g.line else ""
    case PrintUnique => if g.count == 1 then g.line else ""
    case PrintDefault => if g.count > 0 then g.line else ""
  }

  /** Repeated and unique split what the default printer prints: each printed
      group is written by exactly one of the two. */
  lemma RepeatedUniquePartition(g: Group)
    ensures Print(PrintDefault, g) == Print(PrintRepeated, g) + Print(PrintUnique, g)
    ensures Print(PrintRepeated, g) == "" || Print(PrintUnique, g) == ""
  {
  }

  /** The counting printer writes the default printer's text after the count,
      right-aligned in seven columns, and a space. */
  lemma CountPrefix(g: Group)
    requires g.count > 0
    ensures |Print(PrintCount, g)| == |Print(PrintDefault, g)| + 1 + (if |NatToString(g.count)| >= 7 then |NatToString(g.count)| else 7)
    ensures Print(PrintCount, g)[|Print(PrintCount, g)| - |g.line| - 1..] == " " + g.line
    ensures var r, d := Print(PrintCount, g), NatToString(g.count);
      var w := |r| - |g.line| - 1;
      && |d| <= w
      && r[w - |d|..w] == d
      && forall i :: 0 <= i < w - |d| ==> r[i] == ' '
  {
    var d := NatToString(g.count);
    var pad := PadLeft(d, 7);
    var r := Print(PrintCount, g);
    assert r == pad + (" " + g.line);
    assert r[..|pad|] == pad;
    assert r[|pad| - |d|..|pad|] == pad[|pad| - |d|..];
  }

  function Written(p: Printer, gs: seq<Group>): string
  {
    if gs == [] then "" else Print(p, gs[0]) + Written(p, gs[1..])
  }

  /** The whole output for a text read line by line. */
  function Output(p: Printer, content: string): string
  {
    Written(p, Flushes(Chunks(content, NL)))
  }

  /** Empty input writes nothing, whichever printer: the only call is the final
      one, with a zero count. */
  lemma EmptyInput(p: Printer)
    ensures Output(p, "") == ""
  {
    assert Chunks("", NL) == [];
    assert Flushes([]) == [Group("", 0)];
  }

  lemma ExampleGroups(lines: seq<string>)
    requires lines == ["a\n", "a\n", "b\n", "b\n", "b\n"]
    ensures Flushes(lines) == [Group("", 0), Group("a\n", 2), Group("b\n", 3)]
  {
    assert TrimEnd("a\n") == "a" && TrimEnd("b\n") == "b" && TrimEnd("") == "";
    assert GroupsFrom(lines[5..], "b\n", 3) == [Group("b\n", 3)];
    assert GroupsFrom(lines[4..], "b\n", 2) == [Group("b\n", 3)];
    assert GroupsFrom(lines[3..], "b\n", 1) == [Group("b\n", 3)];
    assert GroupsFrom(lines[2..], "a\n", 2) == [Group("a\n", 2), Group("b\n", 3)];
    assert GroupsFrom(lines[1..], "a\n", 1) == [Group("a\n", 2), Group("b\n", 3)];
  }

  /** The default printer on "a\na\nb\nb\nb\n" writes each run once. */
  lemma RunsOfTwoAndThree(lines: seq<string>)
    requires lines == ["a\n", "a\n", "b\n", "b\n", "b\n"]
    ensures Written(PrintDefault, Flushes(lines)) == "a\nb\n"
  {
    ExampleGroups(lines);
    var g := Flushes(lines);
    assert Written(PrintDefault, g[3..]) == "";
    assert Written(PrintDefault, g[2..]) == "b\n";
    assert Written(PrintDefault, g[1..]) == "a\n" + "b\n";
  }

  lemma SmallCounts()
    ensures PadLeft(NatToString(2), 7) == "      2" && PadLeft(NatToString(1), 7) == "      1"
  {
    assert NatToString(2) == "2" && NatToString(1) == "1";
  }

  /** Two blank lines before "a": the default printer drops them, and -c
      prints their count on the line of the next group. */
  lemma BlankLinesVanish(lines: seq<string>)
    requires lines == ["\n", "\n", "a\n"]
    ensures Written(PrintDefault, Flushes(lines)) == "a\n"
    ensures Written(PrintCount, Flushes(lines)) == "      2       1 a\n"
  {
    BlankGroups(lines);
    var blank, a := Group("", 2), Group("a\n", 1);
    WrittenPair(PrintDefault, blank, a);
    WrittenPair(PrintCount, blank, a);
    SmallCounts();
    assert Print(PrintDefault, blank) == "" && Print(PrintDefault, a) == "a\n";
    assert Print(PrintCount, blank) == "      2" + " " + "";
    assert Print(PrintCount, a) == "      1" + " " + "a\n";
  }

  lemma WrittenPair(p: Printer, g: Group, h: Group)
    ensures Written(p, [g, h]) == Print(p, g) + Print(p, h)
  {
    assert [g, h][1..] == [h] && [h][1..] == [];
    assert Written(p, [h]) == Print(p, h) + Written(p, []);
  }

  // ------------------------------------------------------------------
  // The read loop
  // ------------------------------------------------------------------

  lemma {:induction false} WrittenAppend(p: Printer, a: seq<Group>, b: seq<Group>)
    ensures Written(p, a + b) == Written(p, a) + Written(p, b)
  {
    if a != [] {
      assert (a + b)[0] == a[0];
      assert (a + b)[1..] == a[1..] + b;
      WrittenAppend(p, a[1..], b);
      assert Written(p, a + b) == Print(p, a[0]) + (Written(p, a[1..]) + Written(p, b));
    } else {
      assert a + b == b;
    }
  }

  /** One turn of the read loop, on the printer calls still to come. */
  lemma GroupStep(lines: seq<string>, i: nat, previous: string, count: nat)
    requires i < |lines|
    ensures GroupsFrom(lines[i..], previous, count)
            == if TrimEnd(lines[i]) != TrimEnd(previous)
               then [Group(previous, count)] + GroupsFrom(lines[i + 1..], lines[i], 1)
               else GroupsFrom(lines[i + 1..], previous, count + 1)
  {
    assert lines[i..][1..] == lines[i + 1..];
  }

  lemma WrittenSnoc(p: Printer, flushed: seq<Group>, g: Group)
    ensures Written(p, flushed + [g]) == Written(p, flushed) + Print(p, g)
  {
    WrittenAppend(p, flushed, [g]);
    assert [g][0] == g && [g][1..] == [];
    assert Written(p, [g]) == Print(p, g) + "";
  }

  /** A line with a new key: the group so far is printed and a group of one
      starts with this line. */
  lemma NewKeyStep(p: Printer, lines: seq<string>, i: nat, flushed: seq<Group>, previous: string, count: nat)
    requires i < |lines|
    requires flushed + GroupsFrom(lines[i..], previous, count) == Flushes(lines)
    requires TrimEnd(lines[i]) != TrimEnd(previous)
    ensures (flushed + [Group(previous, count)]) + GroupsFrom(lines[i + 1..], lines[i], 1) == Flushes(lines)
    ensures Written(p, flushed + [Group(previous, count)]) == Written(p, flushed) + Print(p, Group(previous, count))
  {
    GroupStep(lines, i, previous, count);
    assert (flushed + [Group(previous, count)]) + GroupsFrom(lines[i + 1..], lines[i], 1)
           == flushed + ([Group(previous, count)] + GroupsFrom(lines[i + 1..], lines[i], 1));
    WrittenSnoc(p, flushed, Group(previous, count));
  }

  /** A line with the same key joins the current group. */
  lemma SameKeyStep(lines: seq<string>, i: nat, flushed: seq<Group>, previous: string, count: nat)
    requires i < |lines|
    requires flushed + GroupsFrom(lines[i..], previous, count) == Flushes(lines)
    requires TrimEnd(lines[i]) == TrimEnd(previous)
    ensures flushed + GroupsFrom(lines[i + 1..], previous, count + 1) == Flushes(lines)
  {
    GroupStep(lines, i, previous, count);
  }

  /** The loop of `run`: read a line; if its trimmed form differs from the
      trimmed `previous`, print the group so far and remember the new line with
      a zero count; count it. The final group is printed after the loop. */
  method GroupLines(p: Printer, content: string) returns (out: string)
    ensures out == Output(p, content)
  {
    var lines := Chunks(content, NL);
    out := GroupLoop(p, lines);
  }

  /** One turn of the read loop: a line with a new key prints the group so far
      and starts a group of its own; either way the line is counted. */
  method Feed(p: Printer, lines: seq<string>, i: nat, previous: string, count: nat, ghost flushed: seq<Group>)
    returns (printed: string, previous': string, count': nat, ghost flushed': seq<Group>)
    requires i < |lines|
    requires flushed + GroupsFrom(lines[i..], previous, count) == Flushes(lines)
    ensures flushed' + GroupsFrom(lines[i + 1..], previous', count') == Flushes(lines)
    ensures Written(p, flushed') == Written(p, flushed) + printed
  {
    var line := lines[i];
    if TrimEnd(line) != TrimEnd(previous) {
      NewKeyStep(p, lines, i, flushed, previous, count);
      printed := Print(p, Group(previous, count));
      flushed' := flushed + [Group(previous, count)];
      previous', count' := line, 0 + 1;
    } else {
      SameKeyStep(lines, i, flushed, previous, count);
      printed, previous', count', flushed' := "", previous, count + 1, flushed;
    }
  }

  /** The read loop over the pieces `read_line` returns. */
  method GroupLoop(p: Printer, lines: seq<string>) returns (out: string)
    ensures out == Written(p, Flushes(lines))
  {
    var previous, count := "", 0;
    ghost var flushed: seq<Group> := [];
    out := "";
    var i := 0;
    while i < |lines|
      invariant 0 <= i <= |lines|
      invariant flushed + GroupsFrom(lines[i..], previous, count) == Flushes(lines)
      invariant out == Written(p, flushed)
    {
      var printed;
      printed, previous, count, flushed := Feed(p, lines, i, previous, count, flushed);
      out := out + printed;
      i := i + 1;
    }
    assert lines[i..] == [];
    WrittenSnoc(p, flushed, Group(previous, count));
    out := out + Print(p, Group(previous, count));
  }

  /** `run` and `main`: the input is opened first; a file that cannot be
      opened is reported on standard error with exit status 1. */
  method Run(input: Input, count: bool, repeated: bool, unique: bool)
    returns (out: string, stderr: string, status: int)
    ensures input.Unopenable? ==> out == "" && stderr == OpenError(input.name, input.ioError) + "\n" && status == 1
    ensures input.Opened? ==> out == Output(ChoosePrinter(count, repeated, unique), input.content) && stderr == "" && status == 0
  {
    if input.Unopenable? {
      return "", OpenError(input.name, input.ioError) + "\n", 1;
    }
    var p := ChoosePrinter(count, repeated, unique);
    out := GroupLines(p, input.content);
    stderr, status := "", 0;
  }
}
