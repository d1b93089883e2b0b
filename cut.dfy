/**
 * cut (src/bin/cut.rs): the range-list parser, the byte, character and field
 * selectors, the delimiter check, and the per-source driver.
 *
 * Ranges are zero-based and half-open. Selection keeps element i when any range
 * contains i, so the output always follows ascending index order, whatever order
 * the ranges were declared in.
 */
module Cut {
  import opened Wrappers
  import opened Text
  import Utf8
  import opened Files

  /** Rust's `Range<usize>`: the indices start <= i < end. */
  datatype Range = Range(start: nat, end: nat)

  type Ranges = seq<Range>

  /** `ranges.iter().any(|r| r.contains(&i))` */
  predicate InRanges(i: nat, ranges: Ranges)
  {
    exists k :: 0 <= k < |ranges| && ranges[k].start <= i < ranges[k].end
  }

  // ------------------------------------------------------------------
  // parse_ranges
  // ------------------------------------------------------------------

  /** The largest `usize` on a 64-bit target. */
  const USIZE_MAX: nat := 0xFFFF_FFFF_FFFF_FFFF

  datatype RangeError =
    | InvalidListValue(token: string)  // the token does not match ^(\d+)(-\d+)?$
    | InvalidValue(numeral: string)    // a numeral that does not fit in a usize
    | NotAscending                     // "a-b" with a >= b

  function Message(e: RangeError): string
  {
    match e
    case InvalidListValue(t) => "invalid list value: \"" + t + "\""
    case InvalidValue(n) => "invalid value: \"" + n + "\""
    case NotAscending => "first number in range must be lower than second"
  }

  /** The token grammar `^(\d+)(-\d+)?$`: a numeral, or two numerals joined by '-'. */
  predicate MatchesGrammar(t: string)
  {
    || IsNumeral(t)
    || exists i :: 0 < i < |t| && t[i] == '-' && IsNumeral(t[..i]) && IsNumeral(t[i + 1..])
  }

  /** One comma-separated token: "n" is [n, n+1), "a-b" is [a, b) when a < b.
      A numeral too large for a usize is reported with its own text, the second
      one together with its leading dash. For n = USIZE_MAX, `first + 1` wraps
      around to 0 (the release build's arithmetic), giving the empty range
      [USIZE_MAX, 0). */
  function ParseToken(t: string): Result<Range, RangeError>
  {
    var i := IndexOf(t, '-');
    if i == |t| then
      if !IsNumeral(t) then Err(InvalidListValue(t))
      else if NumeralValue(t) > USIZE_MAX then Err(InvalidValue(t))
      else Ok(Range(NumeralValue(t), if NumeralValue(t) == USIZE_MAX then 0 else NumeralValue(t) + 1))
    else if IsNumeral(t[..i]) && IsNumeral(t[i + 1..]) then
      var a, b := NumeralValue(t[..i]), NumeralValue(t[i + 1..]);
      if a > USIZE_MAX then Err(InvalidValue(t[..i]))
      else if b > USIZE_MAX then Err(InvalidValue(t[i..]))
      else if a >= b then Err(NotAscending)
      else Ok(Range(a, b))
    else Err(InvalidListValue(t))
  }

  /** The range [USIZE_MAX, 0) that `first + 1` wraps around to. */
  const WRAPPED := Range(USIZE_MAX, 0)

  /** A token fails with the syntax error naming it exactly when it does not match
      the grammar; otherwise it yields a non-empty range, the wrapped-around empty
      range (for the numeral USIZE_MAX alone, and only for it), the overflow error
      or the ordering error. */
  lemma ParseTokenGrammar(t: string)
    ensures ParseToken(t) == Err(InvalidListValue(t)) <==> !MatchesGrammar(t)
    ensures ParseToken(t).Ok? ==> ParseToken(t).value.start < ParseToken(t).value.end || ParseToken(t).value == WRAPPED
    ensures ParseToken(t) == Ok(WRAPPED) <==> IsNumeral(t) && NumeralValue(t) == USIZE_MAX
    ensures ParseToken(t).Err? ==> ParseToken(t).error.InvalidValue? || ParseToken(t).error in {InvalidListValue(t), NotAscending}
  {
    var i := IndexOf(t, '-');
    if i < |t| {
      assert !IsDigit(t[i]);
    }
    forall j | 0 < j < |t| && t[j] == '-' && IsNumeral(t[..j]) && IsNumeral(t[j + 1..])
      ensures j == i
    {
      DashAfterNumeral(t, j);
    }
    if i < |t| && IsNumeral(t[..i]) && IsNumeral(t[i + 1..]) {
      assert 0 < i;
    }
  }

  /** In a token whose first j characters are digits, a '-' at j is the first one. */
  lemma DashAfterNumeral(t: string, j: nat)
    requires j < |t| && t[j] == '-' && AllDigits(t[..j])
    ensures IndexOf(t, '-') == j
  {
    assert forall m :: 0 <= m < j ==> t[m] == t[..j][m];
  }

  /** A bare numeral n parses to [n, n+1) below USIZE_MAX, to the wrapped-around
      empty range at USIZE_MAX, and to the overflow error naming it when n does not
      fit in a usize. */
  lemma ParseSingle(n: nat)
    ensures ParseToken(NatToString(n))
         == if n < USIZE_MAX then Ok(Range(n, n + 1))
            else if n == USIZE_MAX then Ok(WRAPPED)
            else Err(InvalidValue(NatToString(n)))
  {
    var t := NatToString(n);
    NatToStringRoundTrip(n);
    assert forall m :: 0 <= m < |t| ==> IsDigit(t[m]);
    assert IndexOf(t, '-') == |t|;
  }

  /** "a-b" parses to [a, b) verbatim when a < b, and to the ordering error
      (never the syntax error) when a >= b, "1-1" included. */
  lemma ParsePair(a: nat, b: nat)
    requires a <= USIZE_MAX && b <= USIZE_MAX
    ensures ParseToken(NatToString(a) + "-" + NatToString(b))
         == if a < b then Ok(Range(a, b)) else Err(NotAscending)
  {
    var x, y := NatToString(a), NatToString(b);
    var t := x + "-" + y;
    NatToStringRoundTrip(a);
    NatToStringRoundTrip(b);
    assert t[|x|] == '-';
    assert forall j :: 0 <= j < |x| ==> t[j] == x[j] && IsDigit(t[j]);
    assert IndexOf(t, '-') == |x|;
    assert t[..|x|] == x && t[|x| + 1..] == y;
  }

  /** Parses each token in turn; the first failing token decides the error. */
  function ParseAll(tokens: seq<string>): (r: Result<Ranges, RangeError>)
    ensures r.Ok? ==> |r.value| == |tokens|
    ensures r.Ok? ==> forall k :: 0 <= k < |tokens| ==> ParseToken(tokens[k]) == Ok(r.value[k])
    ensures r.Err? ==> exists k :: 0 <= k < |tokens| && ParseToken(tokens[k]) == Err(r.error)
                                 && forall j :: 0 <= j < k ==> ParseToken(tokens[j]).Ok?
  {
    if tokens == [] then Ok([])
    else
      match ParseToken(tokens[0])
      case Err(e) => Err(e)
      case Ok(r) =>
        match ParseAll(tokens[1..])
        case Err(e) =>
          assert forall k :: 0 < k < |tokens| ==> tokens[1..][k - 1] == tokens[k];
          Err(e)
        case Ok(rs) => Ok([r] + rs)
  }

  /** `parse_ranges`: one range per comma-separated token, in declaration order,
      neither sorted nor merged. */
  function ParseRanges(spec: string): Result<Ranges, RangeError>
  {
    ParseAll(Split(spec, ','))
  }

  /** Every range of a successful parse is non-empty, except the wrapped-around
      range of a token that is the numeral USIZE_MAX. */
  lemma ParsedRangesNonEmpty(spec: string)
    requires ParseRanges(spec).Ok?
    ensures forall k :: 0 <= k < |ParseRanges(spec).value| ==>
              ParseRanges(spec).value[k].start < ParseRanges(spec).value[k].end
              || (ParseRanges(spec).value[k] == WRAPPED && IsNumeral(Split(spec, ',')[k])
                  && NumeralValue(Split(spec, ',')[k]) == USIZE_MAX)
  {
    var tokens := Split(spec, ',');
    forall k | 0 <= k < |tokens|
      ensures ParseRanges(spec).value[k].start < ParseRanges(spec).value[k].end
              || (ParseRanges(spec).value[k] == WRAPPED && IsNumeral(tokens[k]) && NumeralValue(tokens[k]) == USIZE_MAX)
    {
      ParseTokenGrammar(tokens[k]);
    }
  }

  /** An empty list and a signed number are syntax errors naming the token. */
  lemma ParseRangesRejects()
    ensures ParseRanges("") == Err(InvalidListValue(""))
    ensures ParseRanges("+1") == Err(InvalidListValue("+1"))
  {
    assert Split("", ',') == [""];
    assert IndexOf("+1", ',') == 2 && Split("+1", ',') == ["+1"];
    assert !IsDigit('+');
  }

  // ------------------------------------------------------------------
  // Selection by index
  // ------------------------------------------------------------------

  function SelectFrom<T>(s: seq<T>, ranges: Ranges, i: nat): (r: seq<T>)
    ensures |r| <= if i <= |s| then |s| - i else 0
    decreases |s| - i
  {
    if i >= |s| then [] else (if InRanges(i, ranges) then [s[i]] else []) + SelectFrom(s, ranges, i + 1)
  }

  /** Keeps element i exactly when some range contains i, in ascending index order. */
  function Select<T>(s: seq<T>, ranges: Ranges): seq<T>
  {
    SelectFrom(s, ranges, 0)
  }

  /** The indices in [lo, hi) that some range contains, in ascending order. */
  function Selected(lo: nat, hi: nat, ranges: Ranges): seq<nat>
    decreases hi - lo
  {
    if lo >= hi then [] else (if InRanges(lo, ranges) then [lo] else []) + Selected(lo + 1, hi, ranges)
  }

  lemma {:induction false} SelectedShape(lo: nat, hi: nat, ranges: Ranges)
    ensures forall j :: 0 <= j < |Selected(lo, hi, ranges)| ==> lo <= Selected(lo, hi, ranges)[j] < hi
    ensures forall j, j' :: 0 <= j < j' < |Selected(lo, hi, ranges)| ==>
              Selected(lo, hi, ranges)[j] < Selected(lo, hi, ranges)[j']
    ensures forall i :: lo <= i < hi ==> (i in Selected(lo, hi, ranges) <==> InRanges(i, ranges))
    decreases hi - lo
  {
    if lo < hi {
      SelectedShape(lo + 1, hi, ranges);
    }
  }

  lemma {:induction false} SelectFromPicks<T>(s: seq<T>, ranges: Ranges, i: nat)
    requires i <= |s|
    ensures |SelectFrom(s, ranges, i)| == |Selected(i, |s|, ranges)|
    ensures forall j :: 0 <= j < |SelectFrom(s, ranges, i)| ==>
              Selected(i, |s|, ranges)[j] < |s| && SelectFrom(s, ranges, i)[j] == s[Selected(i, |s|, ranges)[j]]
    decreases |s| - i
  {
    SelectedShape(i, |s|, ranges);
    if i < |s| {
      SelectFromPicks(s, ranges, i + 1);
    }
  }

  /** What selection means: the result lists s[ix[0]], s[ix[1]], ... for the
      strictly ascending indices ix that lie in some range, each exactly once. */
  lemma SelectMeaning<T>(s: seq<T>, ranges: Ranges)
    ensures var ix := Selected(0, |s|, ranges);
      && |Select(s, ranges)| == |ix| <= |s|
      && (forall j :: 0 <= j < |ix| ==> ix[j] < |s| && Select(s, ranges)[j] == s[ix[j]])
      && (forall j, j' :: 0 <= j < j' < |ix| ==> ix[j] < ix[j'])
      && (forall i :: 0 <= i < |s| ==> (i in ix <==> InRanges(i, ranges)))
  {
    SelectedShape(0, |s|, ranges);
    SelectFromPicks(s, ranges, 0);
  }

  lemma {:induction false} SelectFromSameMembership<T>(s: seq<T>, r1: Ranges, r2: Ranges, i: nat)
    requires forall x :: InRanges(x, r1) <==> InRanges(x, r2)
    ensures SelectFrom(s, r1, i) == SelectFrom(s, r2, i)
    decreases |s| - i
  {
    if i < |s| {
      SelectFromSameMembership(s, r1, r2, i + 1);
    }
  }

  /** Declaring the same ranges in another order (or repeating them) cannot change
      what is selected nor the order it comes out in. */
  lemma SelectIgnoresDeclarationOrder<T>(s: seq<T>, r1: Ranges, r2: Ranges)
    requires forall r :: r in r1 <==> r in r2
    ensures Select(s, r1) == Select(s, r2)
  {
    forall x: nat
      ensures InRanges(x, r1) <==> InRanges(x, r2)
    {
      if InRanges(x, r1) {
        var k :| 0 <= k < |r1| && r1[k].start <= x < r1[k].end;
        assert r1[k] in r2;
        var k' :| 0 <= k' < |r2| && r2[k'] == r1[k];
      }
      if InRanges(x, r2) {
        var k :| 0 <= k < |r2| && r2[k].start <= x < r2[k].end;
        assert r2[k] in r1;
        var k' :| 0 <= k' < |r1| && r1[k'] == r2[k];
      }
    }
    SelectFromSameMembership(s, r1, r2, 0);
  }

  lemma {:induction false} SelectFromAll<T>(s: seq<T>, ranges: Ranges, i: nat)
    requires forall x :: 0 <= x < |s| ==> InRanges(x, ranges)
    requires i <= |s|
    ensures SelectFrom(s, ranges, i) == s[i..]
    decreases |s| - i
  {
    if i < |s| {
      SelectFromAll(s, ranges, i + 1);
      assert s[i..] == [s[i]] + s[i + 1..];
    }
  }

  /** The wrapped-around range of the numeral USIZE_MAX contains no index, so a
      list holding it selects what the list without it selects. */
  lemma WrappedSelectsNothing<T>(s: seq<T>, ranges: Ranges)
    ensures Select(s, ranges + [WRAPPED]) == Select(s, ranges)
  {
    var with := ranges + [WRAPPED];
    forall x: nat
      ensures InRanges(x, with) <==> InRanges(x, ranges)
    {
      if InRanges(x, with) {
        var k :| 0 <= k < |with| && with[k].start <= x < with[k].end;
        assert k < |ranges| && ranges[k] == with[k];
      }
      if InRanges(x, ranges) {
        var k :| 0 <= k < |ranges| && ranges[k].start <= x < ranges[k].end;
        assert with[k] == ranges[k];
      }
    }
    SelectFromSameMembership(s, with, ranges, 0);
  }

  /** Ranges that cover every index select everything. */
  lemma SelectAll<T>(s: seq<T>, ranges: Ranges)
    requires forall x :: 0 <= x < |s| ==> InRanges(x, ranges)
    ensures Select(s, ranges) == s
  {
    SelectFromAll(s, ranges, 0);
  }

  lemma {:induction false} SelectFromBeyond<T>(s: seq<T>, ranges: Ranges, i: nat)
    requires forall x :: i <= x ==> !InRanges(x, ranges)
    ensures SelectFrom(s, ranges, i) == []
    decreases |s| - i
  {
    if i < |s| {
      SelectFromBeyond(s, ranges, i + 1);
    }
  }

  lemma {:induction false} SelectFromPrefix<T>(s: seq<T>, t: seq<T>, ranges: Ranges, i: nat)
    requires forall x :: |s| <= x ==> !InRanges(x, ranges)
    requires i <= |s|
    ensures SelectFrom(s + t, ranges, i) == SelectFrom(s, ranges, i)
    decreases |s| - i
  {
    if i < |s| {
      SelectFromPrefix(s, t, ranges, i + 1);
    } else {
      SelectFromBeyond(s + t, ranges, i);
    }
  }

  /** When every range ends within s, whatever follows s changes nothing. */
  lemma SelectPrefixStable<T>(s: seq<T>, t: seq<T>, ranges: Ranges)
    requires forall k :: 0 <= k < |ranges| ==> ranges[k].end <= |s|
    ensures Select(s + t, ranges) == Select(s, ranges)
  {
    SelectFromPrefix(s, t, ranges, 0);
  }

  // ------------------------------------------------------------------
  // extract_chars, extract_bytes, extract_fields
  // ------------------------------------------------------------------

  /** `extract_chars`: selection over the Unicode scalar values of the line. */
  function ExtractChars(line: string, ranges: Ranges): string
  {
    Select(line, ranges)
  }

  /** `extract_bytes`: selection over the UTF-8 bytes of the line, then lossy decoding. */
  function ExtractBytes(line: string, ranges: Ranges): string
  {
    Utf8.DecodeLossy(Select(Utf8.EncodeString(line), ranges))
  }

  /** `extract_fields`: selection over the fields of one record. */
  function ExtractFields(record: seq<string>, ranges: Ranges): seq<string>
  {
    Select(record, ranges)
  }

  /** Character selection keeps character i exactly when a range contains i, in
      ascending index order, never more characters than the line has, and never a
      character the line does not hold. */
  lemma ExtractCharsMeaning(line: string, ranges: Ranges)
    ensures |ExtractChars(line, ranges)| <= |line|
    ensures forall c :: c in ExtractChars(line, ranges) ==> c in line
    ensures var ix := Selected(0, |line|, ranges);
      && |ExtractChars(line, ranges)| == |ix|
      && (forall j :: 0 <= j < |ix| ==> ix[j] < |line| && ExtractChars(line, ranges)[j] == line[ix[j]])
      && (forall j, j' :: 0 <= j < j' < |ix| ==> ix[j] < ix[j'])
      && (forall i :: 0 <= i < |line| ==> (i in ix <==> InRanges(i, ranges)))
  {
    SelectMeaning(line, ranges);
  }

  /** Field selection yields the chosen fields in record order, each at most once. */
  lemma ExtractFieldsMeaning(record: seq<string>, ranges: Ranges)
    ensures var ix := Selected(0, |record|, ranges);
      && |ExtractFields(record, ranges)| == |ix| <= |record|
      && (forall j :: 0 <= j < |ix| ==> ix[j] < |record| && ExtractFields(record, ranges)[j] == record[ix[j]])
      && (forall j, j' :: 0 <= j < j' < |ix| ==> ix[j] < ix[j'])
      && (forall i :: 0 <= i < |record| ==> (i in ix <==> InRanges(i, ranges)))
  {
    SelectMeaning(record, ranges);
  }

  /** Selecting every byte of a line gives the line back unchanged. */
  lemma ExtractBytesWhole(line: string, ranges: Ranges)
    requires forall x :: 0 <= x < |Utf8.EncodeString(line)| ==> InRanges(x, ranges)
    ensures ExtractBytes(line, ranges) == line
  {
    SelectAll(Utf8.EncodeString(line), ranges);
    Utf8.DecodeEncode(line);
  }

  lemma {:induction false} SelectFromAscii(line: string, ranges: Ranges, i: nat)
    requires forall x :: 0 <= x < |line| ==> line[x] as int < 0x80
    requires i <= |line|
    ensures |Utf8.EncodeString(line)| == |line|
    ensures SelectFrom(Utf8.EncodeString(line), ranges, i) == Utf8.EncodeString(SelectFrom(line, ranges, i))
    decreases |line| - i
  {
    Utf8.EncodeAscii(line);
    if i < |line| {
      SelectFromAscii(line, ranges, i + 1);
      var rest := SelectFrom(line, ranges, i + 1);
      if InRanges(i, ranges) {
        assert SelectFrom(line, ranges, i) == [line[i]] + rest;
        assert ([line[i]] + rest)[1..] == rest;
        var e := Utf8.EncodeString(line);
        assert SelectFrom(e, ranges, i) == [e[i]] + SelectFrom(e, ranges, i + 1);
        assert e[i] as int == line[i] as int;
        assert Utf8.EncodeChar(line[i]) == [e[i]];
        assert Utf8.EncodeString([line[i]] + rest) == Utf8.EncodeChar(line[i]) + Utf8.EncodeString(rest);
      } else {
        assert SelectFrom(line, ranges, i) == rest;
        assert SelectFrom(Utf8.EncodeString(line), ranges, i) == SelectFrom(Utf8.EncodeString(line), ranges, i + 1);
      }
    }
  }

  /** On ASCII text a byte and a character are the same thing: byte selection and
      character selection agree. */
  lemma ExtractBytesAscii(line: string, ranges: Ranges)
    requires forall x :: 0 <= x < |line| ==> line[x] as int < 0x80
    ensures ExtractBytes(line, ranges) == ExtractChars(line, ranges)
  {
    SelectFromAscii(line, ranges, 0);
    Utf8.DecodeEncode(ExtractChars(line, ranges));
  }

  /** The output follows the record, not the order the ranges were given in. */
  lemma ExtractFieldsExample()
    ensures ExtractFields(["a", "b", "c"], [Range(2, 3), Range(0, 1)]) == ["a", "c"]
  {
    var r := [Range(2, 3), Range(0, 1)];
    var s := ["a", "b", "c"];
    assert InRanges(0, r) by { assert r[1].start <= 0 < r[1].end; }
    assert InRanges(2, r) by { assert r[0].start <= 2 < r[0].end; }
    assert SelectFrom(s, r, 3) == [];
    assert SelectFrom(s, r, 2) == ["c"];
    assert SelectFrom(s, r, 1) == ["c"];
  }

  /** A byte range that cuts a character in two yields U+FFFD for the fragment. */
  lemma ExtractBytesSplitsCharacter()
    ensures ExtractBytes("\U{E1}", [Range(0, 1)]) == [Utf8.REPLACEMENT]
  {
    var r := [Range(0, 1)];
    var e := Utf8.EncodeString("\U{E1}");
    assert e == [0xC3, 0xA1];
    assert InRanges(0, r) by { assert r[0].start <= 0 < r[0].end; }
    assert SelectFrom(e, r, 1) == [];
    assert Select(e, r) == [0xC3];
    var b: seq<byte> := [0xC3];
    assert b[1..] == [];
    assert Utf8.DecodeLossy(b) == [Utf8.REPLACEMENT];
  }

  /** A byte range that ends on a character boundary keeps whole characters. */
  lemma ExtractBytesWholeCharacter()
    ensures ExtractBytes("\U{E1}bc", [Range(0, 3)]) == "\U{E1}b"
  {
    var r := [Range(0, 3)];
    var e := Utf8.EncodeString("\U{E1}bc");
    Utf8.EncodeStringAppend("\U{E1}b", "c");
    assert e == Utf8.EncodeString("\U{E1}b") + [99];
    assert forall x :: 3 <= x ==> !InRanges(x, r);
    SelectPrefixStable(Utf8.EncodeString("\U{E1}b"), [99], r);
    forall x | 0 <= x < 3
      ensures InRanges(x, r)
    {
      assert r[0].start <= x < r[0].end;
    }
    assert |Utf8.EncodeString("\U{E1}b")| == 3;
    Utf8.EncodeStringAppend("\U{E1}", "b");
    SelectAll(Utf8.EncodeString("\U{E1}b"), r);
    Utf8.DecodeEncode("\U{E1}b");
  }

  // ------------------------------------------------------------------
  // parse_delimiter
  // ------------------------------------------------------------------

  /** `parse_delimiter`: the argument must be exactly one byte long. */
  function ParseDelimiter(delim: string): Result<byte, string>
  {
    var bs := Utf8.EncodeString(delim);
    if |bs| != 1 then Err("--delim must be a single byte") else Ok(bs[0])
  }

  /** A delimiter is accepted exactly when it is a single ASCII character, and the
      byte returned is that character's code. */
  lemma ParseDelimiterMeaning(delim: string)
    ensures ParseDelimiter(delim).Ok? <==> |delim| == 1 && delim[0] as int < 0x80
    ensures ParseDelimiter(delim).Ok? ==> ParseDelimiter(delim).value as int == delim[0] as int
    ensures ParseDelimiter(delim).Err? ==> ParseDelimiter(delim).error == "--delim must be a single byte"
  {
    Utf8.SingleByte(delim);
    if |delim| == 1 {
      assert Utf8.EncodeString(delim) == Utf8.EncodeChar(delim[0]);
    }
  }

  // ------------------------------------------------------------------
  // The driver: run
  // ------------------------------------------------------------------

  /** Exactly one selection mode, each carrying its own ranges. */
  datatype Mode = Bytes(ranges: Ranges) | Chars(ranges: Ranges) | Fields(ranges: Ranges)

  /** A row as the CSV reader hands it out. */
  datatype Row = Record(fields: seq<string>) | Malformed(reason: string)

  /** What reaches standard output: text from `println!`, or a record handed to
      the CSV writer together with its delimiter. */
  datatype Output = Printed(text: string) | Written(fields: seq<string>, delim: byte)

  function ExtractLine(mode: Mode, line: string): string
    requires !mode.Fields?
  {
    if mode.Bytes? then ExtractBytes(line, mode.ranges) else ExtractChars(line, mode.ranges)
  }

  /** What the byte or character loop prints for one source: the line buffer is
      never cleared, so the k-th result is the selection applied to the first k
      pieces read, joined. */
  function CutOutput(content: string, mode: Mode): seq<string>
    requires !mode.Fields?
  {
    var cs := Chunks(content, NL);
    seq(|cs|, k requires 0 <= k < |cs| => ExtractLine(mode, Flatten(cs[..k + 1])) + "\n")
  }

  /** The byte / character loop of `run` for one opened source. */
  method CutLines(content: string, mode: Mode) returns (out: seq<string>)
    requires !mode.Fields?
    ensures out == CutOutput(content, mode)
  {
    var chunks := Chunks(content, NL);
    var line := "";
    out := [];
    var i := 0;
    while i < |chunks|
      invariant 0 <= i <= |chunks|
      invariant line == Flatten(chunks[..i])
      invariant |out| == i
      invariant forall k :: 0 <= k < i ==> out[k] == ExtractLine(mode, Flatten(chunks[..k + 1])) + "\n"
    {
      FlattenPrefixStep(chunks, i);
      line := line + chunks[i];  // read_line appends to the buffer
      out := out + [ExtractLine(mode, line) + "\n"];
      i := i + 1;
    }
  }

  lemma {:induction false} FlattenChunksPrefix<T>(s: seq<T>, sep: T, k: nat)
    requires 0 < k <= |Chunks(s, sep)|
    ensures Chunks(s, sep)[0] <= Flatten(Chunks(s, sep)[..k])
  {
    var cs := Chunks(s, sep);
    assert cs[..k] == [cs[0]] + cs[..k][1..];
  }

  /** The consequence of never clearing the buffer: when every range ends within
      the first line, every line printed for a source repeats the first one. */
  lemma CutRepeatsFirstLine(content: string, ranges: Ranges, k: nat)
    requires k < |Chunks(content, NL)|
    requires forall j :: 0 <= j < |ranges| ==> ranges[j].end <= |Chunks(content, NL)[0]|
    ensures CutOutput(content, Chars(ranges))[k] == CutOutput(content, Chars(ranges))[0]
  {
    var cs := Chunks(content, NL);
    var joined := Flatten(cs[..k + 1]);
    FlattenChunksPrefix(content, NL, k + 1);
    assert joined == cs[0] + joined[|cs[0]|..];
    SelectPrefixStable(cs[0], joined[|cs[0]|..], ranges);
    assert Select(joined, ranges) == Select(cs[0], ranges);
    assert cs[..1] == [cs[0]];
    assert [cs[0]][1..] == [];
    assert Flatten(cs[..1]) == cs[0];
    var m := Chars(ranges);
    assert ExtractLine(m, joined) == Select(cs[0], ranges);
    assert CutOutput(content, m)[k] == ExtractLine(m, joined) + "\n";
    assert CutOutput(content, m)[0] == ExtractLine(m, Flatten(cs[..1])) + "\n";
  }

  function CsvOutputs(rows: seq<Row>, ranges: Ranges, delim: byte): seq<Output>
  {
    if rows == [] then []
    else match rows[0]
      case Malformed(_) => []
      case Record(fs) => [Written(ExtractFields(fs, ranges), delim)] + CsvOutputs(rows[1..], ranges, delim)
  }

  function FirstMalformed(rows: seq<Row>): Option<string>
  {
    if rows == [] then None
    else match rows[0]
      case Malformed(e) => Some(e)
      case Record(_) => FirstMalformed(rows[1..])
  }

  /** The field loop of `run` for one opened source: each record is written with
      its selected fields, until the first malformed row stops it. */
  method CutRecords(rows: seq<Row>, ranges: Ranges, delim: byte) returns (out: seq<Output>, failure: Option<string>)
    ensures out == CsvOutputs(rows, ranges, delim)
    ensures failure == FirstMalformed(rows)
  {
    out := [];
    var i := 0;
    while i < |rows|
      invariant 0 <= i <= |rows|
      invariant forall j :: 0 <= j < i ==> rows[j].Record?
      invariant out + CsvOutputs(rows[i..], ranges, delim) == CsvOutputs(rows, ranges, delim)
      invariant FirstMalformed(rows[i..]) == FirstMalformed(rows)
    {
      assert rows[i..][1..] == rows[i + 1..];
      match rows[i] {
        case Malformed(e) =>
          failure := Some(e);
          return;
        case Record(fs) =>
          out := out + [Written(ExtractFields(fs, ranges), delim)];
      }
      i := i + 1;
    }
    failure := None;
  }

  /** The blank line printed before the output of every opened source but the first
      position, whether or not the sources before it could be opened. */
  function Separator(i: nat): seq<Output>
  {
    if i > 0 then [Printed("\n")] else []
  }

  /** Whether a source ends the whole run: a CSV error is propagated with `?`. */
  predicate Aborts(mode: Mode, delim: byte, src: Input, readCsv: (string, byte) -> seq<Row>)
  {
    mode.Fields? && src.Opened? && FirstMalformed(readCsv(src.content, delim)).Some?
  }

  /** Standard output for the source at position i. */
  function Block(mode: Mode, delim: byte, i: nat, src: Input, readCsv: (string, byte) -> seq<Row>): seq<Output>
  {
    match src
    case Unopenable(_, _) => []
    case Opened(_, content) =>
      Separator(i) +
      if mode.Fields? then CsvOutputs(readCsv(content, delim), mode.ranges, delim)
      else
        var lines := CutOutput(content, mode);
        seq(|lines|, k requires 0 <= k < |lines| => Printed(lines[k]))
  }

  /** Standard error for one source. */
  function Complaint(src: Input): seq<string>
  {
    match src
    case Unopenable(name, io) => ["cut: cannot open '" + name + "' for reading: " + OpenError(name, io) + "\n"]
    case Opened(_, _) => []
  }

  function Blocks(mode: Mode, delim: byte, sources: seq<Input>, readCsv: (string, byte) -> seq<Row>): seq<seq<Output>>
  {
    seq(|sources|, i requires 0 <= i < |sources| => Block(mode, delim, i, sources[i], readCsv))
  }

  function Complaints(sources: seq<Input>): seq<seq<string>>
  {
    seq(|sources|, i requires 0 <= i < |sources| => Complaint(sources[i]))
  }

  /** One iteration of `run`: what a single source prints, what it reports, and
      the CSV error that ends the run, if any. */
  method CutInput(mode: Mode, delim: byte, i: nat, src: Input, readCsv: (string, byte) -> seq<Row>)
    returns (out: seq<Output>, err: seq<string>, failure: Option<string>)
    ensures out == Block(mode, delim, i, src, readCsv)
    ensures err == Complaint(src)
    ensures failure.Some? <==> Aborts(mode, delim, src, readCsv)
    ensures failure.Some? ==> failure == FirstMalformed(readCsv(src.content, delim))
  {
    out, err, failure := [], [], None;
    match src {
      case Unopenable(name, io) =>
        err := ["cut: cannot open '" + name + "' for reading: " + OpenError(name, io) + "\n"];
      case Opened(name, content) =>
        if i > 0 {
          out := [Printed("\n")];
        }
        if mode.Fields? {
          var records;
          records, failure := CutRecords(readCsv(content, delim), mode.ranges, delim);
          out := out + records;
        } else {
          var lines := CutLines(content, mode);
          out := out + seq(|lines|, k requires 0 <= k < |lines| => Printed(lines[k]));
        }
    }
  }

  /** The first source from `k` on that ends the run, or |sources|. */
  function FirstAbort(mode: Mode, delim: byte, sources: seq<Input>, readCsv: (string, byte) -> seq<Row>, k: nat): (a: nat)
    requires k <= |sources|
    ensures k <= a <= |sources|
    ensures forall j :: k <= j < a ==> !Aborts(mode, delim, sources[j], readCsv)
    ensures a < |sources| ==> Aborts(mode, delim, sources[a], readCsv)
    decreases |sources| - k
  {
    if k == |sources| || Aborts(mode, delim, sources[k], readCsv) then k
    else FirstAbort(mode, delim, sources, readCsv, k + 1)
  }

  /** `run`: sources are processed in order; an unopenable one is reported and
      skipped; a malformed CSV row ends the whole run after the output already made. */
  method Run(mode: Mode, delim: byte, sources: seq<Input>, readCsv: (string, byte) -> seq<Row>)
    returns (stdout: seq<Output>, stderr: seq<string>, status: Result<(), string>)
    ensures var a := FirstAbort(mode, delim, sources, readCsv, 0);
      && (status.Ok? <==> a == |sources|)
      && (status.Ok? ==>
            stdout == Flatten(Blocks(mode, delim, sources, readCsv)) && stderr == Flatten(Complaints(sources)))
      && (status.Err? ==>
            a < |sources|
            && status.error == FirstMalformed(readCsv(sources[a].content, delim)).value
            && stdout == Flatten(Blocks(mode, delim, sources, readCsv)[..a + 1])
            && stderr == Flatten(Complaints(sources)[..a]))
  {
    ghost var blocks := Blocks(mode, delim, sources, readCsv);
    ghost var complaints := Complaints(sources);
    stdout, stderr := [], [];
    var i := 0;
    while i < |sources|
      invariant 0 <= i <= |sources|
      invariant FirstAbort(mode, delim, sources, readCsv, i) == FirstAbort(mode, delim, sources, readCsv, 0)
      invariant stdout == Flatten(blocks[..i])
      invariant stderr == Flatten(complaints[..i])
    {
      FlattenPrefixStep(blocks, i);
      FlattenPrefixStep(complaints, i);
      var out, err, failure := CutInput(mode, delim, i, sources[i], readCsv);
      stdout := stdout + out;
      if failure.Some? {
        assert FirstAbort(mode, delim, sources, readCsv, i) == i;
        status := Err(failure.value);
        return;
      }
      stderr := stderr + err;
      i := i + 1;
    }
    assert blocks[..i] == blocks && complaints[..i] == complaints;
    status := Ok(());
  }
}
