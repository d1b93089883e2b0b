/**
 * Text helpers shared by the utilities: how `read_line` (on text) and `read_until`
 * (on bytes) cut a stream into pieces, how `BufRead::lines` drops terminators,
 * `str::split`, decimal rendering and parsing of integers, right alignment in a
 * fixed-width field, and Unicode white space.
 */
module Text {
  import opened Wrappers

  newtype byte = x: int | 0 <= x < 256

  const NL: char := '\n'
  const NL_BYTE: byte := 10

  // ------------------------------------------------------------------
  // Counting occurrences
  // ------------------------------------------------------------------

  function Count<T(==)>(s: seq<T>, x: T): nat
  {
    if s == [] then 0 else (if s[0] == x then 1 else 0) + Count(s[1..], x)
  }

  lemma {:induction false} CountAppend<T>(a: seq<T>, b: seq<T>, x: T)
    ensures Count(a + b, x) == Count(a, x) + Count(b, x)
  {
    if a != [] {
      assert (a + b)[1..] == a[1..] + b;
      CountAppend(a[1..], b, x);
    } else {
      assert a + b == b;
    }
  }

  lemma {:induction false} CountAbsent<T>(s: seq<T>, x: T)
    requires forall i :: 0 <= i < |s| ==> s[i] != x
    ensures Count(s, x) == 0
  {
    if s != [] {
      CountAbsent(s[1..], x);
    }
  }

  // ------------------------------------------------------------------
  // Chunks: one per `read_line` / `read_until` call that returns > 0
  // ------------------------------------------------------------------

  /** Length of the first piece: up to and including the first `sep`, or all of `s`. */
  function ChunkLen<T(==)>(s: seq<T>, sep: T): (n: nat)
    requires |s| > 0
    ensures 1 <= n <= |s|
    ensures n < |s| ==> s[n - 1] == sep
    decreases |s|
  {
    if s[0] == sep || |s| == 1 then 1 else 1 + ChunkLen(s[1..], sep)
  }

  /** The first piece holds no separator before its last element. */
  lemma {:induction false} ChunkLenNoSeparator<T>(s: seq<T>, sep: T)
    requires |s| > 0
    ensures forall i :: 0 <= i < ChunkLen(s, sep) - 1 ==> s[i] != sep
    decreases |s|
  {
    if !(s[0] == sep || |s| == 1) {
      ChunkLenNoSeparator(s[1..], sep);
      assert forall i :: 1 <= i < ChunkLen(s, sep) - 1 ==> s[i] == s[1..][i - 1];
    }
  }

  /** The successive pieces a reader hands out, each ending with `sep`
      except possibly the last one. */
  function Chunks<T(==)>(s: seq<T>, sep: T): seq<seq<T>>
    decreases |s|
  {
    if |s| == 0 then []
    else
      var n := ChunkLen(s, sep);
      [s[..n]] + Chunks(s[n..], sep)
  }

  function Flatten<T>(ss: seq<seq<T>>): seq<T>
  {
    if ss == [] then [] else ss[0] + Flatten(ss[1..])
  }

  lemma {:induction false} FlattenAppend<T>(ss: seq<seq<T>>, t: seq<T>)
    ensures Flatten(ss + [t]) == Flatten(ss) + t
  {
    if ss != [] {
      assert (ss + [t])[1..] == ss[1..] + [t];
      FlattenAppend(ss[1..], t);
    }
  }

  lemma FlattenPrefixStep<T>(ss: seq<seq<T>>, k: nat)
    requires k < |ss|
    ensures Flatten(ss[..k + 1]) == Flatten(ss[..k]) + ss[k]
  {
    assert ss[..k + 1] == ss[..k] + [ss[k]];
    FlattenAppend(ss[..k], ss[k]);
  }

  lemma {:induction false} FlattenConcat<T>(a: seq<seq<T>>, b: seq<seq<T>>)
    ensures Flatten(a + b) == Flatten(a) + Flatten(b)
  {
    if a != [] {
      assert (a + b)[1..] == a[1..] + b;
      FlattenConcat(a[1..], b);
    } else {
      assert a + b == b;
    }
  }

  /** A non-empty input without a separator is a single piece. */
  lemma ChunksWithoutSeparator<T>(s: seq<T>, sep: T)
    requires s != [] && forall i :: 0 <= i < |s| ==> s[i] != sep
    ensures Chunks(s, sep) == [s]
  {
    var n := ChunkLen(s, sep);
    assert n == |s|;
    assert s[..n] == s && s[n..] == [];
  }

  /** Putting the pieces back together gives the whole input: no byte is lost or repeated. */
  lemma {:induction false} FlattenChunks<T>(s: seq<T>, sep: T)
    ensures Flatten(Chunks(s, sep)) == s
    decreases |s|
  {
    if |s| > 0 {
      var n := ChunkLen(s, sep);
      FlattenChunks(s[n..], sep);
      assert Flatten(Chunks(s, sep)) == s[..n] + Flatten(Chunks(s[n..], sep)) by {
        assert Chunks(s, sep) == [s[..n]] + Chunks(s[n..], sep);
        assert ([s[..n]] + Chunks(s[n..], sep))[1..] == Chunks(s[n..], sep);
      }
      assert s[..n] + s[n..] == s;
    }
  }

  /** Every piece is non-empty, holds `sep` only as its last element, and every
      piece but the last ends with `sep`. */
  lemma {:induction false} ChunkShape<T>(s: seq<T>, sep: T, k: nat)
    requires k < |Chunks(s, sep)|
    ensures |Chunks(s, sep)[k]| > 0
    ensures forall i :: 0 <= i < |Chunks(s, sep)[k]| - 1 ==> Chunks(s, sep)[k][i] != sep
    ensures k < |Chunks(s, sep)| - 1 ==> Chunks(s, sep)[k][|Chunks(s, sep)[k]| - 1] == sep
    decreases |s|
  {
    var n := ChunkLen(s, sep);
    if k > 0 {
      ChunkShape(s[n..], sep, k - 1);
    } else {
      ChunkLenNoSeparator(s, sep);
      if |Chunks(s, sep)| > 1 {
        assert |s[n..]| > 0;
      }
    }
  }

  /** The number of pieces is the number of separators, plus one for an
      unterminated last piece. */
  lemma {:induction false} ChunkCount<T>(s: seq<T>, sep: T)
    ensures |Chunks(s, sep)| == Count(s, sep) + Unterminated(s, sep)
    decreases |s|
  {
    if |s| > 0 {
      ChunkCount(s[ChunkLen(s, sep)..], sep);
      ChunkCountStep(s, sep);
    }
  }

  /** 1 when `s` has an unterminated last piece, 0 otherwise. */
  function Unterminated<T(==)>(s: seq<T>, sep: T): nat
  {
    if |s| > 0 && s[|s| - 1] != sep then 1 else 0
  }

  lemma ChunkCountStep<T>(s: seq<T>, sep: T)
    requires |s| > 0
    requires var rest := s[ChunkLen(s, sep)..]; |Chunks(rest, sep)| == Count(rest, sep) + Unterminated(rest, sep)
    ensures |Chunks(s, sep)| == Count(s, sep) + Unterminated(s, sep)
  {
    var n := ChunkLen(s, sep);
    var rest := s[n..];
    assert |Chunks(s, sep)| == 1 + |Chunks(rest, sep)|;
    assert Count(s, sep) == Count(s[..n], sep) + Count(rest, sep) by {
      assert s == s[..n] + rest;
      CountAppend(s[..n], rest, sep);
    }
    FirstChunkCount(s, sep);
    if n < |s| {
      assert Count(s[..n], sep) == 1;
      assert Unterminated(s, sep) == Unterminated(rest, sep) by {
        assert s[|s| - 1] == rest[|rest| - 1];
      }
    } else {
      assert |Chunks(rest, sep)| == 0 && Count(rest, sep) == 0 by {
        assert rest == [];
      }
      assert Count(s[..n], sep) + Unterminated(s, sep) == 1;
    }
  }

  /** The first piece holds one separator if it ends with one, and none otherwise. */
  lemma {:induction false} FirstChunkCount<T>(s: seq<T>, sep: T)
    requires |s| > 0
    ensures Count(s[..ChunkLen(s, sep)], sep) == if s[ChunkLen(s, sep) - 1] == sep then 1 else 0
    decreases |s|
  {
    var n := ChunkLen(s, sep);
    if s[0] == sep || |s| == 1 {
      assert s[..n] == [s[0]];
      assert [s[0]][1..] == [];
    } else {
      var t := s[1..];
      FirstChunkCount(t, sep);
      assert s[..n] == [s[0]] + t[..n - 1];
      assert [s[0]] + t[..n - 1] != [] && ([s[0]] + t[..n - 1])[1..] == t[..n - 1];
      assert s[n - 1] == t[n - 2];
    }
  }

  // ------------------------------------------------------------------
  // Lines as `BufRead::lines` yields them
  // ------------------------------------------------------------------

  /** Drops a terminating "\n", and then a "\r" right before it. */
  function StripNewline(chunk: string): string
  {
    if |chunk| > 0 && chunk[|chunk| - 1] == NL then
      var c := chunk[..|chunk| - 1];
      if |c| > 0 && c[|c| - 1] == '\r' then c[..|c| - 1] else c
    else chunk
  }

  function Lines(s: string): seq<string>
  {
    var cs := Chunks(s, NL);
    seq(|cs|, k requires 0 <= k < |cs| => StripNewline(cs[k]))
  }

  /** `lines()` yields one line per piece, and no line holds a "\n". */
  lemma LinesShape(s: string)
    ensures |Lines(s)| == |Chunks(s, NL)|
    ensures forall k :: 0 <= k < |Lines(s)| ==> NL !in Lines(s)[k]
  {
    var cs := Chunks(s, NL);
    forall k | 0 <= k < |cs|
      ensures NL !in Lines(s)[k]
    {
      ChunkShape(s, NL, k);
    }
  }

  // ------------------------------------------------------------------
  // `str::split`
  // ------------------------------------------------------------------

  function IndexOf(s: string, c: char): (i: nat)
    ensures i <= |s|
    ensures i < |s| ==> s[i] == c
    ensures forall j :: 0 <= j < i ==> s[j] != c
  {
    if s == [] then 0 else if s[0] == c then 0 else 1 + IndexOf(s[1..], c)
  }

  /** `s.split(sep)`: the pieces between separators; an empty input gives one empty piece. */
  function Split(s: string, sep: char): (parts: seq<string>)
    ensures |parts| > 0
    decreases |s|
  {
    var i := IndexOf(s, sep);
    if i == |s| then [s] else [s[..i]] + Split(s[i + 1..], sep)
  }

  function Join(parts: seq<string>, sep: char): string
    requires |parts| > 0
  {
    if |parts| == 1 then parts[0] else parts[0] + [sep] + Join(parts[1..], sep)
  }

  /** Splitting loses nothing, no piece holds the separator, and there is one
      more piece than there are separators. */
  lemma {:induction false} SplitJoin(s: string, sep: char)
    ensures Join(Split(s, sep), sep) == s
    ensures forall k :: 0 <= k < |Split(s, sep)| ==> sep !in Split(s, sep)[k]
    ensures |Split(s, sep)| == Count(s, sep) + 1
    decreases |s|
  {
    var i := IndexOf(s, sep);
    if i == |s| {
      CountAbsent(s, sep);
    } else {
      var rest := s[i + 1..];
      SplitJoin(rest, sep);
      assert s == s[..i] + [sep] + rest;
      CountAppend(s[..i] + [sep], rest, sep);
      CountAppend(s[..i], [sep], sep);
      CountAbsent(s[..i], sep);
      assert Count([sep], sep) == 1;
    }
  }

  // ------------------------------------------------------------------
  // Decimal numerals
  // ------------------------------------------------------------------

  predicate IsDigit(c: char)
  {
    '0' <= c <= '9'
  }

  predicate AllDigits(s: string)
  {
    forall i :: 0 <= i < |s| ==> IsDigit(s[i])
  }

  /** One or more ASCII decimal digits: the text `\d+` is taken to match. */
  predicate IsNumeral(s: string)
  {
    |s| > 0 && AllDigits(s)
  }

  function Digit(d: nat): (c: char)
    requires d < 10
    ensures IsDigit(c)
  {
    ('0' as int + d) as char
  }

  function NumeralValue(s: string): nat
    requires AllDigits(s)
  {
    if s == [] then 0 else 10 * NumeralValue(s[..|s| - 1]) + (s[|s| - 1] as int - '0' as int)
  }

  /** Decimal rendering of a natural number, as `format!("{}")` writes it. */
  function NatToString(n: nat): (s: string)
    ensures IsNumeral(s)
  {
    if n < 10 then [Digit(n)] else NatToString(n / 10) + [Digit(n % 10)]
  }

  /** Decimal rendering of a signed integer: a '-' before the magnitude of a negative. */
  function IntToString(n: int): string
  {
    if n < 0 then "-" + NatToString(-n) else NatToString(n)
  }

  lemma {:induction false} NatToStringRoundTrip(n: nat)
    ensures NumeralValue(NatToString(n)) == n
  {
    if n >= 10 {
      NatToStringRoundTrip(n / 10);
      var s := NatToString(n);
      assert s[..|s| - 1] == NatToString(n / 10);
    }
  }

  /** `str::parse` for a signed integer: an optional '+' or '-', then one or more
      ASCII digits; anything else is an error (None). */
  function ParseInt(s: string): Option<int>
  {
    if |s| > 0 && (s[0] == '+' || s[0] == '-') then
      if IsNumeral(s[1..]) then
        Some(if s[0] == '-' then -(NumeralValue(s[1..]) as int) else NumeralValue(s[1..]))
      else None
    else if IsNumeral(s) then Some(NumeralValue(s))
    else None
  }

  /** Parsing the rendering of any integer gives it back. */
  lemma ParseIntRoundTrip(n: int)
    ensures ParseInt(IntToString(n)) == Some(n)
  {
    if n < 0 {
      NatToStringRoundTrip(-n);
      assert IntToString(n)[1..] == NatToString(-n);
    } else {
      NatToStringRoundTrip(n);
    }
  }

  /** `format!("{:>width}", s)`: s right-aligned with spaces, never truncated. */
  function PadLeft(s: string, width: nat): (r: string)
    ensures |r| == if |s| >= width then |s| else width
    ensures r[|r| - |s|..] == s
    ensures forall i :: 0 <= i < |r| - |s| ==> r[i] == ' '
  {
    if |s| >= width then s else seq(width - |s|, _ => ' ') + s
  }

  // ------------------------------------------------------------------
  // White space
  // ------------------------------------------------------------------

  /** `char::is_whitespace`: the Unicode White_Space property. */
  predicate IsWhitespace(c: char)
  {
    || ('\t' <= c <= '\r')
    || c == ' '
    || c == '\U{0085}'
    || c == '\U{00A0}'
    || c == '\U{1680}'
    || ('\U{2000}' <= c <= '\U{200A}')
    || c == '\U{2028}'
    || c == '\U{2029}'
    || c == '\U{202F}'
    || c == '\U{205F}'
    || c == '\U{3000}'
  }

  /** `str::trim_end`: the longest prefix that does not end in white space, such
      that everything after it is white space. */
  function TrimEnd(s: string): string
  {
    if |s| > 0 && IsWhitespace(s[|s| - 1]) then TrimEnd(s[..|s| - 1]) else s
  }

  /** `trim_end` removes the longest white-space suffix: what is left is a
      prefix that does not end in white space, and everything cut is white space. */
  lemma {:induction false} TrimEndMeaning(s: string)
    ensures TrimEnd(s) <= s
    ensures |TrimEnd(s)| == 0 || !IsWhitespace(TrimEnd(s)[|TrimEnd(s)| - 1])
    ensures forall i :: |TrimEnd(s)| <= i < |s| ==> IsWhitespace(s[i])
    decreases |s|
  {
    if |s| > 0 && IsWhitespace(s[|s| - 1]) {
      var u := s[..|s| - 1];
      TrimEndMeaning(u);
      assert forall i :: 0 <= i < |u| ==> u[i] == s[i];
    }
  }

  function WordsFrom(s: string, inWord: bool): nat
  {
    if s == [] then 0
    else if IsWhitespace(s[0]) then WordsFrom(s[1..], false)
    else (if inWord then 0 else 1) + WordsFrom(s[1..], true)
  }

  /** How many items `split_whitespace` yields: maximal runs of non-white-space. */
  function CountWords(s: string): nat
  {
    WordsFrom(s, false)
  }

  lemma {:induction false} WordsFromAppend(a: string, b: string, inWord: bool)
    ensures WordsFrom(a + b, inWord)
         == WordsFrom(a, inWord) + WordsFrom(b, if a == [] then inWord else !IsWhitespace(a[|a| - 1]))
  {
    if a != [] {
      assert (a + b)[1..] == a[1..] + b;
      WordsFromAppend(a[1..], b, !IsWhitespace(a[0]));
    } else {
      assert a + b == b;
    }
  }

  /** Words never straddle a white-space boundary, so counts add up across it. */
  lemma CountWordsAppend(a: string, b: string)
    requires a == [] || IsWhitespace(a[|a| - 1])
    ensures CountWords(a + b) == CountWords(a) + CountWords(b)
  {
    WordsFromAppend(a, b, false);
  }
}
