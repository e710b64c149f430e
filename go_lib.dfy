/**
 * The few Go standard-library routines the user-agent generator calls,
 * stated as Dafny functions: strconv.Atoi, fmt's "%d" verb, strings.Split,
 * strings.Join, strings.ReplaceAll and sort.Ints.
 */
module GoLib {

  // ---------------------------------------------------------------------
  // Decimal digits
  // ---------------------------------------------------------------------

  predicate IsDigit(c: char) { '0' <= c <= '9' }

  predicate AllDigits(s: string) { forall i :: 0 <= i < |s| ==> IsDigit(s[i]) }

  function DigitValue(c: char): nat
    requires IsDigit(c)
  {
    c as int - '0' as int
  }

  function DigitChar(d: nat): (c: char)
    requires d < 10
    ensures IsDigit(c) && DigitValue(c) == d
  {
    ('0' as int + d) as char
  }

  /** The value of a string of decimal digits, most significant digit first. */
  function DigitsValue(s: string): nat
    requires AllDigits(s)
    decreases |s|
  {
    if |s| == 0 then 0 else 10 * DigitsValue(s[..|s| - 1]) + DigitValue(s[|s| - 1])
  }

  // ---------------------------------------------------------------------
  // strconv.Atoi (64-bit int)
  // ---------------------------------------------------------------------

  const MinInt64: int := -0x8000_0000_0000_0000
  const MaxInt64: int := 0x7FFF_FFFF_FFFF_FFFF

  predicate IsInt64(x: int) { MinInt64 <= x <= MaxInt64 }

  /** What a decimal literal denotes, before any range check. */
  datatype Decimal = NotDecimal | Decimal(value: int)

  /** The syntax strconv.Atoi accepts: an optional '+' or '-' followed by one or more ASCII digits. */
  function DecimalValue(s: string): Decimal
  {
    if |s| > 0 && (s[0] == '+' || s[0] == '-') then
      if |s| > 1 && AllDigits(s[1..]) then
        Decimal(if s[0] == '-' then -(DigitsValue(s[1..]) as int) else DigitsValue(s[1..]))
      else NotDecimal
    else if |s| > 0 && AllDigits(s) then Decimal(DigitsValue(s))
    else NotDecimal
  }

  const MaxUint64: int := 0xFFFF_FFFF_FFFF_FFFF

  /** The text after an optional leading '+' or '-'. */
  function Unsigned(s: string): string
  {
    if |s| > 0 && (s[0] == '+' || s[0] == '-') then s[1..] else s
  }

  predicate Negative(s: string) { |s| > 0 && s[0] == '-' }

  /** The longest prefix of s made of decimal digits. */
  function LeadingDigits(s: string): (d: string)
    ensures d <= s && AllDigits(d)
    ensures |d| < |s| ==> !IsDigit(s[|d|])
    decreases |s|
  {
    if |s| == 0 || !IsDigit(s[0]) then ""
    else
      var d := [s[0]] + LeadingDigits(s[1..]);
      assert d[1..] == LeadingDigits(s[1..]);
      d
  }

  /** A string made of digits is its own longest digit prefix. */
  lemma {:induction false} LeadingDigitsAll(s: string)
    requires AllDigits(s)
    ensures LeadingDigits(s) == s
    decreases |s|
  {
    if |s| > 0 {
      LeadingDigitsAll(s[1..]);
      assert [s[0]] + s[1..] == s;
    }
  }

  /**
   * strconv.ParseUint, which Atoi uses for long input, reads the digits in
   * order and stops with a range error as soon as the running value passes
   * 2^64 - 1, before it looks at any later character.
   */
  predicate RunOverflows(s: string)
  {
    DigitsValue(LeadingDigits(Unsigned(s))) > MaxUint64
  }

  /** A well-formed literal is its sign and the value of its whole digit run. */
  lemma DecimalRun(s: string)
    requires DecimalValue(s).Decimal?
    ensures LeadingDigits(Unsigned(s)) == Unsigned(s)
    ensures DecimalValue(s).value
      == if Negative(s) then -(DigitsValue(Unsigned(s)) as int) else DigitsValue(Unsigned(s))
  {
    LeadingDigitsAll(Unsigned(s));
  }

  /** Both results of strconv.Atoi: the int and whether the error is nil. */
  datatype AtoiResult = AtoiResult(value: int, ok: bool)

  /**
   * strconv.Atoi: a sign followed by a digit run worth more than 2^64 - 1
   * yields the bound of that sign with an error, whatever follows; other
   * syntax errors yield (0, error); a literal outside the int64 range yields
   * the nearest bound with an error.
   */
  function Atoi(s: string): (r: AtoiResult)
    ensures IsInt64(r.value)
    ensures r.ok <==> DecimalValue(s).Decimal? && IsInt64(DecimalValue(s).value)
    ensures r.ok ==> r.value == DecimalValue(s).value
    ensures RunOverflows(s) ==> r == AtoiResult(if Negative(s) then MinInt64 else MaxInt64, false)
    ensures DecimalValue(s).Decimal? && DecimalValue(s).value > MaxInt64 ==> r == AtoiResult(MaxInt64, false)
    ensures DecimalValue(s).Decimal? && DecimalValue(s).value < MinInt64 ==> r == AtoiResult(MinInt64, false)
    ensures DecimalValue(s).NotDecimal? && !RunOverflows(s) ==> r == AtoiResult(0, false)
  {
    match DecimalValue(s)
    case NotDecimal =>
      // Not a literal, but the digit run overflowed before the bad character was reached.
      if RunOverflows(s) then AtoiResult(if Negative(s) then MinInt64 else MaxInt64, false)
      else AtoiResult(0, false)
    case Decimal(x) =>
      DecimalRun(s);
      if x < MinInt64 then AtoiResult(MinInt64, false)
      else if x > MaxInt64 then AtoiResult(MaxInt64, false)
      else AtoiResult(x, true)
  }

  /** A digit run followed by a non-digit is the longest digit prefix. */
  lemma {:induction false} LeadingDigitsBefore(d: string, t: string)
    requires AllDigits(d) && |t| > 0 && !IsDigit(t[0])
    ensures LeadingDigits(d + t) == d
    decreases |d|
  {
    if |d| == 0 {
      assert d + t == t;
    } else {
      assert (d + t)[0] == d[0] && (d + t)[1..] == d[1..] + t;
      LeadingDigitsBefore(d[1..], t);
    }
  }

  function Pow10(n: nat): nat
  {
    if n == 0 then 1 else 10 * Pow10(n - 1)
  }

  /** n nines. */
  function Nines(n: nat): (s: string)
    ensures |s| == n && AllDigits(s)
  {
    seq(n, i => '9')
  }

  /** n nines are worth 10^n - 1. */
  lemma {:induction false} NinesValue(n: nat)
    ensures DigitsValue(Nines(n)) == Pow10(n) - 1
  {
    if n > 0 {
      assert Nines(n)[..n - 1] == Nines(n - 1);
      NinesValue(n - 1);
    }
  }

  lemma {:induction false} Pow10Add(a: nat, b: nat)
    ensures Pow10(a + b) == Pow10(a) * Pow10(b)
    decreases a
  {
    if a > 0 {
      Pow10Add(a - 1, b);
    }
  }

  /** Twenty nines are worth more than 2^64 - 1. */
  lemma TwentyNinesOverflow()
    ensures DigitsValue(Nines(20)) > MaxUint64
  {
    NinesValue(20);
    assert Pow10(5) == 100000;
    Pow10Add(5, 5);
    Pow10Add(10, 10);
  }

  /** Twenty nines overflow 2^64 - 1, so the trailing 'x' is never read. */
  lemma AtoiOverflowBeforeSyntax()
    ensures Atoi(Nines(20) + "x") == AtoiResult(MaxInt64, false)
    ensures Atoi("-" + Nines(20) + "x") == AtoiResult(MinInt64, false)
  {
    TwentyNinesOverflow();
    LeadingDigitsBefore(Nines(20), "x");
    assert ("-" + Nines(20) + "x")[1..] == Nines(20) + "x";
  }

  /** Without overflow a bad character is a syntax error: "1x" gives 0. */
  lemma AtoiSyntaxError()
    ensures Atoi("1x") == AtoiResult(0, false)
  {
    LeadingDigitsBefore("1", "x");
    assert "1x" == "1" + "x";
  }

  // ---------------------------------------------------------------------
  // fmt.Sprintf("%d", x)
  // ---------------------------------------------------------------------

  /** Shortest decimal rendering of a natural number. */
  function NatString(n: nat): (s: string)
    ensures |s| > 0 && AllDigits(s) && DigitsValue(s) == n
    ensures s[0] == '0' ==> n == 0 && |s| == 1
    decreases n
  {
    if n < 10 then [DigitChar(n)]
    else
      var s := NatString(n / 10) + [DigitChar(n % 10)];
      assert s[..|s| - 1] == NatString(n / 10);
      s
  }

  /** fmt's "%d": a leading '-' for negative numbers, then the digits, with no leading zero. */
  function FormatInt(x: int): (s: string)
    ensures |s| > 0
    ensures DecimalValue(s) == Decimal(x)
    ensures s[0] == '-' <==> x < 0
    ensures var d := if x < 0 then s[1..] else s;
      |d| > 0 && AllDigits(d) && (d[0] == '0' ==> x == 0 && |d| == 1)
  {
    if x < 0 then
      var s := "-" + NatString(-x);
      assert s[1..] == NatString(-x);
      s
    else NatString(x)
  }

  lemma FormatIntHasNoChar(x: int, c: char)
    requires !IsDigit(c) && c != '-'
    ensures c !in FormatInt(x)
  {
    var s := FormatInt(x);
    if x < 0 {
      assert s == "-" + NatString(-x);
      assert forall i :: 1 <= i < |s| ==> s[i] == NatString(-x)[i - 1];
    }
  }

  /** Atoi reads back what "%d" writes, for every int64. */
  lemma AtoiFormatInt(x: int)
    requires IsInt64(x)
    ensures Atoi(FormatInt(x)) == AtoiResult(x, true)
  {
  }

  // ---------------------------------------------------------------------
  // strings.Split and strings.Join with a one-character separator
  // ---------------------------------------------------------------------

  function Join(parts: seq<string>, sep: char): string
    decreases |parts|
  {
    if |parts| == 0 then ""
    else if |parts| == 1 then parts[0]
    else parts[0] + [sep] + Join(parts[1..], sep)
  }

  /** strings.Split(s, sep): the text between separators, one more part than there are separators. */
  function Split(s: string, sep: char): (parts: seq<string>)
    ensures |parts| >= 1
    decreases |s|
  {
    if |s| == 0 then [""]
    else
      var rest := Split(s[1..], sep);
      if s[0] == sep then [""] + rest
      else [[s[0]] + rest[0]] + rest[1..]
  }

  /** The parts hold no separator, and joining them with it gives the text back. */
  lemma {:induction false} SplitParts(s: string, sep: char)
    ensures forall i :: 0 <= i < |Split(s, sep)| ==> sep !in Split(s, sep)[i]
    ensures Join(Split(s, sep), sep) == s
    decreases |s|
  {
    if |s| > 0 {
      var rest := Split(s[1..], sep);
      SplitParts(s[1..], sep);
      var parts := Split(s, sep);
      if s[0] == sep {
        assert parts == [""] + rest && parts[1..] == rest;
        forall i | 0 < i < |parts| ensures sep !in parts[i] {
          assert parts[i] == rest[i - 1];
        }
        assert s == [sep] + s[1..];
      } else {
        assert parts == [[s[0]] + rest[0]] + rest[1..];
        forall i | 0 < i < |parts| ensures sep !in parts[i] {
          assert parts[i] == rest[i];
        }
        assert |rest| > 1 ==> parts[1..] == rest[1..];
        assert Join(rest, sep) == if |rest| == 1 then rest[0] else rest[0] + [sep] + Join(rest[1..], sep);
        assert s == [s[0]] + s[1..];
      }
    }
  }

  lemma {:induction false} SplitNoSeparator(a: string, sep: char)
    requires sep !in a
    ensures Split(a, sep) == [a]
    decreases |a|
  {
    if |a| > 0 {
      SplitNoSeparator(a[1..], sep);
      assert [a[0]] + a[1..] == a;
    }
  }

  lemma {:induction false} SplitAfterSeparator(a: string, sep: char, b: string)
    requires sep !in a
    ensures Split(a + [sep] + b, sep) == [a] + Split(b, sep)
    decreases |a|
  {
    var s := a + [sep] + b;
    if |a| == 0 {
      assert s[1..] == b;
    } else {
      assert s[1..] == a[1..] + [sep] + b;
      SplitAfterSeparator(a[1..], sep, b);
      assert [a[0]] + a[1..] == a;
    }
  }

  /** Splitting a join gives the parts back when no part contains the separator. */
  lemma {:induction false} SplitJoin(parts: seq<string>, sep: char)
    requires |parts| >= 1
    requires forall i :: 0 <= i < |parts| ==> sep !in parts[i]
    ensures Split(Join(parts, sep), sep) == parts
    decreases |parts|
  {
    if |parts| == 1 {
      SplitNoSeparator(parts[0], sep);
    } else {
      SplitJoin(parts[1..], sep);
      SplitAfterSeparator(parts[0], sep, Join(parts[1..], sep));
      assert [parts[0]] + parts[1..] == parts;
    }
  }

  // ---------------------------------------------------------------------
  // strings.ReplaceAll
  // ---------------------------------------------------------------------

  /** strings.ReplaceAll(s, pat, rep) for non-empty pat: leftmost, non-overlapping replacement. */
  function ReplaceAll(s: string, pat: string, rep: string): string
    requires |pat| > 0
    decreases |s|
  {
    if |s| < |pat| then s
    else if s[..|pat|] == pat then rep + ReplaceAll(s[|pat|..], pat, rep)
    else [s[0]] + ReplaceAll(s[1..], pat, rep)
  }

  /** Text without the pattern's first character is left as it is. */
  lemma {:induction false} ReplaceAllAbsent(s: string, pat: string, rep: string)
    requires |pat| > 0 && pat[0] !in s
    ensures ReplaceAll(s, pat, rep) == s
    decreases |s|
  {
    if |s| >= |pat| {
      assert s[..|pat|][0] == s[0];
      ReplaceAllAbsent(s[1..], pat, rep);
    }
  }

  /** A prefix free of the pattern's first character is copied, and the occurrence after it replaced. */
  lemma {:induction false} ReplaceAllAfterPlainPrefix(pre: string, pat: string, post: string, rep: string)
    requires |pat| > 0 && pat[0] !in pre
    ensures ReplaceAll(pre + pat + post, pat, rep) == pre + rep + ReplaceAll(post, pat, rep)
    decreases |pre|
  {
    var s := pre + pat + post;
    if |pre| == 0 {
      assert s == pat + post;
      assert s[..|pat|] == pat && s[|pat|..] == post;
    } else {
      assert s[0] == pre[0] && pre[0] in pre;
      assert s[..|pat|] != pat by { assert s[..|pat|][0] == s[0]; }
      assert s[1..] == pre[1..] + pat + post;
      assert ReplaceAll(s, pat, rep) == [s[0]] + ReplaceAll(s[1..], pat, rep);
      ReplaceAllAfterPlainPrefix(pre[1..], pat, post, rep);
      assert [pre[0]] + pre[1..] == pre;
    }
  }

  // ---------------------------------------------------------------------
  // sort.Ints
  // ---------------------------------------------------------------------

  predicate Ascending(s: seq<int>)
  {
    forall i, j :: 0 <= i < j < |s| ==> s[i] <= s[j]
  }

  lemma AscendingCons(a: int, t: seq<int>)
    requires Ascending(t)
    requires forall j :: 0 <= j < |t| ==> a <= t[j]
    ensures Ascending([a] + t)
  {
    var r := [a] + t;
    forall i, j | 0 <= i < j < |r| ensures r[i] <= r[j] {
      assert r[j] == t[j - 1];
      if i > 0 { assert r[i] == t[i - 1]; }
    }
  }

  function InsertAscending(x: int, s: seq<int>): (r: seq<int>)
    requires Ascending(s)
    ensures Ascending(r)
    ensures multiset(r) == multiset(s) + multiset{x}
    decreases |s|
  {
    if |s| == 0 then [x]
    else if x <= s[0] then
      AscendingCons(x, s);
      [x] + s
    else
      var tail := InsertAscending(x, s[1..]);
      assert s == [s[0]] + s[1..];
      forall j | 0 <= j < |tail| ensures s[0] <= tail[j] {
        assert tail[j] in multiset(tail);
        assert tail[j] == x || tail[j] in s[1..];
      }
      AscendingCons(s[0], tail);
      [s[0]] + tail
  }

  /** sort.Ints: the same integers in ascending order (the algorithm itself is the library's). */
  function SortInts(s: seq<int>): (r: seq<int>)
    ensures Ascending(r)
    ensures multiset(r) == multiset(s)
    decreases |s|
  {
    if |s| == 0 then []
    else
      assert s == s[..|s| - 1] + [s[|s| - 1]];
      InsertAscending(s[|s| - 1], SortInts(s[..|s| - 1]))
  }
}
