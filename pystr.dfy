/** Python 2 byte strings (`str`) and the `str` and `list` operations the
    converter relies on: `list.index`, `sep.join`, `s.split(sep)`,
    `s.strip()` and the `{:03d}` number format. */
module PyStr {

  /** The usual optional value. */
  datatype Option<+T> = None | Some(value: T)

  /** One byte of a Python 2 `str`. It is kept as a character below 256 so
      that ASCII literals such as "add" or ',' can be written directly. */
  type Char8 = c: char | c as int < 256 witness 'a'

  /** A Python 2 `str`: a sequence of bytes, with no decoding applied. */
  type Str = seq<Char8>

  /** `s.index(x)`: the position of the first occurrence of `x` in `s`;
      `None` where Python raises `ValueError`. */
  function IndexOf<T(==)>(s: seq<T>, x: T): (r: Option<nat>)
    ensures r.None? <==> x !in s
    ensures r.Some? ==> r.value < |s| && s[r.value] == x
    ensures r.Some? ==> forall j :: 0 <= j < r.value ==> s[j] != x
  {
    if s == [] then None
    else if s[0] == x then Some(0)
    else match IndexOf(s[1..], x)
      case None => None
      case Some(i) => Some(i + 1)
  }

  /** The first occurrence of `x` is not moved by columns added after it. */
  lemma {:induction false} IndexOfAppend<T>(s: seq<T>, extra: seq<T>, x: T)
    requires x in s
    ensures IndexOf(s + extra, x) == IndexOf(s, x)
  {
    if s[0] != x {
      assert (s + extra)[1..] == s[1..] + extra;
      IndexOfAppend(s[1..], extra, x);
    }
  }

  /** `sep.join(pieces)`. */
  function Join(pieces: seq<Str>, sep: Char8): Str
  {
    if pieces == [] then []
    else if |pieces| == 1 then pieces[0]
    else pieces[0] + [sep] + Join(pieces[1..], sep)
  }

  /** The number of occurrences of `c` in `s` (`s.count(c)`). */
  function Count(s: Str, c: Char8): nat
  {
    if s == [] then 0 else (if s[0] == c then 1 else 0) + Count(s[1..], c)
  }

  /** `s.split(sep)` with an explicit one-byte separator: one more piece than
      there are separators, no piece holding the separator, and the pieces
      joined back with the separator give `s` again. */
  function SplitOn(s: Str, sep: Char8): (r: seq<Str>)
    ensures |r| == Count(s, sep) + 1
    ensures forall k :: 0 <= k < |r| ==> sep !in r[k]
    ensures Join(r, sep) == s
  {
    if s == [] then [[]]
    else
      var rest := SplitOn(s[1..], sep);
      if s[0] == sep then
        assert [sep] + s[1..] == s;
        [[]] + rest
      else
        assert [s[0]] + s[1..] == s;
        [[s[0]] + rest[0]] + rest[1..]
  }

  /** Splitting `a + [sep] + b` when `a` holds no separator yields `a` first. */
  lemma {:induction false} SplitOnFirst(a: Str, sep: Char8, b: Str)
    requires sep !in a
    ensures SplitOn(a + [sep] + b, sep) == [a] + SplitOn(b, sep)
  {
    if a != [] {
      assert (a + [sep] + b)[1..] == a[1..] + [sep] + b;
      SplitOnFirst(a[1..], sep, b);
      assert [a[0]] + a[1..] == a;
    } else {
      assert (a + [sep] + b)[1..] == b;
    }
  }

  /** The converse round trip: pieces without separators are recovered
      exactly by splitting their join. */
  lemma {:induction false} SplitOnJoin(pieces: seq<Str>, sep: Char8)
    requires |pieces| >= 1
    requires forall k :: 0 <= k < |pieces| ==> sep !in pieces[k]
    ensures SplitOn(Join(pieces, sep), sep) == pieces
  {
    if |pieces| == 1 {
      SplitOnNoSep(pieces[0], sep);
    } else {
      SplitOnJoin(pieces[1..], sep);
      SplitOnFirst(pieces[0], sep, Join(pieces[1..], sep));
      assert [pieces[0]] + pieces[1..] == pieces;
    }
  }

  /** A string without the separator splits into itself alone. */
  lemma {:induction false} SplitOnNoSep(s: Str, sep: Char8)
    requires sep !in s
    ensures SplitOn(s, sep) == [s]
  {
    if s != [] {
      SplitOnNoSep(s[1..], sep);
      assert [s[0]] + s[1..] == s;
    }
  }

  /** The bytes Python 2's `str.strip()` removes: space, tab, line feed,
      vertical tab, form feed and carriage return. */
  predicate IsSpace(c: Char8)
  {
    c == ' ' || 9 <= c as int <= 13
  }

  /** Every byte of `s` from `lo` (inclusive) to `hi` (exclusive) is whitespace. */
  predicate SpaceBetween(s: Str, lo: int, hi: int)
  {
    forall k :: lo <= k < hi && 0 <= k < |s| ==> IsSpace(s[k])
  }

  /** The number of whitespace bytes `s.lstrip()` removes. */
  function LeadingSpaces(s: Str): (n: nat)
    ensures n <= |s| && SpaceBetween(s, 0, n)
    ensures n < |s| ==> !IsSpace(s[n])
  {
    if s != [] && IsSpace(s[0]) then 1 + LeadingSpaces(s[1..]) else 0
  }

  /** Where `s.rstrip()` cuts `s`, never going below `lo`: everything after
      the cut is whitespace and the byte before it (if above `lo`) is not. */
  function TrailingCut(s: Str, lo: nat): (n: nat)
    requires lo <= |s|
    ensures lo <= n <= |s| && SpaceBetween(s, n, |s|)
    ensures n > lo ==> !IsSpace(s[n - 1])
  {
    if |s| > lo && IsSpace(s[|s| - 1]) then TrailingCut(s[..|s| - 1], lo) else |s|
  }

  /** `s.strip()`: the slice of `s` left once the leading and trailing
      whitespace is removed. What is dropped on either side is whitespace and
      what is kept neither starts nor ends with whitespace (together these
      determine the result); nothing is kept exactly when `s` is all
      whitespace. */
  function Strip(s: Str): (r: Str)
    ensures var i := LeadingSpaces(s);
      && i + |r| <= |s| && r == s[i..i + |r|]
      && SpaceBetween(s, 0, i) && SpaceBetween(s, i + |r|, |s|)
    ensures r == [] || (!IsSpace(r[0]) && !IsSpace(r[|r| - 1]))
    ensures r == [] <==> SpaceBetween(s, 0, |s|)
  {
    var i := LeadingSpaces(s);
    var j := TrailingCut(s, i);
    assert i < |s| ==> j > i;
    s[i..j]
  }

  /** A byte absent from `s` is absent from `s.strip()`. */
  lemma StripKeepsOut(s: Str, c: Char8)
    requires c !in s
    ensures c !in Strip(s)
  {
    var r := Strip(s);
    var i := LeadingSpaces(s);
    forall k | 0 <= k < |r| ensures r[k] != c {
      assert r[k] == s[i + k];
    }
  }

  lemma AppendAssoc<T>(a: seq<T>, b: seq<T>, c: seq<T>)
    ensures a + (b + c) == (a + b) + c
  {
  }

  /** A byte that is a decimal digit. */
  predicate IsDigit(c: Char8)
  {
    '0' <= c <= '9'
  }

  predicate AllDigits(s: Str)
  {
    forall i :: 0 <= i < |s| ==> IsDigit(s[i])
  }

  function DigitChar(d: nat): (c: Char8)
    requires d < 10
    ensures IsDigit(c) && c as int - '0' as int == d
  {
    ('0' as int + d) as char
  }

  /** The number a string of decimal digits denotes (leading zeros allowed). */
  function DecimalValue(s: Str): nat
    requires AllDigits(s)
  {
    if s == [] then 0
    else DecimalValue(s[..|s| - 1]) * 10 + (s[|s| - 1] as int - '0' as int)
  }

  /** `str(n)`: the shortest decimal representation of `n`. */
  function Decimal(n: nat): (r: Str)
    ensures 1 <= |r| && AllDigits(r) && DecimalValue(r) == n
    ensures |r| > 1 ==> r[0] != '0'
    ensures n < 1000 ==> |r| <= 3
    ensures n >= 1000 ==> |r| > 3
  {
    if n < 10 then [DigitChar(n)]
    else
      var r := Decimal(n / 10) + [DigitChar(n % 10)];
      assert r[..|r| - 1] == Decimal(n / 10);
      r
  }

  /** Leading zeros do not change the value of a digit string. */
  lemma {:induction false} DecimalValueZeros(z: Str, s: Str)
    requires forall i :: 0 <= i < |z| ==> z[i] == '0'
    requires AllDigits(s)
    ensures AllDigits(z + s) && DecimalValue(z + s) == DecimalValue(s)
  {
    if s == [] {
      assert z + s == z;
      if z != [] {
        DecimalValueZeros(z[..|z| - 1], []);
        assert z[..|z| - 1] + [] == z[..|z| - 1];
      }
    } else {
      assert (z + s)[..|z + s| - 1] == z + s[..|s| - 1];
      DecimalValueZeros(z, s[..|s| - 1]);
    }
  }

  /** `"{:03d}".format(n)`: at least three digits, zero-padded on the left,
      denoting `n`; exactly three digits below 1000, and never more digits
      than needed. */
  function Format03d(n: nat): (r: Str)
    ensures AllDigits(r) && DecimalValue(r) == n
    ensures n < 1000 ==> |r| == 3
    ensures |r| > 3 ==> r[0] != '0'
  {
    var d := Decimal(n);
    if |d| < 3 then
      var z := seq(3 - |d|, _ => '0');
      DecimalValueZeros(z, d);
      z + d
    else d
  }
}
