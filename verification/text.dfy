/**
 Models of the few Go `strings` and `strconv` operations the core relies on:
 `strings.Split` with a one-character separator, `TrimPrefix`/`TrimSuffix`,
 `strings.Fields`, `%d` formatting and `strconv.ParseUint(s, 10, 64)`.
 Strings are sequences of Unicode code points.
 */
module Text {
  import opened Wrappers

  /** 2^64: the first value `ParseUint(_, 10, 64)` rejects as out of range. */
  const U64: nat := 0x1_0000_0000_0000_0000

  // ---------------------------------------------------------------------------
  // Prefixes and suffixes

  predicate IsSuffix(suffix: string, s: string) {
    |suffix| <= |s| && s[|s| - |suffix|..] == suffix
  }

  /** strings.TrimPrefix: drop `prefix` once if `s` starts with it. */
  function TrimPrefix(s: string, prefix: string): (r: string)
    ensures prefix <= s ==> prefix + r == s
    ensures !(prefix <= s) ==> r == s
  {
    if prefix <= s then s[|prefix|..] else s
  }

  /** strings.TrimSuffix: drop `suffix` once if `s` ends with it. */
  function TrimSuffix(s: string, suffix: string): (r: string)
    ensures IsSuffix(suffix, s) ==> r + suffix == s
    ensures !IsSuffix(suffix, s) ==> r == s
  {
    if IsSuffix(suffix, s) then s[..|s| - |suffix|] else s
  }

  // ---------------------------------------------------------------------------
  // Splitting on a one-character separator

  /** Index of the first occurrence of `c` in `s`. */
  function FirstIndexOf(s: string, c: char): (r: Option<nat>)
    ensures r.Some? ==> r.value < |s| && s[r.value] == c && c !in s[..r.value]
    ensures r.None? <==> c !in s
  {
    if |s| == 0 then None
    else if s[0] == c then Some(0)
    else match FirstIndexOf(s[1..], c)
      case None => None
      case Some(i) => assert s[..i + 1] == [s[0]] + s[1..][..i]; Some(i + 1)
  }

  /** The inverse of Split: the pieces with `sep` between consecutive ones. */
  function Join(parts: seq<string>, sep: char): string
    requires |parts| >= 1
  {
    if |parts| == 1 then parts[0] else parts[0] + [sep] + Join(parts[1..], sep)
  }

  /**
   strings.Split(s, string(sep)): the maximal pieces of `s` between occurrences
   of `sep`; `n` separators give `n + 1` pieces, so Split("", sep) == [""].
   */
  function Split(s: string, sep: char): (r: seq<string>)
    ensures |r| >= 1
    ensures forall i :: 0 <= i < |r| ==> sep !in r[i]
    ensures Join(r, sep) == s
    decreases |s|
  {
    match FirstIndexOf(s, sep)
    case None => [s]
    case Some(i) =>
      var rest := Split(s[i + 1..], sep);
      assert s == s[..i] + [sep] + s[i + 1..];
      [s[..i]] + rest
  }

  /** Splitting undoes joining pieces that do not contain the separator. */
  lemma {:induction false} SplitJoin(parts: seq<string>, sep: char)
    requires |parts| >= 1
    requires forall i :: 0 <= i < |parts| ==> sep !in parts[i]
    ensures Split(Join(parts, sep), sep) == parts
    decreases |parts|
  {
    if |parts| == 1 {
      assert FirstIndexOf(parts[0], sep).None?;
    } else {
      var s := Join(parts, sep);
      var tail := Join(parts[1..], sep);
      assert s == parts[0] + [sep] + tail;
      var k := |parts[0]|;
      assert s[..k] == parts[0];
      assert s[k] == sep;
      assert FirstIndexOf(s, sep) == Some(k) by {
        assert sep in s[..k + 1];
      }
      assert s[k + 1..] == tail;
      SplitJoin(parts[1..], sep);
      assert Split(s, sep) == [parts[0]] + parts[1..];
    }
  }

  lemma {:induction false} JoinAppend(p: seq<string>, q: seq<string>, sep: char)
    requires |p| >= 1 && |q| >= 1
    ensures Join(p + q, sep) == Join(p, sep) + [sep] + Join(q, sep)
    decreases |p|
  {
    if |p| > 1 {
      assert (p + q)[1..] == p[1..] + q;
      JoinAppend(p[1..], q, sep);
    }
  }

  /** Splitting around one separator splits the two sides independently. */
  lemma SplitAround(a: string, b: string, sep: char)
    ensures Split(a + [sep] + b, sep) == Split(a, sep) + Split(b, sep)
  {
    var pa := Split(a, sep);
    var pb := Split(b, sep);
    JoinAppend(pa, pb, sep);
    SplitJoin(pa + pb, sep);
  }

  /** The number of pieces is one more than the number of separators. */
  lemma {:induction false} SplitCount(s: string, sep: char)
    ensures |Split(s, sep)| == multiset(s)[sep] + 1
    decreases |s|
  {
    match FirstIndexOf(s, sep)
    case None =>
    case Some(i) =>
      assert s == s[..i] + [sep] + s[i + 1..];
      assert multiset(s[..i])[sep] == 0;
      SplitCount(s[i + 1..], sep);
  }

  /** With two or more pieces, the input ends with the separator followed by the last piece. */
  lemma {:induction false} SplitLast(s: string, sep: char)
    requires |Split(s, sep)| >= 2
    ensures IsSuffix([sep] + Split(s, sep)[|Split(s, sep)| - 1], s)
    decreases |s|
  {
    var i := FirstIndexOf(s, sep).value;
    var tail := s[i + 1..];
    var rest := Split(tail, sep);
    assert Split(s, sep) == [s[..i]] + rest;
    if |rest| >= 2 {
      SplitLast(tail, sep);
    } else {
      assert rest[0] == tail;
      assert s[i..] == [sep] + tail;
    }
  }

  /**
   strings.Cut on a one-character separator: the text before the first `sep`
   and the text after it, or the whole of `s` and "" when `sep` does not occur.
   */
  function Cut(s: string, sep: char): (r: (string, string))
    ensures sep !in r.0
    ensures sep in s ==> r.0 + [sep] + r.1 == s
    ensures sep !in s ==> r == (s, "")
  {
    match FirstIndexOf(s, sep)
    case None => (s, "")
    case Some(i) =>
      assert s == s[..i] + [sep] + s[i + 1..];
      (s[..i], s[i + 1..])
  }

  /** Cutting at the first separator gives back the two sides, when the first side has none. */
  lemma CutAt(a: string, b: string, sep: char)
    requires sep !in a
    ensures Cut(a + [sep] + b, sep) == (a, b)
  {
    var s := a + [sep] + b;
    assert s[..|a|] == a;
    assert sep in s[..|a| + 1];
    assert FirstIndexOf(s, sep) == Some(|a|);
    assert s[|a| + 1..] == b;
  }

  // ---------------------------------------------------------------------------
  // strings.Fields

  /** unicode.IsSpace: the White_Space characters Go's strings.Fields splits on. */
  predicate IsSpace(c: char) {
    c == ' ' || c == '\t' || c == '\n' || c == '\U{0B}' || c == '\U{0C}' || c == '\r'
    || c == '\U{85}' || c == '\U{A0}' || c == '\U{1680}'
    || ('\U{2000}' <= c <= '\U{200A}')
    || c == '\U{2028}' || c == '\U{2029}' || c == '\U{202F}' || c == '\U{205F}' || c == '\U{3000}'
  }

  /** `s` without its white-space characters. */
  function Squeeze(s: string): string {
    if |s| == 0 then []
    else (if IsSpace(s[0]) then [] else [s[0]]) + Squeeze(s[1..])
  }

  function Concat(parts: seq<string>): string {
    if |parts| == 0 then [] else parts[0] + Concat(parts[1..])
  }

  /** Length of the longest prefix of `s` that contains no white space. */
  function WordLength(s: string): (n: nat)
    ensures n <= |s|
    ensures forall i :: 0 <= i < n ==> !IsSpace(s[i])
    ensures n < |s| ==> IsSpace(s[n])
  {
    if |s| == 0 || IsSpace(s[0]) then 0 else 1 + WordLength(s[1..])
  }

  lemma {:induction false} SqueezeAppend(a: string, b: string)
    ensures Squeeze(a + b) == Squeeze(a) + Squeeze(b)
    decreases |a|
  {
    if |a| == 0 {
      assert a + b == b;
    } else {
      assert (a + b)[1..] == a[1..] + b;
      SqueezeAppend(a[1..], b);
    }
  }

  lemma {:induction false} SqueezeWord(w: string)
    requires forall i :: 0 <= i < |w| ==> !IsSpace(w[i])
    ensures Squeeze(w) == w
    decreases |w|
  {
    if |w| > 0 {
      SqueezeWord(w[1..]);
      assert w == [w[0]] + w[1..];
    }
  }

  /**
   strings.Fields: the maximal runs of non-white-space characters of `s`, in
   order. Every field is non-empty and white-space free, and the fields put
   back together are `s` with its white space removed.
   */
  function Fields(s: string): (r: seq<string>)
    ensures forall i :: 0 <= i < |r| ==> |r[i]| > 0
    ensures forall i, j :: 0 <= i < |r| && 0 <= j < |r[i]| ==> !IsSpace(r[i][j])
    ensures Concat(r) == Squeeze(s)
    decreases |s|
  {
    if |s| == 0 then []
    else if IsSpace(s[0]) then
      Fields(s[1..])
    else
      var n := WordLength(s);
      var rest := Fields(s[n..]);
      assert s == s[..n] + s[n..];
      SqueezeAppend(s[..n], s[n..]);
      SqueezeWord(s[..n]);
      [s[..n]] + rest
  }

  // ---------------------------------------------------------------------------
  // Decimal numbers

  predicate IsDigit(c: char) {
    '0' <= c <= '9'
  }

  predicate AllDigits(s: string) {
    forall i :: 0 <= i < |s| ==> IsDigit(s[i])
  }

  function DigitChar(d: nat): (c: char)
    requires d < 10
    ensures IsDigit(c) && (c as int) - ('0' as int) == d
  {
    (('0' as int) + d) as char
  }

  /** The value of a string of decimal digits, most significant first. */
  function DigitsValue(s: string): nat
    requires AllDigits(s)
  {
    if |s| == 0 then 0
    else 10 * DigitsValue(s[..|s| - 1]) + ((s[|s| - 1] as int) - ('0' as int))
  }

  /** Go's `%d` for a non-negative number: decimal digits, no leading zero. */
  function NatToString(n: nat): (r: string)
    ensures |r| >= 1 && AllDigits(r)
    ensures |r| > 1 ==> r[0] != '0'
    ensures DigitsValue(r) == n
  {
    if n < 10 then [DigitChar(n)]
    else
      var prefix := NatToString(n / 10);
      var r := prefix + [DigitChar(n % 10)];
      assert r[..|r| - 1] == prefix;
      r
  }

  /** Go's `%d`: a minus sign before the digits of a negative number. */
  function IntToString(n: int): (r: string)
    ensures n >= 0 ==> AllDigits(r) && DigitsValue(r) == n
    ensures n < 0 ==> |r| >= 2 && r[0] == '-' && AllDigits(r[1..]) && DigitsValue(r[1..]) == -n
  {
    if n >= 0 then NatToString(n) else "-" + NatToString(-n)
  }

  /**
   strconv.ParseUint(s, 10, 64): succeeds exactly on a non-empty string of
   ASCII digits (no sign, no underscores) whose value is below 2^64.
   */
  function ParseUint(s: string): (r: Option<nat>)
    ensures r.Some? <==> |s| > 0 && AllDigits(s) && DigitsValue(s) < U64
    ensures r.Some? ==> r.value == DigitsValue(s) && r.value < U64
  {
    if |s| > 0 && AllDigits(s) && DigitsValue(s) < U64 then Some(DigitsValue(s)) else None
  }

  /** Every value below 2^64 printed in decimal parses back to itself. */
  lemma ParseUintFormat(n: nat)
    requires n < U64
    ensures ParseUint(NatToString(n)) == Some(n)
  {
  }
}
