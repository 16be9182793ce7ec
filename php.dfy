/**
 * The PHP string and number primitives the plugin relies on, on byte strings:
 * a `string` here is a sequence of bytes, one `char` per byte, so `|s|` is
 * PHP's strlen.
 */
module Php {
  import opened Wrappers

  /** The bytes PHP's trim() strips: space, tab, line feed, carriage return, NUL and vertical tab. */
  predicate IsTrimmable(c: char)
  {
    c == ' ' || c == '\t' || c == '\n' || c == '\r' || c == '\0' || c == '\U{0B}'
  }

  /** The bytes PCRE's `\s` matches: space, tab, line feed, vertical tab, form feed, carriage return. */
  predicate IsRegexSpace(c: char)
  {
    c == ' ' || c == '\t' || c == '\n' || c == '\U{0B}' || c == '\U{0C}' || c == '\r'
  }

  /** PHP ltrim($s) with the default character list. */
  function TrimLeft(s: string): (r: string)
    ensures |r| <= |s|
  {
    if s != [] && IsTrimmable(s[0]) then TrimLeft(s[1..]) else s
  }

  /** PHP rtrim($s) with the default character list. */
  function TrimRight(s: string): (r: string)
    ensures |r| <= |s|
  {
    if s != [] && IsTrimmable(s[|s| - 1]) then TrimRight(s[..|s| - 1]) else s
  }

  /** PHP trim($s) with the default character list. */
  function Trim(s: string): (r: string)
    ensures |r| <= |s|
  {
    TrimRight(TrimLeft(s))
  }

  /** TrimLeft drops exactly the leading run of trimmable bytes. */
  lemma {:induction false} TrimLeftSpec(s: string)
    ensures var r := TrimLeft(s);
      r == s[|s| - |r|..]
      && (r == [] || !IsTrimmable(r[0]))
      && forall i :: 0 <= i < |s| - |r| ==> IsTrimmable(s[i])
  {
    if s != [] && IsTrimmable(s[0]) {
      TrimLeftSpec(s[1..]);
    }
  }

  /** TrimRight drops exactly the trailing run of trimmable bytes. */
  lemma {:induction false} TrimRightSpec(s: string)
    ensures var r := TrimRight(s);
      r == s[..|r|]
      && (r == [] || !IsTrimmable(r[|r| - 1]))
      && forall i :: |r| <= i < |s| ==> IsTrimmable(s[i])
  {
    if s != [] && IsTrimmable(s[|s| - 1]) {
      TrimRightSpec(s[..|s| - 1]);
    }
  }

  /** trim() leaves no trimmable byte at either end, and trimming twice changes nothing. */
  lemma {:induction false} TrimSpec(s: string)
    ensures var r := Trim(s);
      (r == [] || (!IsTrimmable(r[0]) && !IsTrimmable(r[|r| - 1])))
      && Trim(r) == r
  {
    var l := TrimLeft(s);
    TrimLeftSpec(s);
    TrimRightSpec(l);
    var r := TrimRight(l);
    if r != [] {
      assert r[0] == l[0];
    }
  }

  /** The leading run of `\s` bytes removed (a regular expression's `\s*`). */
  function SkipSpaces(s: string): (r: string)
    ensures |r| <= |s| && r == s[|s| - |r|..]
    ensures r == [] || !IsRegexSpace(r[0])
  {
    if s != [] && IsRegexSpace(s[0]) then SkipSpaces(s[1..]) else s
  }

  /** PHP empty() on a string: the empty string and "0" are empty. */
  predicate IsEmpty(s: string)
  {
    s == "" || s == "0"
  }

  /** Byte-wise lower-casing of ASCII letters (PHP 8 strtolower). */
  function LowerChar(c: char): char
  {
    if 'A' <= c <= 'Z' then (c as int + 32) as char else c
  }

  function ToLower(s: string): (r: string)
    ensures |r| == |s|
    ensures forall i :: 0 <= i < |s| ==> r[i] == LowerChar(s[i])
  {
    seq(|s|, i requires 0 <= i < |s| => LowerChar(s[i]))
  }

  /** Byte-wise upper-casing of ASCII letters (PHP 8 strtoupper). */
  function UpperChar(c: char): char
  {
    if 'a' <= c <= 'z' then (c as int - 32) as char else c
  }

  function ToUpper(s: string): (r: string)
    ensures |r| == |s|
    ensures forall i :: 0 <= i < |s| ==> r[i] == UpperChar(s[i])
  {
    seq(|s|, i requires 0 <= i < |s| => UpperChar(s[i]))
  }

  predicate StartsWith(s: string, prefix: string)
  {
    |prefix| <= |s| && s[..|prefix|] == prefix
  }

  /** `t` occurs in `s` starting at byte offset `i`. */
  predicate OccursAt(s: string, t: string, i: int)
  {
    0 <= i && i + |t| <= |s| && s[i..i + |t|] == t
  }

  function FindFrom(s: string, t: string, from: nat): (r: Option<nat>)
    requires from <= |s|
    ensures r.Some? ==> from <= r.value && OccursAt(s, t, r.value)
    ensures r.Some? ==> forall j :: from <= j < r.value ==> !OccursAt(s, t, j)
    ensures r.None? ==> forall j :: from <= j <= |s| ==> !OccursAt(s, t, j)
    decreases |s| - from
  {
    if OccursAt(s, t, from) then Some(from)
    else if from == |s| then None
    else FindFrom(s, t, from + 1)
  }

  /** PHP strpos($s, $t): the leftmost occurrence of `t` in `s`, if any. */
  function Find(s: string, t: string): (r: Option<nat>)
    ensures r.Some? ==> OccursAt(s, t, r.value) && forall j :: 0 <= j < r.value ==> !OccursAt(s, t, j)
    ensures r.None? ==> forall j :: 0 <= j <= |s| ==> !OccursAt(s, t, j)
  {
    FindFrom(s, t, 0)
  }

  /** strpos($s, $t) !== false */
  predicate Contains(s: string, t: string)
  {
    Find(s, t).Some?
  }

  predicate IsDigit(c: char)
  {
    '0' <= c <= '9'
  }

  function Digit(n: nat): (c: char)
    requires n < 10
    ensures IsDigit(c) && c as int - '0' as int == n
  {
    ('0' as int + n) as char
  }

  /** The decimal digits of a natural number, as PHP prints an int (and %d formats it). */
  function NatToString(n: nat): (r: string)
    ensures 1 <= |r|
  {
    if n < 10 then [Digit(n)] else NatToString(n / 10) + [Digit(n % 10)]
  }

  predicate AllDigits(s: string)
  {
    forall i :: 0 <= i < |s| ==> IsDigit(s[i])
  }

  lemma {:induction false} NatToStringDigits(n: nat)
    ensures AllDigits(NatToString(n))
  {
    if n >= 10 {
      NatToStringDigits(n / 10);
    }
  }

  function DigitValue(c: char): nat
    requires IsDigit(c)
  {
    c as int - '0' as int
  }

  /** The value of a string of decimal digits. */
  function ParseDigits(s: string): nat
    requires AllDigits(s)
  {
    if s == [] then 0 else ParseDigits(s[..|s| - 1]) * 10 + DigitValue(s[|s| - 1])
  }

  /** Printing a number and reading it back gives the number. */
  lemma {:induction false} ParseNatToString(n: nat)
    ensures AllDigits(NatToString(n)) && ParseDigits(NatToString(n)) == n
  {
    NatToStringDigits(n);
    if n >= 10 {
      var r := NatToString(n);
      assert r[..|r| - 1] == NatToString(n / 10);
      ParseNatToString(n / 10);
    }
  }

  /** str_pad($s, 2, "0", STR_PAD_LEFT) */
  function PadLeft2(s: string): (r: string)
    ensures |r| == if |s| < 2 then 2 else |s|
    ensures r[|r| - |s|..] == s
    ensures forall i :: 0 <= i < |r| - |s| ==> r[i] == '0'
  {
    if |s| == 0 then "00" else if |s| == 1 then "0" + s else s
  }

  /** Two-digit rendering of a number below 100 (sprintf "%02d"). */
  function TwoDigits(n: nat): (r: string)
    requires n < 100
    ensures |r| == 2
  {
    [Digit(n / 10), Digit(n % 10)]
  }

  /** The two digits read back as the number, and they are what str_pad of the number gives. */
  lemma TwoDigitsSpec(n: nat)
    requires n < 100
    ensures AllDigits(TwoDigits(n)) && ParseDigits(TwoDigits(n)) == n
    ensures TwoDigits(n) == PadLeft2(NatToString(n))
  {
    TwoDigitsParse(n);
    TwoDigitsPad(n);
  }

  lemma {:induction false} TwoDigitsParse(n: nat)
    requires n < 100
    ensures AllDigits(TwoDigits(n)) && ParseDigits(TwoDigits(n)) == n
  {
    var hi, lo := n / 10, n % 10;
    var r := TwoDigits(n);
    assert r == [Digit(hi), Digit(lo)];
    assert r[..1] == [Digit(hi)] && [Digit(hi)][..0] == [];
    assert ParseDigits(r[..1]) == hi;
    assert ParseDigits(r) == hi * 10 + lo;
  }

  lemma {:induction false} TwoDigitsPad(n: nat)
    requires n < 100
    ensures TwoDigits(n) == PadLeft2(NatToString(n))
  {
    var hi, lo := n / 10, n % 10;
    if n < 10 {
      assert hi == 0 && lo == n;
      assert NatToString(n) == [Digit(n)];
    } else {
      assert NatToString(hi) == [Digit(hi)];
      assert NatToString(n) == [Digit(hi), Digit(lo)];
    }
  }

  function IndexOfChar(s: string, d: char): (i: nat)
    requires d in s
    ensures i < |s| && s[i] == d && d !in s[..i]
  {
    if s[0] == d then 0 else 1 + IndexOfChar(s[1..], d)
  }

  /** A delimiter with none before it is the first one. */
  lemma {:induction false} IndexOfCharAt(s: string, d: char, j: nat)
    requires j < |s| && s[j] == d && d !in s[..j]
    ensures d in s && IndexOfChar(s, d) == j
    decreases j
  {
    if j > 0 {
      assert s[..j][0] == s[0];
      assert s[1..][j - 1] == d;
      assert s[1..][..j - 1] == s[..j][1..];
      IndexOfCharAt(s[1..], d, j - 1);
    }
  }

  /** PHP implode($sep, $parts). */
  function Join(parts: seq<string>, sep: string): (r: string)
    ensures parts == [] ==> r == ""
    ensures |parts| == 1 ==> r == parts[0]
  {
    if parts == [] then ""
    else if |parts| == 1 then parts[0]
    else parts[0] + sep + Join(parts[1..], sep)
  }

  /** PHP explode($d, $s) for a one-byte delimiter: the pieces between the delimiters. */
  function Split(s: string, d: char): (parts: seq<string>)
    ensures |parts| >= 1
    decreases |s|
  {
    if d !in s then [s]
    else
      var i := IndexOfChar(s, d);
      [s[..i]] + Split(s[i + 1..], d)
  }

  /** The pieces hold no delimiter, and joining them with it restores the text. */
  lemma SplitSpec(s: string, d: char)
    ensures forall i :: 0 <= i < |Split(s, d)| ==> d !in Split(s, d)[i]
    ensures Join(Split(s, d), [d]) == s
  {
    SplitPiecesClean(s, d);
    SplitJoin(s, d);
  }

  lemma {:induction false} SplitPiecesClean(s: string, d: char)
    ensures forall i :: 0 <= i < |Split(s, d)| ==> d !in Split(s, d)[i]
    decreases |s|
  {
    if d in s {
      var i := IndexOfChar(s, d);
      var rest := s[i + 1..];
      SplitPiecesClean(rest, d);
      var parts := Split(s, d);
      assert parts == [s[..i]] + Split(rest, d);
      forall k | 0 <= k < |parts| ensures d !in parts[k] {
        if k > 0 {
          assert parts[k] == Split(rest, d)[k - 1];
        }
      }
    }
  }

  lemma {:induction false} SplitJoin(s: string, d: char)
    ensures Join(Split(s, d), [d]) == s
    decreases |s|
  {
    if d in s {
      var i := IndexOfChar(s, d);
      var rest := s[i + 1..];
      SplitJoin(rest, d);
      assert s == s[..i] + [d] + rest;
    }
  }

  /** A string without the delimiter splits into itself alone. */
  lemma SplitWhole(s: string, d: char)
    requires d !in s
    ensures Split(s, d) == [s]
  {
  }

  /** Splitting text whose first delimiter follows `a` gives `a`, then the pieces of the rest. */
  lemma {:induction false} SplitAt(a: string, b: string, d: char)
    requires d !in a
    ensures Split(a + [d] + b, d) == [a] + Split(b, d)
  {
    var s := a + [d] + b;
    assert s[|a|] == d;
    var i := IndexOfChar(s, d);
    assert s[..|a|] == a;
    assert i == |a|;
    assert s[..i] == a;
    assert s[i + 1..] == b;
  }
}
