/**
 * The few .NET string operations the task manager relies on, on `string` = `seq<char>`:
 * `char.IsWhiteSpace`, `string.IsNullOrWhiteSpace`, `Trim`, `Split(char)`, `string.Join`,
 * ordinal case-insensitive `IndexOf`, `PadLeft`/`PadRight` and decimal formatting.
 */
module Strings {

  /** `char.IsWhiteSpace`: the control characters TAB..CR, NEL and the Unicode separators. */
  predicate IsWhiteSpace(c: char) {
    || c == ' '
    || ('\t' <= c <= '\r')
    || c == '\U{0085}' || c == '\U{00A0}' || c == '\U{1680}'
    || ('\U{2000}' <= c <= '\U{200A}')
    || c == '\U{2028}' || c == '\U{2029}' || c == '\U{202F}' || c == '\U{205F}' || c == '\U{3000}'
  }

  /** `string.IsNullOrWhiteSpace` on a non-null string: empty or white space only. */
  predicate IsBlank(s: string) {
    forall i :: 0 <= i < |s| ==> IsWhiteSpace(s[i])
  }

  /** `TrimStart()`: drops the leading white space. */
  function TrimStart(s: string): (r: string)
    ensures |r| <= |s| && r == s[|s| - |r|..]
    ensures r == [] || !IsWhiteSpace(r[0])
    ensures IsBlank(s[..|s| - |r|])
  {
    if s != [] && IsWhiteSpace(s[0]) then
      var r := TrimStart(s[1..]);
      assert s[1..][..|s| - 1 - |r|] == s[1..|s| - |r|];
      r
    else s
  }

  /** `TrimEnd()`: drops the trailing white space. */
  function TrimEnd(s: string): (r: string)
    ensures |r| <= |s| && r == s[..|r|]
    ensures r == [] || !IsWhiteSpace(r[|r| - 1])
    ensures IsBlank(s[|r|..])
  {
    if s != [] && IsWhiteSpace(s[|s| - 1]) then
      var r := TrimEnd(s[..|s| - 1]);
      assert s[..|s| - 1][|r|..] == s[|r|..|s| - 1];
      assert s[|r|..] == s[|r|..|s| - 1] + [s[|s| - 1]];
      r
    else s
  }

  /** `Trim()`: drops white space at both ends. */
  function Trim(s: string): string {
    TrimEnd(TrimStart(s))
  }

  /** A trimmed string is empty exactly when the string was blank. */
  lemma TrimEmptyIffBlank(s: string)
    ensures Trim(s) == [] <==> IsBlank(s)
  {
    var a := TrimStart(s);
    if Trim(s) == [] {
      assert IsBlank(a[0..]);
      assert s == s[..|s| - |a|] + a;
    }

  }

  /** A string without white space at either end is its own trim. */
  lemma TrimOfTrimmed(s: string)
    requires s == [] || (!IsWhiteSpace(s[0]) && !IsWhiteSpace(s[|s| - 1]))
    ensures Trim(s) == s
  {
  }

  /** A trimmed string is a piece of the original with no white space at either end; trimming again changes nothing. */
  lemma TrimIsTrimmed(s: string)
    ensures Trim(s) == [] || (!IsWhiteSpace(Trim(s)[0]) && !IsWhiteSpace(Trim(s)[|Trim(s)| - 1]))
    ensures forall c :: c in Trim(s) ==> c in s
    ensures Trim(Trim(s)) == Trim(s)
  {
    var a := TrimStart(s);
    var r := Trim(s);
    if r != [] {
      assert r[0] == a[0];
    }
    forall c | c in r ensures c in s {
      var i :| 0 <= i < |r| && r[i] == c;
      assert a[i] == c;
      assert s[|s| - |a| + i] == c;
    }
    TrimOfTrimmed(r);
  }

  /** `s.Split(sep)`: the pieces between separators, |occurrences| + 1 of them, empty ones kept. */
  function Split(s: string, sep: char): (parts: seq<string>)
    ensures |parts| >= 1
    ensures forall i :: 0 <= i < |parts| ==> sep !in parts[i]
  {
    if s == [] then [""]
    else
      var rest := Split(s[1..], sep);
      if s[0] == sep then [""] + rest
      else [[s[0]] + rest[0]] + rest[1..]
  }

  /** `string.Join(sep, parts)`. */
  function Join(sep: string, parts: seq<string>): string {
    if |parts| == 0 then ""
    else if |parts| == 1 then parts[0]
    else parts[0] + sep + Join(sep, parts[1..])
  }

  /** Splitting what was joined on a separator that no part contains gives the parts back. */
  lemma {:induction false} SplitJoin(parts: seq<string>, sep: char)
    requires |parts| >= 1
    requires forall i :: 0 <= i < |parts| ==> sep !in parts[i]
    ensures Split(Join([sep], parts), sep) == parts
  {
    SplitJoinPart(parts[0], parts[1..], sep);
  }

  lemma {:induction false} SplitJoinPart(head: string, tail: seq<string>, sep: char)
    requires sep !in head
    requires forall i :: 0 <= i < |tail| ==> sep !in tail[i]
    ensures Split(Join([sep], [head] + tail), sep) == [head] + tail
    decreases |tail|, |head|
  {
    var joined := Join([sep], [head] + tail);
    if head == [] {
      if tail == [] {
        assert joined == "";
      } else {
        assert ([head] + tail)[1..] == tail;
        assert joined == [sep] + Join([sep], tail);
        assert tail == [tail[0]] + tail[1..];
        SplitJoinPart(tail[0], tail[1..], sep);
        assert joined[1..] == Join([sep], tail);
      }
    } else {
      var shorter := [head[1..]] + tail;
      assert joined == [head[0]] + Join([sep], shorter) by {
        if tail == [] {
        } else {
          assert ([head] + tail)[1..] == tail;
          assert shorter[1..] == tail;
        }
      }
      assert joined[1..] == Join([sep], shorter);
      SplitJoinPart(head[1..], tail, sep);
      assert head == [head[0]] + head[1..];
    }
  }

  /** ASCII upper-casing: the part of `char.ToUpperInvariant` the model keeps. */
  function Upper(c: char): char {
    if 'a' <= c <= 'z' then (c as int - 32) as char else c
  }

  /** `q` occurs in `s` at position `i`, comparing ordinally and ignoring case. */
  predicate MatchesAt(s: string, q: string, i: int) {
    0 <= i && i + |q| <= |s| && forall j :: 0 <= j < |q| ==> Upper(s[i + j]) == Upper(q[j])
  }

  /** The first position at or after `k` where `q` occurs, or -1. */
  function IndexFrom(s: string, q: string, k: nat): (r: int)
    ensures r == -1 || (k <= r && MatchesAt(s, q, r))
    ensures forall i :: k <= i && (r == -1 || i < r) ==> !MatchesAt(s, q, i)
    decreases |s| - k
  {
    if k + |q| > |s| then -1
    else if MatchesAt(s, q, k) then k
    else IndexFrom(s, q, k + 1)
  }

  /** `s.IndexOf(q, StringComparison.OrdinalIgnoreCase)`: first occurrence of `q`, or -1. */
  function IndexOfIgnoreCase(s: string, q: string): (r: int)
    ensures r == -1 || MatchesAt(s, q, r)
    ensures forall i :: 0 <= i && (r == -1 || i < r) ==> !MatchesAt(s, q, i)
  {
    IndexFrom(s, q, 0)
  }

  /** `n` spaces. */
  function Spaces(n: nat): (r: string)
    ensures |r| == n && forall i :: 0 <= i < n ==> r[i] == ' '
  {
    seq(n, _ => ' ')
  }

  /** `s.PadLeft(width)`: right-aligns `s` in `width` columns, never truncating. */
  function PadLeft(s: string, width: nat): (r: string)
    ensures |r| == if |s| >= width then |s| else width
    ensures r[|r| - |s|..] == s && forall i :: 0 <= i < |r| - |s| ==> r[i] == ' '
  {
    if |s| >= width then s else Spaces(width - |s|) + s
  }

  /** `s.PadRight(width)`: left-aligns `s` in `width` columns, never truncating. */
  function PadRight(s: string, width: nat): (r: string)
    ensures |r| == if |s| >= width then |s| else width
    ensures r[..|s|] == s && forall i :: |s| <= i < |r| ==> r[i] == ' '
  {
    if |s| >= width then s else s + Spaces(width - |s|)
  }

  /** A decimal digit. */
  function DigitChar(d: int): char
    requires 0 <= d < 10
  {
    ('0' as int + d) as char
  }

  predicate IsDigit(c: char) {
    '0' <= c <= '9'
  }

  /** The digit value of a decimal digit character. */
  function DigitValue(c: char): int
    requires IsDigit(c)
  {
    c as int - '0' as int
  }

  /** `n.ToString()` for a natural number. */
  function NatToString(n: nat): (r: string)
    ensures 1 <= |r| && forall i :: 0 <= i < |r| ==> IsDigit(r[i])
    ensures n < 10 ==> |r| == 1
    ensures 10 <= n < 100 ==> |r| == 2
    ensures n < 10000 ==> |r| <= 4
  {
    if n < 10 then [DigitChar(n)] else NatToString(n / 10) + [DigitChar(n % 10)]
  }

  /** Two-digit zero-padded formatting (the `HH`, `mm`, `MM` and `dd` format fields). */
  function TwoDigits(n: int): (r: string)
    requires 0 <= n < 100
    ensures |r| == 2 && IsDigit(r[0]) && IsDigit(r[1])
    ensures DigitValue(r[0]) * 10 + DigitValue(r[1]) == n
  {
    [DigitChar(n / 10), DigitChar(n % 10)]
  }

  predicate AllDigits(s: string) {
    forall i :: 0 <= i < |s| ==> IsDigit(s[i])
  }

  /** The value of a decimal digit string, most significant digit first. */
  function DigitsValue(s: string): nat
    requires AllDigits(s)
  {
    if s == [] then 0 else DigitsValue(s[..|s| - 1]) * 10 + DigitValue(s[|s| - 1])
  }

  /** `NatToString` writes `n` in decimal. */
  lemma {:induction false} NatToStringValue(n: nat)
    ensures DigitsValue(NatToString(n)) == n
  {
    if n >= 10 {
      NatToStringValue(n / 10);
      var r := NatToString(n);
      assert r[..|r| - 1] == NatToString(n / 10);
    }
  }

  function Zeros(z: nat): (r: string)
    ensures |r| == z && AllDigits(r)
  {
    seq(z, _ => '0')
  }

  /** Leading zeros do not change a digit string's value. */
  lemma {:induction false} LeadingZerosValue(z: nat, s: string)
    requires AllDigits(s)
    ensures AllDigits(Zeros(z) + s) && DigitsValue(Zeros(z) + s) == DigitsValue(s)
    decreases |s|, z
  {
    if s == [] {
      assert Zeros(z) + s == Zeros(z);
      if z > 0 {
        assert Zeros(z)[..z - 1] == Zeros(z - 1);
        LeadingZerosValue(z - 1, s);
        assert Zeros(z - 1) + s == Zeros(z - 1);
      }
    } else {
      var t := Zeros(z) + s;
      assert t[..|t| - 1] == Zeros(z) + s[..|s| - 1];
      LeadingZerosValue(z, s[..|s| - 1]);
    }
  }

  /** Two digit strings of one length with one value are the same string. */
  lemma {:induction false} DigitsInjective(a: string, b: string)
    requires AllDigits(a) && AllDigits(b) && |a| == |b|
    requires DigitsValue(a) == DigitsValue(b)
    ensures a == b
  {
    if a != [] {
      var i := |a| - 1;
      assert DigitValue(a[i]) == DigitsValue(a) % 10 && DigitValue(b[i]) == DigitsValue(b) % 10;
      assert DigitsValue(a[..i]) == DigitsValue(a) / 10 && DigitsValue(b[..i]) == DigitsValue(b) / 10;
      DigitsInjective(a[..i], b[..i]);
      assert a == a[..i] + [a[i]] && b == b[..i] + [b[i]];
    }
  }

  /** `TwoDigits` is the two-digit decimal form. */
  lemma TwoDigitsValue(n: int)
    requires 0 <= n < 100
    ensures AllDigits(TwoDigits(n)) && DigitsValue(TwoDigits(n)) == n
  {
    var r := TwoDigits(n);
    assert r[..1] == [r[0]] && r[..1][..0] == [];
    assert DigitsValue(r[..1]) == DigitValue(r[0]);
  }

  function Pow10(k: nat): nat {
    if k == 0 then 1 else 10 * Pow10(k - 1)
  }

  /** A digit string of length k is worth less than 10^k. */
  lemma {:induction false} DigitsValueBound(s: string)
    requires AllDigits(s)
    ensures DigitsValue(s) < Pow10(|s|)
  {
    if s != [] {
      DigitsValueBound(s[..|s| - 1]);
    }
  }
}
