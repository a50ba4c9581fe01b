/** The parts of `java.lang.String`, `Integer` and `Character` that the
    formatter relies on, over an ASCII model of case and digits. */
module Strings {
  import opened Base

  const MinInt32: int := -0x8000_0000
  const MaxInt32: int := 0x7FFF_FFFF

  /** Java's `n++` on an `int`: wraps from the largest value to the smallest. */
  function Inc32(n: int): int {
    if n == MaxInt32 then MinInt32 else n + 1
  }

  predicate IsUpper(c: char) { 'A' <= c <= 'Z' }
  predicate IsLower(c: char) { 'a' <= c <= 'z' }
  predicate IsDigit(c: char) { '0' <= c <= '9' }

  function LowerChar(c: char): (r: char)
    ensures !IsUpper(r)
  {
    if IsUpper(c) then (c as int + 32) as char else c
  }

  function UpperChar(c: char): (r: char)
    ensures !IsLower(r)
  {
    if IsLower(c) then (c as int - 32) as char else c
  }

  /** `String.toLowerCase()`, ASCII letters only. */
  function Lower(s: string): (r: string)
    ensures |r| == |s|
  {
    seq(|s|, i requires 0 <= i < |s| => LowerChar(s[i]))
  }

  /** `String.toUpperCase()`, ASCII letters only. */
  function Upper(s: string): (r: string)
    ensures |r| == |s|
  {
    seq(|s|, i requires 0 <= i < |s| => UpperChar(s[i]))
  }

  /** `String.equalsIgnoreCase`. */
  predicate EqualsIgnoreCase(a: string, b: string) {
    Lower(a) == Lower(b)
  }

  /** `s` concatenated `n` times. */
  function Repeat(s: string, n: nat): string {
    if n == 0 then "" else Repeat(s, n - 1) + s
  }

  predicate EndsWith(s: string, suffix: string) {
    |suffix| <= |s| && s[|s| - |suffix|..] == suffix
  }

  /** `s.indexOf(pat) > -1`. */
  predicate Contains(s: string, pat: string)
    decreases |s|
  {
    if |s| < |pat| then false
    else pat <= s || Contains(s[1..], pat)
  }

  /** `s.replaceAll(pat, rep)` for a pattern and a replacement without regular
      expression metacharacters: occurrences are replaced left to right and
      never overlap. */
  function ReplaceAll(s: string, pat: string, rep: string): string
    requires |pat| > 0
    decreases |s|
  {
    if |s| < |pat| then s
    else if pat <= s then rep + ReplaceAll(s[|pat|..], pat, rep)
    else [s[0]] + ReplaceAll(s[1..], pat, rep)
  }

  /** The number of occurrences `ReplaceAll` replaces. */
  function Occurrences(s: string, pat: string): nat
    requires |pat| > 0
    decreases |s|
  {
    if |s| < |pat| then 0
    else if pat <= s then 1 + Occurrences(s[|pat|..], pat)
    else Occurrences(s[1..], pat)
  }

  lemma {:induction false} OccurrencesZero(s: string, pat: string)
    requires |pat| > 0
    ensures Occurrences(s, pat) == 0 <==> !Contains(s, pat)
    decreases |s|
  {
    if |s| >= |pat| && !(pat <= s) {
      OccurrencesZero(s[1..], pat);
    }
  }

  lemma MulSucc(k: int, d: int)
    ensures (k + 1) * d == k * d + d
  {
  }

  lemma {:induction false} ReplaceAllLength(s: string, pat: string, rep: string)
    requires |pat| > 0
    ensures |ReplaceAll(s, pat, rep)| == |s| + Occurrences(s, pat) * (|rep| - |pat|)
    decreases |s|
  {
    if |s| < |pat| {
    } else if pat <= s {
      var tail := s[|pat|..];
      ReplaceAllLength(tail, pat, rep);
      var k := Occurrences(tail, pat);
      assert Occurrences(s, pat) == k + 1;
      assert |ReplaceAll(s, pat, rep)| == |rep| + |ReplaceAll(tail, pat, rep)|;
      MulSucc(k, |rep| - |pat|);
    } else {
      ReplaceAllLength(s[1..], pat, rep);
    }
  }

  lemma {:induction false} ReplaceAllAbsent(s: string, pat: string, rep: string)
    requires |pat| > 0
    requires !Contains(s, pat) || rep == pat
    ensures ReplaceAll(s, pat, rep) == s
    decreases |s|
  {
    if |s| < |pat| {
    } else if pat <= s {
      var tail := s[|pat|..];
      ReplaceAllAbsent(tail, pat, rep);
      assert s == pat + tail;
    } else {
      ReplaceAllAbsent(s[1..], pat, rep);
      assert s == [s[0]] + s[1..];
    }
  }

  lemma {:induction false} ReplaceAllChanges(s: string, pat: string, rep: string)
    requires |pat| > 0
    requires Contains(s, pat) && rep != pat
    ensures ReplaceAll(s, pat, rep) != s
    decreases |s|
  {
    if pat <= s {
      var r := ReplaceAll(s, pat, rep);
      if |rep| == |pat| {
        assert r[..|pat|] == rep;
        assert s[..|pat|] == pat;
      } else {
        ReplaceAllLength(s, pat, rep);
        var k := Occurrences(s, pat);
        assert k >= 1;
        MulNonZero(k, |rep| - |pat|);
      }
    } else {
      ReplaceAllChanges(s[1..], pat, rep);
      var r := ReplaceAll(s, pat, rep);
      assert r == [s[0]] + ReplaceAll(s[1..], pat, rep);
      assert r[1..] == ReplaceAll(s[1..], pat, rep);
    }
  }

  lemma MulNonZero(k: int, d: int)
    requires k != 0 && d != 0
    ensures k * d != 0
  {
  }

  /** Replacing leaves the text unchanged exactly when the pattern does not
      occur or is replaced by itself. */
  lemma ReplaceAllUnchanged(s: string, pat: string, rep: string)
    requires |pat| > 0
    ensures ReplaceAll(s, pat, rep) == s <==> (!Contains(s, pat) || rep == pat)
  {
    if !Contains(s, pat) || rep == pat {
      ReplaceAllAbsent(s, pat, rep);
    } else {
      ReplaceAllChanges(s, pat, rep);
    }
  }

  // ---------------------------------------------------------------------
  // String.split with a one-character literal separator

  /** Every field between separators, empty ones included. */
  function Fields(s: string, sep: char): (r: seq<string>)
    ensures |r| >= 1
    decreases |s|
  {
    if |s| == 0 then [""]
    else
      var rest := Fields(s[1..], sep);
      if s[0] == sep then [""] + rest
      else [[s[0]] + rest[0]] + rest[1..]
  }

  /** The inverse of `Fields`: the fields glued back with the separator. */
  function Join(fs: seq<string>, sep: char): string
    requires |fs| >= 1
    decreases |fs|
  {
    if |fs| == 1 then fs[0] else fs[0] + [sep] + Join(fs[1..], sep)
  }

  lemma {:induction false} JoinFields(s: string, sep: char)
    ensures Join(Fields(s, sep), sep) == s
    decreases |s|
  {
    if |s| > 0 {
      var rest := Fields(s[1..], sep);
      JoinFields(s[1..], sep);
      assert s == [s[0]] + s[1..];
      if s[0] == sep {
        assert ([""] + rest)[1..] == rest;
      } else {
        var fs := [[s[0]] + rest[0]] + rest[1..];
        assert fs[1..] == rest[1..];
        if |rest| > 1 {
          assert Join(rest, sep) == rest[0] + [sep] + Join(rest[1..], sep);
        }
      }
    }
  }

  lemma {:induction false} FieldsOmitSeparator(s: string, sep: char)
    ensures forall i :: 0 <= i < |Fields(s, sep)| ==> sep !in Fields(s, sep)[i]
    decreases |s|
  {
    if |s| > 0 {
      FieldsOmitSeparator(s[1..], sep);
    }
  }

  lemma {:induction false} FieldsWithoutSeparator(s: string, sep: char)
    requires sep !in s
    ensures Fields(s, sep) == [s]
    decreases |s|
  {
    if |s| > 0 {
      FieldsWithoutSeparator(s[1..], sep);
      assert s == [s[0]] + s[1..];
    }
  }

  lemma {:induction false} FieldsAfterSeparator(a: string, b: string, sep: char)
    requires sep !in a
    ensures Fields(a + [sep] + b, sep) == [a] + Fields(b, sep)
    decreases |a|
  {
    var s := a + [sep] + b;
    if |a| == 0 {
      assert s[1..] == b;
    } else {
      FieldsAfterSeparator(a[1..], b, sep);
      assert s[1..] == a[1..] + [sep] + b;
      assert a == [a[0]] + a[1..];
    }
  }

  /** Drops the empty fields at the end, as `String.split` does. */
  function DropTrailingEmpty(fs: seq<string>): (r: seq<string>)
    ensures r <= fs
    ensures |r| > 0 ==> r[|r| - 1] != ""
    ensures forall i :: |r| <= i < |fs| ==> fs[i] == ""
    decreases |fs|
  {
    if |fs| == 0 || fs[|fs| - 1] != "" then fs
    else DropTrailingEmpty(fs[..|fs| - 1])
  }

  /** `s.split(sep)` for a separator that is one literal character. An empty
      string splits to one empty element; otherwise the trailing empty fields
      are dropped, so `","` splits to nothing and `"-5"` to `["", "5"]`. */
  function Split(s: string, sep: char): (r: seq<string>)
    ensures |s| > 0 && |r| > 0 ==> r[|r| - 1] != ""
  {
    if |s| == 0 then [""] else DropTrailingEmpty(Fields(s, sep))
  }

  /** `Split` keeps the fields of `s`, in order, minus empty ones at the end,
      and no element contains the separator. */
  lemma SplitFields(s: string, sep: char)
    requires |s| > 0
    ensures Split(s, sep) <= Fields(s, sep)
    ensures Join(Fields(s, sep), sep) == s
    ensures forall i :: |Split(s, sep)| <= i < |Fields(s, sep)| ==> Fields(s, sep)[i] == ""
    ensures forall i :: 0 <= i < |Split(s, sep)| ==> sep !in Split(s, sep)[i]
  {
    JoinFields(s, sep);
    FieldsOmitSeparator(s, sep);
    var fs := Fields(s, sep);
    var r := Split(s, sep);
    forall i | 0 <= i < |r|
      ensures sep !in r[i]
    {
      assert r[i] == fs[i];
    }
  }

  // ---------------------------------------------------------------------
  // Decimal text and Integer parsing

  function DigitChar(d: nat): char
    requires d < 10
  {
    ('0' as int + d) as char
  }

  /** Decimal digits of `n`, without leading zeros. */
  function NatToString(n: nat): (r: string)
    ensures |r| >= 1
    decreases n
  {
    if n < 10 then [DigitChar(n)] else NatToString(n / 10) + [DigitChar(n % 10)]
  }

  /** `"" + n` for a Java `int` or `long`. */
  function IntToString(n: int): string {
    if n < 0 then "-" + NatToString(-n) else NatToString(n)
  }

  /** `Character.digit(c, 36)`, which is also `Character.getNumericValue(c)`,
      for ASCII: 0-9 for digits, 10-35 for letters of either case, else -1. */
  function DigitValue(c: char): int {
    if IsDigit(c) then c as int - '0' as int
    else if IsLower(c) then c as int - 'a' as int + 10
    else if IsUpper(c) then c as int - 'A' as int + 10
    else -1
  }

  predicate AllDigits(s: string, radix: nat) {
    forall i :: 0 <= i < |s| ==> 0 <= DigitValue(s[i]) < radix
  }

  /** The value of a string of digits in base `radix`. */
  function DigitsValue(s: string, radix: nat): nat
    requires AllDigits(s, radix)
    decreases |s|
  {
    if |s| == 0 then 0
    else DigitsValue(s[..|s| - 1], radix) * radix + DigitValue(s[|s| - 1])
  }

  /** `Integer.valueOf(s, radix)`: an optional sign, then at least one digit,
      and the value must fit a 32-bit `int`; `None` is NumberFormatException. */
  function ParseInt(s: string, radix: nat): Option<int>
    requires 2 <= radix <= 36
  {
    if |s| == 0 then None
    else
      var digits := if s[0] == '-' || s[0] == '+' then s[1..] else s;
      if |digits| == 0 || !AllDigits(digits, radix) then None
      else
        var v: int := if s[0] == '-' then -(DigitsValue(digits, radix) as int) else DigitsValue(digits, radix);
        if MinInt32 <= v <= MaxInt32 then Some(v) else None
  }

  lemma {:induction false} NatToStringValue(n: nat)
    ensures AllDigits(NatToString(n), 10)
    ensures DigitsValue(NatToString(n), 10) == n
    ensures n > 0 ==> NatToString(n)[0] != '0'
    decreases n
  {
    var s := NatToString(n);
    if n >= 10 {
      NatToStringValue(n / 10);
      assert s[..|s| - 1] == NatToString(n / 10);
      assert s[0] == NatToString(n / 10)[0];
    }
  }

  /** `Integer.valueOf` reads back what `"" + n` wrote. */
  lemma IntToStringParses(n: int)
    requires MinInt32 <= n <= MaxInt32
    ensures ParseInt(IntToString(n), 10) == Some(n)
  {
    if n < 0 {
      NegativeParses(n);
    } else {
      NatToStringValue(n);
      var s := IntToString(n);
      assert s == NatToString(n);
      assert DigitValue(s[0]) >= 0;
      assert s[0] != '-' && s[0] != '+';
    }
  }

  lemma NegativeParses(n: int)
    requires MinInt32 <= n < 0
    ensures ParseInt(IntToString(n), 10) == Some(n)
  {
    var digits := NatToString(-n);
    NatToStringValue(-n);
    SignedParses(digits, -n);
  }

  lemma SignedParses(digits: string, m: nat)
    requires |digits| > 0 && AllDigits(digits, 10) && DigitsValue(digits, 10) == m
    requires m <= -MinInt32
    ensures ParseInt("-" + digits, 10) == Some(-(m as int))
  {
    assert ("-" + digits)[1..] == digits;
  }

  // ---------------------------------------------------------------------
  // String.trim

  /** A character `trim` removes: a control character or the space. */
  predicate IsTrimmed(c: char) { c <= ' ' }

  /** `s` without its leading trimmed characters. */
  function TrimStart(s: string): (r: string)
    ensures |r| <= |s| && r == s[|s| - |r|..]
    ensures |r| > 0 ==> !IsTrimmed(r[0])
    ensures forall i :: 0 <= i < |s| - |r| ==> IsTrimmed(s[i])
    decreases |s|
  {
    if |s| > 0 && IsTrimmed(s[0]) then TrimStart(s[1..]) else s
  }

  /** `s` without its trailing trimmed characters. */
  function TrimEnd(s: string): (r: string)
    ensures |r| <= |s| && r == s[..|r|]
    ensures |r| > 0 ==> !IsTrimmed(r[|r| - 1])
    ensures forall i :: |r| <= i < |s| ==> IsTrimmed(s[i])
    decreases |s|
  {
    if |s| > 0 && IsTrimmed(s[|s| - 1]) then TrimEnd(s[..|s| - 1]) else s
  }

  /** `String.trim()`. */
  function Trim(s: string): string {
    TrimEnd(TrimStart(s))
  }

  /** The trimmed text is a slice of `s` with no trimmed character at either
      end, and everything cut away is a trimmed character. */
  lemma TrimSlice(s: string)
    ensures exists i, j :: 0 <= i <= j <= |s| && Trim(s) == s[i..j]
              && (forall k :: 0 <= k < i ==> IsTrimmed(s[k]))
              && (forall k :: j <= k < |s| ==> IsTrimmed(s[k]))
    ensures |Trim(s)| > 0 ==> !IsTrimmed(Trim(s)[0]) && !IsTrimmed(Trim(s)[|Trim(s)| - 1])
  {
    var i, j := TrimBounds(s);
    if |Trim(s)| > 0 {
      assert Trim(s)[0] == TrimStart(s)[0];
    }
  }

  lemma TrimBounds(s: string) returns (i: nat, j: nat)
    ensures i <= j <= |s| && Trim(s) == s[i..j]
    ensures forall k :: 0 <= k < i ==> IsTrimmed(s[k])
    ensures forall k :: j <= k < |s| ==> IsTrimmed(s[k])
  {
    var a := TrimStart(s);
    var t := TrimEnd(a);
    i := |s| - |a|;
    j := i + |t|;
    assert t == a[..|t|];
    assert a[..|t|] == s[i..j];
    forall k | j <= k < |s|
      ensures IsTrimmed(s[k])
    {
      assert s[k] == a[k - i];
    }
  }
}
