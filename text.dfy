/**
 * The pieces of Python's string and integer handling that the id schemes rely on:
 * `int(s)` on a decimal string, `str.split(sep)`, `f"{n}"` and the `03d` zero padding.
 */
module Text {
  import opened Outcomes

  predicate IsDigit(c: char) {
    '0' <= c <= '9'
  }

  predicate AllDigits(s: string) {
    forall i :: 0 <= i < |s| ==> IsDigit(s[i])
  }

  function DigitValue(c: char): nat
    requires IsDigit(c)
  {
    c as int - '0' as int
  }

  function DigitChar(d: nat): (c: char)
    requires d < 10
    ensures IsDigit(c) && DigitValue(c) == d
  {
    ('0' as int + d) as char
  }

  /** The number a string of decimal digits denotes (leading zeros allowed). */
  function DigitsValue(s: string): nat
    requires AllDigits(s)
    decreases |s|
  {
    if s == [] then 0 else 10 * DigitsValue(s[..|s| - 1]) + DigitValue(s[|s| - 1])
  }

  /** Python's `int(s)` on a string; `None` stands for the `ValueError` it raises. */
  function ParseInt(s: string): (r: Option<nat>)
    ensures r.None? <==> s == [] || exists i :: 0 <= i < |s| && !IsDigit(s[i])
  {
    if s != [] && AllDigits(s) then Some(DigitsValue(s)) else None
  }

  /** Python's `str(n)` (and `f"{n}"`) for a non-negative integer. */
  function DecimalString(n: nat): (s: string)
    ensures s != [] && AllDigits(s)
    ensures s[0] == '0' <==> n == 0
    ensures |s| == 1 <==> n < 10
    decreases n
  {
    if n < 10 then [DigitChar(n)] else DecimalString(n / 10) + [DigitChar(n % 10)]
  }

  /** `int(str(n)) == n`. */
  lemma {:induction false} ParseDecimal(n: nat)
    ensures ParseInt(DecimalString(n)) == Some(n)
    decreases n
  {
    if n >= 10 {
      var s := DecimalString(n);
      assert s[..|s| - 1] == DecimalString(n / 10);
      ParseDecimal(n / 10);
      assert DigitsValue(DecimalString(n / 10)) == n / 10;
      assert DigitValue(s[|s| - 1]) == n % 10;
      assert DigitsValue(s) == 10 * (n / 10) + n % 10;
    }
  }

  /** Distinct numbers print differently. */
  lemma DecimalStringInjective(m: nat, n: nat)
    ensures DecimalString(m) == DecimalString(n) ==> m == n
  {
    ParseDecimal(m);
    ParseDecimal(n);
  }

  function Zeros(k: nat): (z: string)
    ensures |z| == k && AllDigits(z)
  {
    seq(k, _ => '0')
  }

  /** Python's `format(n, "03d")` padding: left-fill with '0' up to `width` characters. */
  function ZeroPad(s: string, width: nat): (r: string)
    ensures |r| == (if |s| < width then width else |s|)
  {
    if |s| < width then Zeros(width - |s|) + s else s
  }

  /** The padded string is `width` long (or unchanged when already long enough): zeros, then `s`. */
  lemma ZeroPadShape(s: string, width: nat)
    ensures var r := ZeroPad(s, width);
            |r| == (if |s| < width then width else |s|) && r == Zeros(|r| - |s|) + s
  {
    if |s| >= width {
      assert Zeros(0) + s == s;
    }
  }

  lemma {:induction false} ZerosValue(k: nat)
    ensures DigitsValue(Zeros(k)) == 0
    decreases k
  {
    if k > 0 {
      assert Zeros(k)[..k - 1] == Zeros(k - 1);
      ZerosValue(k - 1);
    }
  }

  /** Leading zeros do not change what `int()` returns. */
  lemma {:induction false} LeadingZeros(k: nat, s: string)
    requires s != []
    ensures ParseInt(Zeros(k) + s) == ParseInt(s)
  {
    if AllDigits(s) {
      ZerosValueOfPrefix(k, s);
    } else {
      var i :| 0 <= i < |s| && !IsDigit(s[i]);
      assert (Zeros(k) + s)[k + i] == s[i];
    }
  }

  lemma {:induction false} ZerosValueOfPrefix(k: nat, s: string)
    requires AllDigits(s)
    ensures AllDigits(Zeros(k) + s) && DigitsValue(Zeros(k) + s) == DigitsValue(s)
    decreases |s|
  {
    var t := Zeros(k) + s;
    assert AllDigits(t) by {
      forall i | 0 <= i < |t| ensures IsDigit(t[i]) {
        if i >= k { assert t[i] == s[i - k]; }
      }
    }
    if s == [] {
      assert t == Zeros(k);
      ZerosValue(k);
    } else {
      assert t[..|t| - 1] == Zeros(k) + s[..|s| - 1];
      ZerosValueOfPrefix(k, s[..|s| - 1]);
    }
  }

  /** Python's `s.split(sep)` with an explicit one-character separator. */
  function Split(s: string, sep: char): (parts: seq<string>)
    ensures |parts| >= 1
    ensures forall i :: 0 <= i < |parts| ==> sep !in parts[i]
    decreases |s|
  {
    if s == [] then [""]
    else
      var rest := Split(s[1..], sep);
      if s[0] == sep then [""] + rest else [[s[0]] + rest[0]] + rest[1..]
  }

  /** Python's `sep.join(parts)`, the inverse of `Split`. */
  function Join(parts: seq<string>, sep: char): string
    decreases |parts|
  {
    if parts == [] then ""
    else if |parts| == 1 then parts[0]
    else parts[0] + [sep] + Join(parts[1..], sep)
  }

  /** Splitting and joining again gives back the original string. */
  lemma {:induction false} JoinSplit(s: string, sep: char)
    ensures Join(Split(s, sep), sep) == s
    decreases |s|
  {
    if s != [] {
      var rest := Split(s[1..], sep);
      JoinSplit(s[1..], sep);
      if s[0] == sep {
        assert Split(s, sep)[1..] == rest;
      } else if |rest| == 1 {
        assert Split(s, sep) == [[s[0]] + rest[0]];
      } else {
        var parts := Split(s, sep);
        assert parts[1..] == rest[1..];
        assert Join(rest, sep) == rest[0] + [sep] + Join(rest[1..], sep);
      }
    }
  }

  /** A string without the separator is one field. */
  lemma {:induction false} SplitWithoutSeparator(s: string, sep: char)
    requires sep !in s
    ensures Split(s, sep) == [s]
    decreases |s|
  {
    if s != [] {
      SplitWithoutSeparator(s[1..], sep);
      assert [s[0]] + s[1..] == s;
    }
  }

  /** A string that splits into two or more fields holds the separator. */
  lemma SplitHasSeparator(s: string, sep: char)
    requires |Split(s, sep)| >= 2
    ensures sep in s
  {
    if sep !in s {
      SplitWithoutSeparator(s, sep);
    }
  }

  /** The first field runs up to the first separator; the rest is split on its own. */
  lemma {:induction false} SplitAtFirstSeparator(a: string, sep: char, b: string)
    requires sep !in a
    ensures Split(a + [sep] + b, sep) == [a] + Split(b, sep)
    decreases |a|
  {
    var s := a + [sep] + b;
    if a == [] {
      assert s[1..] == b;
    } else {
      assert s[1..] == a[1..] + [sep] + b;
      SplitAtFirstSeparator(a[1..], sep, b);
      assert [a[0]] + a[1..] == a;
    }
  }

  /** Joining fields that hold no separator and splitting again gives back the fields. */
  lemma {:induction false} SplitJoin(parts: seq<string>, sep: char)
    requires |parts| >= 1
    requires forall i :: 0 <= i < |parts| ==> sep !in parts[i]
    ensures Split(Join(parts, sep), sep) == parts
    decreases |parts|
  {
    if |parts| == 1 {
      SplitWithoutSeparator(parts[0], sep);
    } else {
      SplitAtFirstSeparator(parts[0], sep, Join(parts[1..], sep));
      SplitJoin(parts[1..], sep);
      assert [parts[0]] + parts[1..] == parts;
    }
  }
}
