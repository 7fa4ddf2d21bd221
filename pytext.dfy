/** The few Python string built-ins the figure renamer relies on, on
    `string` = `seq<char>`: `str(int)`, `int(str)`, `str.split`,
    `str.rstrip` and `str.rjust`. Only ASCII decimal text is modelled. */
module PyText {
  import opened Wrappers

  predicate IsDigit(c: char) { '0' <= c <= '9' }

  predicate AllDigits(s: string) { forall i :: 0 <= i < |s| ==> IsDigit(s[i]) }

  function DigitChar(d: nat): (c: char)
    requires d < 10
    ensures IsDigit(c) && (c as int) - ('0' as int) == d
  {
    (('0' as int) + d) as char
  }

  /** The value of a string of decimal digits, most significant digit first. */
  function DigitsValue(s: string): nat
    requires AllDigits(s)
  {
    if s == [] then 0
    else DigitsValue(s[..|s| - 1]) * 10 + ((s[|s| - 1] as int) - ('0' as int))
  }

  /** `str(n)` for a non-negative integer: its canonical decimal digits,
      without leading zeros (except for `0` itself). */
  function NatToString(n: nat): (s: string)
    ensures |s| >= 1 && AllDigits(s) && DigitsValue(s) == n
    ensures s[0] == '0' ==> n == 0 && s == "0"
  {
    if n < 10 then [DigitChar(n)]
    else
      var s := NatToString(n / 10) + [DigitChar(n % 10)];
      assert s[..|s| - 1] == NatToString(n / 10);
      s
  }

  /** `str(i)` for any integer: a `-` sign followed by the digits of `|i|`. */
  function IntToString(i: int): (s: string)
    ensures i >= 0 ==> s == NatToString(i)
    ensures i < 0 ==> |s| >= 2 && s[0] == '-' && s[1..] == NatToString(-i)
  {
    if i < 0 then "-" + NatToString(-i) else NatToString(i)
  }

  /** The integer literals `int()` accepts here: an optional sign, then one
      or more ASCII decimal digits. */
  predicate IsIntLiteral(s: string)
  {
    if |s| > 0 && (s[0] == '+' || s[0] == '-') then |s| > 1 && AllDigits(s[1..])
    else |s| > 0 && AllDigits(s)
  }

  /** `int(s)`: `None` stands for the `ValueError` Python raises. */
  function ParseInt(s: string): (r: Option<int>)
    ensures r.Some? <==> IsIntLiteral(s)
    ensures r.Some? && s[0] != '-' ==> r.value >= 0
    ensures r.Some? && s[0] == '-' ==> r.value <= 0
  {
    if |s| > 0 && (s[0] == '+' || s[0] == '-') then
      if |s| > 1 && AllDigits(s[1..]) then
        var magnitude: int := DigitsValue(s[1..]);
        Some(if s[0] == '-' then -magnitude else magnitude)
      else None
    else if |s| > 0 && AllDigits(s) then Some(DigitsValue(s))
    else None
  }

  function Repeat(c: char, n: nat): (r: string)
    ensures |r| == n && forall i :: 0 <= i < n ==> r[i] == c
  {
    seq(n, _ => c)
  }

  /** `s.rjust(width, fill)`: `s` left-padded with `fill` up to `width`
      characters; never truncated. A string already `width` long comes
      back as it is; a shorter one ends in `s` behind only `fill`. */
  function RJust(s: string, width: nat, fill: char): (r: string)
    ensures |s| >= width ==> r == s
    ensures |s| < width ==>
      |r| == width && r[width - |s|..] == s && forall i :: 0 <= i < width - |s| ==> r[i] == fill
  {
    if |s| < width then Repeat(fill, width - |s|) + s else s
  }

  /** `s.rstrip(chars)`: removes the longest trailing run of characters
      that all belong to `chars` (a character set, not a suffix). */
  function RStrip(s: string, chars: set<char>): (r: string)
    ensures |r| <= |s| && r == s[..|r|]
    ensures |r| == 0 || r[|r| - 1] !in chars
    ensures forall i :: |r| <= i < |s| ==> s[i] in chars
  {
    if |s| > 0 && s[|s| - 1] in chars then RStrip(s[..|s| - 1], chars) else s
  }

  /** `sep.join(parts)`, the inverse of `Split`. */
  function JoinWith(parts: seq<string>, sep: char): string
    requires |parts| >= 1
  {
    if |parts| == 1 then parts[0] else parts[0] + [sep] + JoinWith(parts[1..], sep)
  }

  /** `s.split(sep)` for a one-character separator: always at least one
      field, no field contains the separator, and joining the fields back
      with the separator gives `s`. */
  function Split(s: string, sep: char): (parts: seq<string>)
    ensures |parts| >= 1
    ensures forall i :: 0 <= i < |parts| ==> sep !in parts[i]
    ensures JoinWith(parts, sep) == s
  {
    if |s| == 0 then [""]
    else
      var rest := Split(s[1..], sep);
      if s[0] == sep then
        assert [sep] + s[1..] == s;
        [""] + rest
      else
        var parts := [[s[0]] + rest[0]] + rest[1..];
        assert parts[1..] == rest[1..];
        assert |rest| > 1 ==> JoinWith(rest, sep) == rest[0] + [sep] + JoinWith(rest[1..], sep);
        assert [s[0]] + s[1..] == s;
        parts
  }

  /** Splitting a string whose first field is `a` peels `a` off. */
  lemma {:induction false} SplitAfterField(a: string, b: string, sep: char)
    requires sep !in a
    ensures Split(a + [sep] + b, sep) == [a] + Split(b, sep)
  {
    if a == [] {
      assert a + [sep] + b == [sep] + b;
      assert ([sep] + b)[1..] == b;
    } else {
      assert (a + [sep] + b)[1..] == a[1..] + [sep] + b;
      SplitAfterField(a[1..], b, sep);
      assert [a[0]] + a[1..] == a;
    }
  }

  /** A string without the separator is a single field. */
  lemma {:induction false} SplitSingleField(a: string, sep: char)
    requires sep !in a
    ensures Split(a, sep) == [a]
  {
    if a != [] {
      SplitSingleField(a[1..], sep);
      assert [a[0]] + a[1..] == a;
    }
  }

  /** `Split` undoes `JoinWith` when no field holds the separator. */
  lemma {:induction false} SplitJoin(parts: seq<string>, sep: char)
    requires |parts| >= 1
    requires forall i :: 0 <= i < |parts| ==> sep !in parts[i]
    ensures Split(JoinWith(parts, sep), sep) == parts
  {
    if |parts| == 1 {
      SplitSingleField(parts[0], sep);
    } else {
      SplitJoin(parts[1..], sep);
      SplitAfterField(parts[0], JoinWith(parts[1..], sep), sep);
      assert [parts[0]] + parts[1..] == parts;
    }
  }

  /** Two separator-free fields joined by the separator split back apart. */
  lemma SplitTwo(a: string, b: string, sep: char)
    requires sep !in a && sep !in b
    ensures Split(a + [sep] + b, sep) == [a, b]
  {
    SplitSingleField(b, sep);
    SplitAfterField(a, b, sep);
  }

  /** Three separator-free fields joined by the separator split back apart. */
  lemma SplitThree(a: string, b: string, c: string, sep: char)
    requires sep !in a && sep !in b && sep !in c
    ensures Split(a + [sep] + b + [sep] + c, sep) == [a, b, c]
  {
    var parts := [a, b, c];
    assert JoinWith(parts, sep) == a + [sep] + b + [sep] + c by {
      assert parts[1..] == [b, c] && [b, c][1..] == [c];
      assert JoinWith([b, c], sep) == b + [sep] + c;
    }
    SplitJoin(parts, sep);
  }

  /** `str(i)` is a digit or `-` followed by digits only, and ends in a digit. */
  lemma IntToStringChars(i: int)
    ensures var s := IntToString(i);
      |s| >= 1 && IsDigit(s[|s| - 1]) &&
      (IsDigit(s[0]) || s[0] == '-') &&
      forall k :: 0 < k < |s| ==> IsDigit(s[k])
  {
    var s := IntToString(i);
    if i < 0 {
      var d := NatToString(-i);
      assert s == "-" + d;
      forall k | 0 < k < |s|
        ensures IsDigit(s[k])
      {
        assert s[k] == d[k - 1];
      }
    }
  }

  /** Every character of a zero-padded rendering of an integer is a digit
      or `-`, and the last one is a digit. */
  lemma PaddedChars(i: int, width: nat)
    ensures var r := RJust(IntToString(i), width, '0');
      |r| >= 1 && IsDigit(r[|r| - 1]) &&
      forall k :: 0 <= k < |r| ==> IsDigit(r[k]) || r[k] == '-'
  {
    var s := IntToString(i);
    IntToStringChars(i);
    if |s| < width {
      var r := RJust(s, width, '0');
      var pad := width - |s|;
      assert r[|r| - 1] == s[|s| - 1];
      forall k | 0 <= k < |r|
        ensures IsDigit(r[k]) || r[k] == '-'
      {
        if k >= pad {
          assert r[k] == s[k - pad];
        }
      }
    }
  }

  /** Leading zeros do not change the value of a digit string. */
  lemma {:induction false} LeadingZerosValue(k: nat, s: string)
    requires AllDigits(s)
    ensures AllDigits(Repeat('0', k) + s)
    ensures DigitsValue(Repeat('0', k) + s) == DigitsValue(s)
  {
    var z := Repeat('0', k);
    if s == [] {
      assert z + s == z;
      ZerosValue(k);
    } else {
      var t := z + s;
      assert t[..|t| - 1] == z + s[..|s| - 1];
      LeadingZerosValue(k, s[..|s| - 1]);
    }
  }

  lemma {:induction false} ZerosValue(k: nat)
    ensures AllDigits(Repeat('0', k)) && DigitsValue(Repeat('0', k)) == 0
  {
    if k > 0 {
      assert Repeat('0', k)[..k - 1] == Repeat('0', k - 1);
      ZerosValue(k - 1);
    }
  }

  /** `int` reads a zero-padded digit string as the unpadded value. */
  lemma PaddedDigitsParse(k: nat, s: string)
    requires |s| >= 1 && AllDigits(s)
    ensures ParseInt(Repeat('0', k) + s) == Some(DigitsValue(s))
  {
    var r := Repeat('0', k) + s;
    LeadingZerosValue(k, s);
    assert IsDigit(r[0]);
  }

  /** `int` reads `-` followed by digits as the negated value. */
  lemma NegativeParse(s: string)
    requires |s| >= 1 && AllDigits(s)
    ensures ParseInt("-" + s) == Some(0 - DigitsValue(s))
  {
    assert ("-" + s)[1..] == s;
  }

  /** `int` reads `+` followed by digits as their value. */
  lemma PlusParse(s: string)
    requires |s| >= 1 && AllDigits(s)
    ensures ParseInt("+" + s) == Some(DigitsValue(s))
  {
    assert ("+" + s)[1..] == s;
  }

  /** `int(str(i).rjust(width, '0')) == i` for every non-negative integer and
      every width, and for a negative one when no padding is added (padding
      would put zeros in front of the sign). */
  lemma {:induction false} ParseIntPadded(i: int, width: nat)
    requires i >= 0 || width <= |IntToString(i)|
    ensures ParseInt(RJust(IntToString(i), width, '0')) == Some(i)
  {
    var s := IntToString(i);
    var r := RJust(s, width, '0');
    if i >= 0 {
      var k := |r| - |s|;
      assert r == Repeat('0', k) + s;
      PaddedDigitsParse(k, s);
    } else {
      assert r == s;
      NegativeParse(NatToString(-i));
    }
  }
}
